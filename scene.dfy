/**
 * The scene: the aggregate holding entities (a sparse array indexed by entity id),
 * one sparse per-entity component array per registered component type, and the
 * systems in the order they were added.
 */
module Scenes {
  import opened Wrappers
  import opened Sparse
  import opened Entities
  import opened Components
  import opened Systems

  /** `_components`: component-type key to a sparse array indexed by entity id. */
  type ComponentTable = map<TypeKey, seq<Component?>>

  /** The component stored for `key` at slot `id`, or null when the type is unregistered or the slot empty. */
  function TableSlot(table: ComponentTable, key: TypeKey, id: nat): Component?
  {
    if key in table then Slot(table[key], id, null) else null
  }

  /** `findIndex(element => element === x)`: the lowest index holding `x`, or -1. */
  function FindIndex<T(==)>(s: seq<T>, x: T): (r: int)
    ensures r == -1 <==> x !in s
    ensures r != -1 ==> 0 <= r < |s| && s[r] == x && x !in s[..r]
  {
    if |s| == 0 then -1
    else if s[0] == x then 0
    else
      var k := FindIndex(s[1..], x);
      assert s[1..][..k + 1] == s[1..k + 2] by { if k != -1 { assert s[..k + 2] == [s[0]] + s[1..][..k + 1]; } }
      if k == -1 then -1 else k + 1
  }

  /** The ids whose slot holds an entity. */
  ghost function Occupied(s: seq<Entity?>): set<nat>
  {
    set i: nat | i < |s| && s[i] != null
  }

  /** `reduce((sum, e) => e ? sum + 1 : sum, 0)`: the holes are skipped. */
  function CountPresent(s: seq<Entity?>): nat
  {
    if |s| == 0 then 0
    else CountPresent(s[..|s| - 1]) + if s[|s| - 1] != null then 1 else 0
  }

  /** Counting the filled slots gives the number of occupied ids. */
  lemma {:induction false} CountPresentIsOccupied(s: seq<Entity?>)
    ensures CountPresent(s) == |Occupied(s)|
  {
    if |s| > 0 {
      var n := |s| - 1;
      CountPresentIsOccupied(s[..n]);
      if s[n] != null {
        assert Occupied(s) == Occupied(s[..n]) + {n};
        assert n !in Occupied(s[..n]);
      } else {
        assert Occupied(s) == Occupied(s[..n]);
      }
    }
  }

  class Scene {
    /** `_entities`: the entity with id `i` sits at index `i`; null is a hole. */
    var entities: seq<Entity?>
    /** `_components`. */
    var components: ComponentTable
    /** `_systems`, in the order they were added. */
    var systems: seq<System>

    /**
     * The invariant every operation keeps: an entity sits at the slot of its id, a
     * component sits under the key of its own type, and only at the slot of an added entity.
     */
    ghost predicate Valid()
      reads this
    {
      && (forall i :: 0 <= i < |entities| && entities[i] != null ==> entities[i].id == i)
      && (forall key, i {:trigger components[key][i]} :: key in components && 0 <= i < |components[key]| && components[key][i] != null ==>
            components[key][i].kind == key && i < |entities| && entities[i] != null)
    }

    /** The ids of the entities added so far. */
    ghost function Ids(): set<nat>
      reads this
    {
      Occupied(entities)
    }

    /** A new scene holds nothing. */
    constructor ()
      ensures Valid()
      ensures entities == [] && components == map[] && systems == []
    {
      entities := [];
      components := map[];
      systems := [];
    }

    /** `entityCount`: the number of entities added, not the array's length. */
    function EntityCount(): (n: nat)
      reads this
      ensures n == |Ids()|
    {
      CountPresentIsOccupied(entities);
      CountPresent(entities)
    }

    /** `hasEntity`: the slot at the entity's id is filled. */
    predicate HasEntity(e: Entity)
      reads this
      ensures HasEntity(e) <==> e.id in Ids()
    {
      Slot(entities, e.id, null) != null
    }

    /**
     * `addEntity`: refuses an id already present; otherwise stores the entity at the
     * slot of its id. The component tables and the systems are untouched.
     */
    method AddEntity(e: Entity) returns (added: bool)
      requires Valid()
      modifies this
      ensures Valid()
      ensures added == !old(HasEntity(e))
      ensures entities == if added then Place(old(entities), e.id, e, null) else old(entities)
      ensures Ids() == old(Ids()) + {e.id}
      ensures HasEntity(e)
      ensures EntityCount() == if added then old(EntityCount()) + 1 else old(EntityCount())
      ensures components == old(components) && systems == old(systems)
    {
      added := !HasEntity(e);
      if added {
        ghost var before := entities;
        entities := Place(entities, e.id, e, null);
        assert forall i: nat :: Slot(entities, i, null) == if i == e.id then e else Slot(before, i, null);
        assert Ids() == Occupied(before) + {e.id} by {
          forall i: nat ensures i in Ids() <==> i in Occupied(before) + {e.id} {
            assert Slot(entities, i, null) == if i == e.id then e else Slot(before, i, null);
          }
        }
        forall key, i | key in components && 0 <= i < |components[key]| && components[key][i] != null
          ensures i < |entities| && entities[i] != null
        {
          assert Slot(before, i, null) != null;
          assert Slot(entities, i, null) == if i == e.id then e else Slot(before, i, null);
        }
        forall i | 0 <= i < |entities| && entities[i] != null
          ensures entities[i].id == i
        {
          assert Slot(entities, i, null) == if i == e.id then e else Slot(before, i, null);
        }
      } else {
        assert e.id in Ids();
      }
    }

    /**
     * `getEntity(c)`: the entity at the lowest slot of `c`'s type array that holds
     * exactly `c`; null when the type is unregistered or no slot holds `c`.
     */
    function GetEntity(c: Component): (r: Entity?)
      requires Valid()
      reads this
      ensures r != null <==> c.kind in components && c in components[c.kind]
      ensures r != null ==>
        && r.id < |components[c.kind]| && components[c.kind][r.id] == c
        && c !in components[c.kind][..r.id]
        && r.id < |entities| && entities[r.id] == r
    {
      if c.kind !in components then null
      else
        var index := FindIndex(components[c.kind], c);
        if index == -1 then null else Slot(entities, index, null)
    }

    /** `getComponentsOfType`: the type's whole sparse array, or nothing when unregistered. */
    function GetComponentsOfType(key: TypeKey): (r: Option<seq<Component?>>)
      reads this
      ensures r.Some? <==> IsComponentTypeRegistered(key)
      ensures r.Some? ==> forall id: nat :: Slot(r.value, id, null) == TableSlot(components, key, id)
    {
      if key in components then Some(components[key]) else None
    }

    /** `isComponentTypeRegistered`. */
    predicate IsComponentTypeRegistered(key: TypeKey)
      reads this
      ensures !IsComponentTypeRegistered(key) ==> forall id: nat :: TableSlot(components, key, id) == null
    {
      key in components
    }

    /**
     * `registerComponentType`: the first registration adds an empty array and reports
     * true; a repeat reports false and leaves the existing array as it was.
     */
    method RegisterComponentType(key: TypeKey) returns (registered: bool)
      requires Valid()
      modifies this
      ensures Valid()
      ensures registered == !old(IsComponentTypeRegistered(key))
      ensures IsComponentTypeRegistered(key)
      ensures components == if registered then old(components)[key := []] else old(components)
      ensures entities == old(entities) && systems == old(systems)
    {
      registered := key !in components;
      if registered {
        components := components[key := []];
      }
    }

    /**
     * `setComponent(e, c)`: when `e` has been added and `c`'s type registered, stores
     * `c` at `e`'s slot of that type, overwriting what was there; otherwise nothing
     * changes. Every other slot of every type keeps its value, and no key appears.
     */
    method SetComponent(e: Entity, c: Component)
      requires Valid()
      modifies this
      ensures Valid()
      ensures components.Keys == old(components.Keys)
      ensures forall key, id: nat ::
        TableSlot(components, key, id) ==
          if old(HasEntity(e)) && c.kind in old(components) && key == c.kind && id == e.id then c
          else TableSlot(old(components), key, id)
      ensures components ==
        if old(HasEntity(e)) && c.kind in old(components)
        then old(components)[c.kind := Place(old(components)[c.kind], e.id, c, null)]
        else old(components)
      ensures entities == old(entities) && systems == old(systems)
    {
      if HasEntity(e) && c.kind in components {
        ghost var before := components;
        components := components[c.kind := Place(components[c.kind], e.id, c, null)];
        forall key, id: nat
          ensures TableSlot(components, key, id) == if key == c.kind && id == e.id then c else TableSlot(before, key, id)
        {
          if key == c.kind {
            assert Slot(components[key], id, null) == if id == e.id then c else Slot(before[key], id, null);
          }
        }
        forall key, i | key in components && 0 <= i < |components[key]| && components[key][i] != null
          ensures components[key][i].kind == key && i < |entities| && entities[i] != null
        {
          assert components[key][i] == TableSlot(components, key, i);
        }
      }
    }

    /** `getComponent(e, key)`: the component stored for `key` at `e`'s id, or null. */
    function GetComponent(e: Entity, key: TypeKey): (r: Component?)
      reads this
      ensures r != null ==> key in components && e.id < |components[key]| && r == components[key][e.id]
    {
      TableSlot(components, key, e.id)
    }

    /** `hasComponent`: whether `getComponent` finds something. */
    predicate HasComponent(e: Entity, key: TypeKey)
      reads this
      ensures HasComponent(e, key) <==> IsComponentTypeRegistered(key) && Slot(components[key], e.id, null) != null
    {
      GetComponent(e, key) != null
    }

    /**
     * A component found for an entity belongs to the requested type and to an
     * entity of the scene with that id; nothing is found for an unregistered type.
     */
    lemma GetComponentFound(e: Entity, key: TypeKey)
      requires Valid()
      ensures !IsComponentTypeRegistered(key) ==> GetComponent(e, key) == null
      ensures GetComponent(e, key) != null ==> GetComponent(e, key).kind == key && e.id in Ids()
    {
      if GetComponent(e, key) != null {
        assert components[key][e.id] != null;
      }
    }

    /** `addSystem`: appends. */
    method AddSystem(s: System)
      requires Valid()
      modifies this
      ensures Valid()
      ensures systems == old(systems) + [s]
      ensures entities == old(entities) && components == old(components)
    {
      systems := systems + [s];
    }

    /** The entities whose flags the systems' updates read. */
    ghost function Watched(): set<Entity>
      reads this
    {
      set s, e | s in systems && e in EntitiesOf(s.query) :: e
    }

    /** The calls `update(dt)` makes: each system's calls, system after system in the order added. */
    function UpdateCalls(dt: real): seq<Invocation>
      reads this, Watched()
    {
      CallsOf(systems, dt)
    }

    /**
     * `update(dt)`: calls `update(dt)` on every system once, in the order they were
     * added; only the log changes.
     */
    method Update(dt: real, log: CallLog)
      modifies log
      ensures log.calls == old(log.calls) + UpdateCalls(dt)
    {
      var all := systems;
      var i := 0;
      while i < |all|
        invariant 0 <= i <= |all|
        invariant log.calls == old(log.calls) + CallsOf(all[..i], dt)
      {
        ghost var done := CallsOf(all[..i], dt);
        assert (log as object) !in SnapshotEntities(all[..i]);
        all[i].Update(dt, log);
        assert CallsOf(all[..i], dt) == done;
        CallsOfSnoc(all, i, dt);
        i := i + 1;
      }
      assert all[..i] == all;
    }
  }

  /** The entities of the snapshots of `systems`. */
  ghost function SnapshotEntities(systems: seq<System>): set<Entity>
  {
    set s, e | s in systems && e in EntitiesOf(s.query) :: e
  }

  /** The calls the systems make, one after the other. */
  function CallsOf(systems: seq<System>, dt: real): seq<Invocation>
    reads SnapshotEntities(systems)
  {
    if |systems| == 0 then []
    else
      var n := |systems| - 1;
      assert SnapshotEntities(systems[..n]) <= SnapshotEntities(systems);
      CallsOf(systems[..n], dt) + systems[n].Calls(dt)
  }

  /** The calls of one more system come after those of the systems before it. */
  lemma CallsOfSnoc(systems: seq<System>, i: nat, dt: real)
    requires i < |systems|
    ensures CallsOf(systems[..i + 1], dt) == CallsOf(systems[..i], dt) + systems[i].Calls(dt)
  {
    assert systems[..i + 1][..i] == systems[..i];
  }
}
