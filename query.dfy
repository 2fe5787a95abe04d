/**
 * Queries: a fixed list of component types; running one against a scene yields,
 * for every entity holding a component of each listed type, the entity paired with
 * those components in the listed order.
 */
module Queries {
  import opened Entities
  import opened Components
  import opened Scenes

  /** `filter(isNonNullable)`: the components found, in order. */
  function Present(s: seq<Component?>): (r: seq<Component>)
    ensures |r| <= |s|
    ensures |r| == |s| <==> forall i :: 0 <= i < |s| ==> s[i] != null
    ensures |r| == |s| ==> forall i :: 0 <= i < |s| ==> r[i] == s[i]
  {
    if |s| == 0 then []
    else if s[0] == null then Present(s[1..])
    else [s[0]] + Present(s[1..])
  }

  /** The requested types, fixed at construction (`_types` is read-only). */
  datatype Query = Query(types: seq<TypeKey>) {

    /** `_types.map(type => scene.getComponent(entity, type))`. */
    function Lookups(scene: Scene, e: Entity): (r: seq<Component?>)
      reads scene
      ensures |r| == |types|
      ensures forall t :: 0 <= t < |types| ==> r[t] == scene.GetComponent(e, types[t])
    {
      seq(|types|, t requires 0 <= t < |types| reads scene => scene.GetComponent(e, types[t]))
    }

    /** The scene holds a component of every requested type for `e`. */
    predicate HasAll(scene: Scene, e: Entity)
      reads scene
      ensures HasAll(scene, e) <==> |Present(Lookups(scene, e))| == |types|
    {
      forall t :: 0 <= t < |types| ==> scene.GetComponent(e, types[t]) != null
    }

    /**
     * The reducer folded over the first `n` slots of the entity array. Holes are skipped
     * (as `reduce` skips them); an entity is kept only when no lookup came back empty.
     */
    function Collect(scene: Scene, n: nat): (r: seq<QueryResult>)
      requires n <= |scene.entities|
      reads scene
      ensures |r| <= n
      ensures forall k :: 0 <= k < |r| ==> |r[k].components| == |types|
    {
      if n == 0 then []
      else
        var acc := Collect(scene, n - 1);
        var e := scene.entities[n - 1];
        if e == null then acc
        else
          var found := Present(Lookups(scene, e));
          if |types| == |found| then acc + [QueryResult(e, found)] else acc
    }

    /** `run(scene)`: reads the scene and changes nothing; the same scene gives the same rows. */
    function Run(scene: Scene): (r: seq<QueryResult>)
      reads scene
      ensures |r| <= |scene.entities|
      ensures forall k :: 0 <= k < |r| ==> |r[k].components| == |types|
    {
      Collect(scene, |scene.entities|)
    }
  }

  /** A result row: an added entity with, in request order, the scene's component of each requested type. */
  ghost predicate RowOf(q: Query, scene: Scene, m: QueryResult)
    reads scene
  {
    && m.entity.id < |scene.entities| && scene.entities[m.entity.id] == m.entity
    && |m.components| == |q.types|
    && forall t :: 0 <= t < |q.types| ==>
         m.components[t] == scene.GetComponent(m.entity, q.types[t]) && m.components[t].kind == q.types[t]
  }

  lemma {:induction false} CollectSound(q: Query, scene: Scene, n: nat)
    requires scene.Valid() && n <= |scene.entities|
    ensures forall k :: 0 <= k < |q.Collect(scene, n)| ==>
      RowOf(q, scene, q.Collect(scene, n)[k]) && q.Collect(scene, n)[k].entity.id < n
  {
    if n > 0 {
      CollectSound(q, scene, n - 1);
      var e := scene.entities[n - 1];
      if e != null {
        var found := Present(q.Lookups(scene, e));
        if |q.types| == |found| {
          forall t | 0 <= t < |q.types|
            ensures found[t] == scene.GetComponent(e, q.types[t]) && found[t].kind == q.types[t]
          {
            scene.GetComponentFound(e, q.types[t]);
          }
        }
      }
    }
  }

  lemma {:induction false} CollectComplete(q: Query, scene: Scene, n: nat)
    requires n <= |scene.entities|
    ensures forall i :: 0 <= i < n && scene.entities[i] != null && q.HasAll(scene, scene.entities[i]) ==>
      exists k :: 0 <= k < |q.Collect(scene, n)| && q.Collect(scene, n)[k].entity == scene.entities[i]
  {
    if n > 0 {
      CollectComplete(q, scene, n - 1);
      var acc := q.Collect(scene, n - 1);
      var e := scene.entities[n - 1];
      if e != null && q.HasAll(scene, e) {
        assert q.Collect(scene, n) == acc + [QueryResult(e, Present(q.Lookups(scene, e)))];
        assert q.Collect(scene, n)[|acc|].entity == e;
      }
      forall i | 0 <= i < n - 1 && scene.entities[i] != null && q.HasAll(scene, scene.entities[i])
        ensures exists k :: 0 <= k < |q.Collect(scene, n)| && q.Collect(scene, n)[k].entity == scene.entities[i]
      {
        var k :| 0 <= k < |acc| && acc[k].entity == scene.entities[i];
        assert q.Collect(scene, n)[k] == acc[k];
      }
    }
  }

  lemma {:induction false} CollectOrdered(q: Query, scene: Scene, n: nat)
    requires scene.Valid() && n <= |scene.entities|
    ensures forall k, l :: 0 <= k < l < |q.Collect(scene, n)| ==>
      q.Collect(scene, n)[k].entity.id < q.Collect(scene, n)[l].entity.id
  {
    if n > 0 {
      CollectOrdered(q, scene, n - 1);
      CollectSound(q, scene, n - 1);
    }
  }

  /**
   * Every row of `run` is an added entity, stored at the slot of its id, paired with
   * exactly one component per requested type: the scene's component of type `i` in position `i`.
   */
  lemma RunSound(q: Query, scene: Scene)
    requires scene.Valid()
    ensures forall k :: 0 <= k < |q.Run(scene)| ==> RowOf(q, scene, q.Run(scene)[k])
  {
    CollectSound(q, scene, |scene.entities|);
  }

  /** Strict AND: every added entity holding a component of each requested type has a row. */
  lemma RunComplete(q: Query, scene: Scene)
    ensures forall i :: 0 <= i < |scene.entities| && scene.entities[i] != null && q.HasAll(scene, scene.entities[i]) ==>
      exists k :: 0 <= k < |q.Run(scene)| && q.Run(scene)[k].entity == scene.entities[i]
  {
    CollectComplete(q, scene, |scene.entities|);
    assert q.Run(scene) == q.Collect(scene, |scene.entities|);
  }

  /** Rows come in strictly increasing entity id, the storage order of the entity array. */
  lemma RunOrdered(q: Query, scene: Scene)
    requires scene.Valid()
    ensures forall k, l :: 0 <= k < l < |q.Run(scene)| ==> q.Run(scene)[k].entity.id < q.Run(scene)[l].entity.id
  {
    CollectOrdered(q, scene, |scene.entities|);
  }
}
