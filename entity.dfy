/**
 * Entities: opaque handles identified by a non-negative id, carrying an enabled flag.
 * The process-wide id generator of the source is the explicit `IdCounter` object here.
 */
module Entities {

  /** How `enable`/`disable` end: normally, or with the TypeError a read-only flag raises. */
  datatype Outcome = Done | ThrewTypeError

  /** The generator behind `new Entity()`: hands out 0, 1, 2, ... */
  class IdCounter {
    /** The next id to hand out. */
    var uid: nat
    /** Every id handed out so far. */
    ghost var issued: set<nat>

    ghost predicate Valid()
      reads this
    {
      forall id :: id in issued ==> id < uid
    }

    constructor ()
      ensures Valid() && uid == 0 && issued == {}
    {
      uid := 0;
      issued := {};
    }

    /** `uid++`: the current value, then one more; never an id handed out before. */
    method Generate() returns (id: nat)
      requires Valid()
      modifies this
      ensures Valid()
      ensures id == old(uid) && uid == old(uid) + 1
      ensures id !in old(issued) && issued == old(issued) + {id}
    {
      id := uid;
      uid := uid + 1;
      issued := issued + {id};
    }
  }

  class Entity {
    /** The id; fixed at construction (the source defines it non-writable). */
    const id: nat
    /** `isEnabled`. */
    var enabled: bool
    /**
     * True for handles made by `FromId`: the source creates their `_isEnabled` property
     * through `Object.create` descriptors, which leave it non-writable, so assigning it
     * throws a TypeError in the (strict) class code.
     */
    const readOnlyFlag: bool

    /** `new Entity()`: the next id from the counter, enabled. */
    constructor (counter: IdCounter)
      requires counter.Valid()
      modifies counter
      ensures counter.Valid()
      ensures id == old(counter.uid) && counter.uid == old(counter.uid) + 1
      ensures id !in old(counter.issued) && counter.issued == old(counter.issued) + {id}
      ensures enabled && !readOnlyFlag
    {
      var next := counter.Generate();
      id := next;
      enabled := true;
      readOnlyFlag := false;
    }

    /** `Entity.fromId(id)`: a handle with exactly that id; no counter is involved. */
    constructor FromId(id: nat)
      ensures this.id == id && enabled && readOnlyFlag
    {
      this.id := id;
      enabled := true;
      readOnlyFlag := true;
    }

    /** Sets the flag to true whatever it was, unless the flag is read-only. */
    method Enable() returns (outcome: Outcome)
      modifies this
      ensures outcome == if readOnlyFlag then ThrewTypeError else Done
      ensures enabled == if readOnlyFlag then old(enabled) else true
    {
      if readOnlyFlag {
        outcome := ThrewTypeError;
      } else {
        enabled := true;
        outcome := Done;
      }
    }

    /** Sets the flag to false whatever it was, unless the flag is read-only. */
    method Disable() returns (outcome: Outcome)
      modifies this
      ensures outcome == if readOnlyFlag then ThrewTypeError else Done
      ensures enabled == if readOnlyFlag then old(enabled) else false
    {
      if readOnlyFlag {
        outcome := ThrewTypeError;
      } else {
        enabled := false;
        outcome := Done;
      }
    }
  }

  /** Two entities built from one counter get different ids, and `fromId` copies an id verbatim. */
  method DistinctIds(counter: IdCounter) returns (e0: Entity, e1: Entity, copy: Entity)
    requires counter.Valid()
    modifies counter
    ensures e0.id != e1.id && copy.id == e0.id
    ensures counter.uid == old(counter.uid) + 2
  {
    e0 := new Entity(counter);
    e1 := new Entity(counter);
    copy := new Entity.FromId(e0.id);
  }
}
