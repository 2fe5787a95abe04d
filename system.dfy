/**
 * Systems: a frozen query result plus a callback, applied per tick to every
 * enabled entity of the snapshot. The callback's effects are not modelled; each
 * call is recorded as an `Invocation` appended to a `CallLog`.
 */
module Systems {
  import opened Entities
  import opened Components

  /** Identifies a callback. */
  type CallbackId = nat

  /** One call `callback(dt, ...args)`. */
  datatype Invocation = Invocation(callback: CallbackId, dt: real, args: seq<Component>)

  /** The record of callback calls made so far. */
  class CallLog {
    var calls: seq<Invocation>

    constructor ()
      ensures calls == []
    {
      calls := [];
    }
  }

  /** The calls one update makes over `snapshot`, given each row's enabled flag. */
  function Dispatch(callback: CallbackId, dt: real, snapshot: seq<QueryResult>, flags: seq<bool>): seq<Invocation>
    requires |flags| == |snapshot|
  {
    if |snapshot| == 0 then []
    else
      var n := |snapshot| - 1;
      Dispatch(callback, dt, snapshot[..n], flags[..n])
        + if flags[n] then [Invocation(callback, dt, snapshot[n].components)] else []
  }

  /** The positions whose flag is set, in increasing order. */
  function EnabledPositions(flags: seq<bool>): (r: seq<nat>)
    ensures forall k :: 0 <= k < |r| ==> r[k] < |flags| && flags[r[k]]
    ensures forall k, l :: 0 <= k < l < |r| ==> r[k] < r[l]
    ensures forall i :: 0 <= i < |flags| && flags[i] ==> i in r
  {
    if |flags| == 0 then []
    else
      var n := |flags| - 1;
      EnabledPositions(flags[..n]) + if flags[n] then [n] else []
  }

  /**
   * One update calls the callback exactly once for each enabled row, in snapshot
   * order, passing `dt` and that row's components.
   */
  lemma {:induction false} DispatchEnabledInOrder(callback: CallbackId, dt: real, snapshot: seq<QueryResult>, flags: seq<bool>)
    requires |flags| == |snapshot|
    ensures var calls, pos := Dispatch(callback, dt, snapshot, flags), EnabledPositions(flags);
      |calls| == |pos| &&
      forall k :: 0 <= k < |calls| ==> calls[k] == Invocation(callback, dt, snapshot[pos[k]].components)
  {
    if |snapshot| > 0 {
      var n := |snapshot| - 1;
      DispatchEnabledInOrder(callback, dt, snapshot[..n], flags[..n]);
    }
  }

  /** With no row enabled (in particular with an empty snapshot) an update makes no call. */
  lemma {:induction false} DispatchNoneEnabled(callback: CallbackId, dt: real, snapshot: seq<QueryResult>, flags: seq<bool>)
    requires |flags| == |snapshot|
    requires forall i :: 0 <= i < |flags| ==> !flags[i]
    ensures Dispatch(callback, dt, snapshot, flags) == []
  {
    if |snapshot| > 0 {
      var n := |snapshot| - 1;
      DispatchNoneEnabled(callback, dt, snapshot[..n], flags[..n]);
    }
  }

  /** With every row enabled, an update calls the callback once per row, in order. */
  lemma {:induction false} DispatchAllEnabled(callback: CallbackId, dt: real, snapshot: seq<QueryResult>, flags: seq<bool>)
    requires |flags| == |snapshot|
    requires forall i :: 0 <= i < |flags| ==> flags[i]
    ensures var calls := Dispatch(callback, dt, snapshot, flags);
      |calls| == |snapshot| &&
      forall i :: 0 <= i < |snapshot| ==> calls[i] == Invocation(callback, dt, snapshot[i].components)
  {
    if |snapshot| > 0 {
      var n := |snapshot| - 1;
      DispatchAllEnabled(callback, dt, snapshot[..n], flags[..n]);
    }
  }

  /** The entities of a snapshot, whose flags an update reads. */
  ghost function EntitiesOf(snapshot: seq<QueryResult>): set<Entity>
  {
    set i | 0 <= i < |snapshot| :: snapshot[i].entity
  }

  /** The current enabled flag of each row's entity. */
  function Flags(snapshot: seq<QueryResult>): (r: seq<bool>)
    reads EntitiesOf(snapshot)
    ensures |r| == |snapshot|
    ensures forall i :: 0 <= i < |snapshot| ==> r[i] == snapshot[i].entity.enabled
  {
    if |snapshot| == 0 then []
    else
      var n := |snapshot| - 1;
      assert EntitiesOf(snapshot[..n]) <= EntitiesOf(snapshot);
      Flags(snapshot[..n]) + [snapshot[n].entity.enabled]
  }

  class System {
    /** The query result captured at construction; never changed afterwards. */
    const query: seq<QueryResult>
    const callback: CallbackId

    constructor (query: seq<QueryResult>, callback: CallbackId)
      ensures this.query == query && this.callback == callback
    {
      this.query := query;
      this.callback := callback;
    }

    /** The calls an update with `dt` makes in the current state of the snapshot's entities. */
    function Calls(dt: real): seq<Invocation>
      reads EntitiesOf(query)
    {
      Dispatch(callback, dt, query, Flags(query))
    }

    /**
     * `update(dt)`: walks the snapshot and records a call for each entity enabled at
     * that moment. Only the log changes: the snapshot and the entities stay as they were.
     */
    method Update(dt: real, log: CallLog)
      modifies log
      ensures log.calls == old(log.calls) + Calls(dt)
    {
      ghost var flags := Flags(query);
      var i := 0;
      while i < |query|
        invariant 0 <= i <= |query|
        invariant log.calls == old(log.calls) + Dispatch(callback, dt, query[..i], flags[..i])
      {
        var row := query[i];
        if row.entity.enabled {
          log.calls := log.calls + [Invocation(callback, dt, row.components)];
        }
        assert query[..i + 1][..i] == query[..i] && flags[..i + 1][..i] == flags[..i];
        i := i + 1;
      }
      assert query[..i] == query && flags[..i] == flags;
      assert Flags(query) == flags;
    }
  }
}
