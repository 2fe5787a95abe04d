/**
 * Meshes: vertex attribute descriptors validated by `checkAttribute`, stored by kind in
 * a mesh together with its indices and primitive type, and switched on and off for
 * rendering.
 */
module Meshes {
  import opened Wrappers
  import ErrorTrees

  /** `VertexAttributeKind`. */
  datatype AttributeKind = Positions | Normals | UvCoords | Colours

  /** The number of components per vertex: 1 to 4. */
  type ComponentCount = n: nat | 1 <= n <= 4 witness 1

  /** The two data types a descriptor may name (`FLOAT`, `UNSIGNED_INT`). */
  datatype DataType = Float | UnsignedInt

  /** `VertexAttributeDescriptor`; `enabled` is `None` when the property is absent. */
  datatype Descriptor = Descriptor(
    kind: AttributeKind,
    size: ComponentCount,
    dataType: DataType,
    data: seq<real>,
    enabled: Option<bool>)

  /** A descriptor as the mesh stores it: a copy whose `enabled` is always set. */
  datatype Attribute = Attribute(
    kind: AttributeKind,
    size: ComponentCount,
    dataType: DataType,
    data: seq<real>,
    enabled: bool)

  /** `Object.assign({ enabled: true }, d)`: the descriptor, enabled unless it says otherwise. */
  function Stored(d: Descriptor): (a: Attribute)
    ensures a.kind == d.kind && a.size == d.size && a.dataType == d.dataType && a.data == d.data
    ensures a.enabled <==> d.enabled != Some(false)
  {
    Attribute(d.kind, d.size, d.dataType, d.data, if d.enabled.Some? then d.enabled.value else true)
  }

  /**
   * What the documentation of `checkAttribute` calls well-formed: data that is non-empty and
   * holds a whole number of vertices of `size` components.
   */
  predicate WellFormed(d: Descriptor)
  {
    |d.data| > 0 && |d.data| % d.size == 0
  }

  /** The outcome of `checkAttribute`: the attribute itself, or a `TypeError` reporting length and size. */
  datatype Checked = Passed | Rejected(length: nat, size: ComponentCount)

  /**
   * `checkAttribute(d)`: passes the attribute when its data length is non-zero and not a
   * multiple of `size`, and returns a `TypeError` otherwise, which is the reverse of
   * what its documentation describes on non-empty data.
   */
  function CheckAttribute(d: Descriptor): (r: Checked)
    ensures r.Passed? <==> |d.data| > 0 && !WellFormed(d)
    ensures r.Rejected? ==> r.length == |d.data| && r.size == d.size
  {
    var length := |d.data|;
    if length != 0 && length % d.size > 0 then Passed else Rejected(length, d.size)
  }

  /** `checkAttribute` returns a `TypeError` for `d`. */
  predicate Fails(d: Descriptor)
  {
    CheckAttribute(d).Rejected?
  }

  /** `d` is not well-formed. */
  predicate Malformed(d: Descriptor)
  {
    !WellFormed(d)
  }

  /** The positions of the descriptors satisfying `p`, in increasing order. */
  function Where(attributes: seq<Descriptor>, p: Descriptor -> bool): (idx: seq<nat>)
    ensures forall k :: 0 <= k < |idx| ==> idx[k] < |attributes| && p(attributes[idx[k]])
    ensures forall k, l :: 0 <= k < l < |idx| ==> idx[k] < idx[l]
    ensures forall i :: 0 <= i < |attributes| && p(attributes[i]) ==> i in idx
  {
    if |attributes| == 0 then []
    else
      var n := |attributes| - 1;
      assert forall i :: 0 <= i < n ==> attributes[..n][i] == attributes[i];
      Where(attributes[..n], p) + if p(attributes[n]) then [n] else []
  }

  /** The `TypeError` reported for `d`: its data length and its size. */
  function Report(d: Descriptor): Checked
  {
    Rejected(|d.data|, d.size)
  }

  /** `r` holds one report per descriptor satisfying `p`, in the descriptors' order. */
  predicate Reports(attributes: seq<Descriptor>, p: Descriptor -> bool, r: seq<Checked>)
  {
    var idx := Where(attributes, p);
    |r| == |idx| && forall k :: 0 <= k < |r| ==> r[k] == Report(attributes[idx[k]])
  }

  /** Extending the list by one descriptor extends the reports by its own, if it satisfies `p`. */
  lemma ReportsSnoc(attributes: seq<Descriptor>, p: Descriptor -> bool, prev: seq<Checked>)
    requires |attributes| > 0
    requires Reports(attributes[..|attributes| - 1], p, prev)
    ensures var d := attributes[|attributes| - 1];
      Reports(attributes, p, prev + if p(d) then [Report(d)] else [])
  {
    var n := |attributes| - 1;
    var init := attributes[..n];
    var idx0 := Where(init, p);
    assert Where(attributes, p) == idx0 + if p(attributes[n]) then [n] else [];
    forall k | 0 <= k < |prev|
      ensures attributes[idx0[k]] == init[idx0[k]]
    {
    }
  }

  /**
   * `attributes.map(checkAttribute).filter(isError)`: one `TypeError` per failing
   * descriptor, in order, each reporting that descriptor's data length and size.
   */
  function AttributeErrors(attributes: seq<Descriptor>): (r: seq<Checked>)
    ensures Reports(attributes, Fails, r)
    ensures |r| == 0 <==> forall i :: 0 <= i < |attributes| ==> CheckAttribute(attributes[i]).Passed?
  {
    if |attributes| == 0 then []
    else
      var n := |attributes| - 1;
      var c := CheckAttribute(attributes[n]);
      var prev := AttributeErrors(attributes[..n]);
      ReportsSnoc(attributes, Fails, prev);
      prev + if c.Rejected? then [c] else []
  }

  /**
   * The constructor's guard `errors.length || fail(...)`: it fails exactly when no
   * attribute produced an error.
   */
  predicate Rejects(attributes: seq<Descriptor>)
  {
    |AttributeErrors(attributes)| == 0
  }

  /** No descriptor kind `attributes[i]` appears again later in the list. */
  predicate LastOfKind(attributes: seq<Descriptor>, i: nat)
    requires i < |attributes|
  {
    forall j :: i < j < |attributes| ==> attributes[j].kind != attributes[i].kind
  }

  /**
   * The constructor's reduce: every descriptor stored under its kind, a later descriptor
   * of a kind replacing an earlier one.
   */
  function AttributeMap(attributes: seq<Descriptor>): (m: map<AttributeKind, Attribute>)
    ensures forall k :: k in m ==> m[k].kind == k
  {
    if |attributes| == 0 then map[]
    else
      var n := |attributes| - 1;
      AttributeMap(attributes[..n])[attributes[n].kind := Stored(attributes[n])]
  }

  /** The map's keys are the kinds of the descriptors. */
  lemma {:induction false} AttributeMapKeys(attributes: seq<Descriptor>)
    ensures forall k :: k in AttributeMap(attributes) <==> exists i :: 0 <= i < |attributes| && attributes[i].kind == k
  {
    if |attributes| > 0 {
      var n := |attributes| - 1;
      AttributeMapKeys(attributes[..n]);
      assert forall i :: 0 <= i < n ==> attributes[..n][i] == attributes[i];
    }
  }

  /** Each kind maps to the stored copy of the last descriptor of that kind. */
  lemma {:induction false} AttributeMapLast(attributes: seq<Descriptor>, i: nat)
    requires i < |attributes| && LastOfKind(attributes, i)
    ensures attributes[i].kind in AttributeMap(attributes)
    ensures AttributeMap(attributes)[attributes[i].kind] == Stored(attributes[i])
  {
    var n := |attributes| - 1;
    if i < n {
      assert attributes[..n][i] == attributes[i];
      assert LastOfKind(attributes[..n], i) by {
        forall j | i < j < n
          ensures attributes[..n][j].kind != attributes[..n][i].kind
        {
          assert attributes[..n][j] == attributes[j];
        }
      }
      AttributeMapLast(attributes[..n], i);
      assert attributes[n].kind != attributes[i].kind;
    }
  }

  /** `TRIANGLES` (0x0004), the default primitive type. */
  const TRIANGLES: nat := 4

  /** The outcome of `new Mesh(...)`: a mesh, or the error passed to `fail`. */
  datatype Construction = Created(mesh: Mesh) | Threw(error: ErrorTrees.JsError)

  class Mesh {
    /** `_attribs`: the stored descriptors by kind. */
    var attribs: map<AttributeKind, Attribute>
    /** `_indices`. */
    const indices: seq<int>
    /** `_primtype`. */
    const primtype: nat

    /** Every attribute is stored under its own kind. */
    predicate Valid()
      reads this
    {
      forall k :: k in attribs ==> attribs[k].kind == k
    }

    /** The fields of a mesh whose attributes have passed the constructor's guard. */
    constructor FromParts(attribs: map<AttributeKind, Attribute>, indices: seq<int>, primtype: nat)
      requires forall k :: k in attribs ==> attribs[k].kind == k
      ensures Valid()
      ensures this.attribs == attribs && this.indices == indices && this.primtype == primtype
    {
      this.attribs := attribs;
      this.indices := indices;
      this.primtype := primtype;
    }

    /**
     * `new Mesh(attributes, indices, primtype)`: throws, through `fail`, the `TypeError` of
     * `flattenErrors()` when no attribute produced an error (no attributes at all
     * included); otherwise a mesh holding the attribute map, the indices and the primitive
     * type, `TRIANGLES` when none is given.
     */
    static method Create(attributes: seq<Descriptor>, indices: seq<int>, primtype: Option<nat>)
      returns (r: Construction)
      ensures r.Threw? <==> Rejects(attributes)
      ensures r.Threw? ==> r.error == ErrorTrees.FlattenErrors([])
      ensures r.Created? ==> fresh(r.mesh) && r.mesh.Valid() && r.mesh.attribs == AttributeMap(attributes)
      ensures r.Created? ==> r.mesh.indices == indices
      ensures r.Created? ==> r.mesh.primtype == (if primtype.Some? then primtype.value else TRIANGLES)
    {
      var errors := AttributeErrors(attributes);
      if |errors| == 0 {
        return Threw(ErrorTrees.FlattenErrors([]));
      }
      var mesh := new Mesh.FromParts(
        AttributeMap(attributes), indices, if primtype.Some? then primtype.value else TRIANGLES);
      return Created(mesh);
    }

    /** `at(kind)`: the stored descriptor of that kind, if any. */
    function At(kind: AttributeKind): (r: Option<Attribute>)
      reads this
      ensures r.Some? <==> kind in attribs
      ensures r.Some? ==> r.value == attribs[kind]
      ensures r.Some? && Valid() ==> r.value.kind == kind
    {
      if kind in attribs then Some(attribs[kind]) else None
    }

    /** `isAttributeDefined(kind)`: `at(kind)` is not null, i.e. a descriptor of that kind is stored. */
    predicate IsAttributeDefined(kind: AttributeKind)
      reads this
      ensures IsAttributeDefined(kind) <==> kind in attribs
    {
      At(kind).Some?
    }

    /** `disableAttribute(kind)`: clears `enabled` on a defined attribute; an undefined one leaves the mesh as it is. */
    method DisableAttribute(kind: AttributeKind)
      requires Valid()
      modifies this
      ensures Valid()
      ensures kind in old(attribs) ==> attribs == old(attribs)[kind := old(attribs)[kind].(enabled := false)]
      ensures kind !in old(attribs) ==> attribs == old(attribs)
      ensures IsAttributeDefined(kind) ==> At(kind).value.enabled == false
      ensures forall k :: IsAttributeDefined(k) <==> old(IsAttributeDefined(k))
      ensures forall k :: k != kind ==> At(k) == old(At(k))
    {
      var attr := At(kind);
      if attr.Some? {
        attribs := attribs[kind := attr.value.(enabled := false)];
      }
    }

    /** `enableAttribute(kind)`: sets `enabled` on a defined attribute; an undefined one leaves the mesh as it is. */
    method EnableAttribute(kind: AttributeKind)
      requires Valid()
      modifies this
      ensures Valid()
      ensures kind in old(attribs) ==> attribs == old(attribs)[kind := old(attribs)[kind].(enabled := true)]
      ensures kind !in old(attribs) ==> attribs == old(attribs)
      ensures IsAttributeDefined(kind) ==> At(kind).value.enabled == true
      ensures forall k :: IsAttributeDefined(k) <==> old(IsAttributeDefined(k))
      ensures forall k :: k != kind ==> At(k) == old(At(k))
    {
      var attr := At(kind);
      if attr.Some? {
        attribs := attribs[kind := attr.value.(enabled := true)];
      }
    }
  }

  /**
   * As written, the constructor throws exactly when every attribute has non-empty data
   * that is not a whole number of vertices, which holds vacuously for no attributes.
   */
  lemma RejectsExactly(attributes: seq<Descriptor>)
    ensures Rejects(attributes) <==>
      forall i :: 0 <= i < |attributes| ==> |attributes[i].data| > 0 && !WellFormed(attributes[i])
    ensures Rejects([])
  {
  }

  /**
   * The documented validation: the errors are those of the descriptors that are not
   * well-formed, each a `TypeError` reporting length and size.
   */
  function IntendedErrors(attributes: seq<Descriptor>): (r: seq<Checked>)
    ensures Reports(attributes, Malformed, r)
    ensures |r| == 0 <==> forall i :: 0 <= i < |attributes| ==> WellFormed(attributes[i])
  {
    if |attributes| == 0 then []
    else
      var n := |attributes| - 1;
      var d := attributes[n];
      var prev := IntendedErrors(attributes[..n]);
      ReportsSnoc(attributes, Malformed, prev);
      prev + if WellFormed(d) then [] else [Rejected(|d.data|, d.size)]
  }

  /** The documented guard: construction throws when some descriptor is malformed. */
  predicate IntendedRejects(attributes: seq<Descriptor>)
  {
    |IntendedErrors(attributes)| > 0
  }

  /** Under the documented guard a list is refused exactly when one of its descriptors is malformed. */
  lemma IntendedRejectsExactly(attributes: seq<Descriptor>)
    ensures IntendedRejects(attributes) <==> exists i :: 0 <= i < |attributes| && !WellFormed(attributes[i])
    ensures !IntendedRejects([])
  {
  }

  /**
   * The two inversions do not cancel: with no attribute the written constructor throws,
   * and with a well-formed position attribute followed by a malformed one it accepts.
   */
  lemma ValidationCounterexample()
    ensures Rejects([]) && !IntendedRejects([])
    ensures var good := Descriptor(Positions, 3, Float, [0.0, 0.0, 0.0], None);
            var bad := Descriptor(Normals, 3, Float, [0.0, 0.0, 0.0, 0.0], None);
            !Rejects([good, bad]) && IntendedRejects([good, bad])
  {
    var good := Descriptor(Positions, 3, Float, [0.0, 0.0, 0.0], None);
    var bad := Descriptor(Normals, 3, Float, [0.0, 0.0, 0.0, 0.0], None);
    assert CheckAttribute(good).Rejected?;
    assert !WellFormed(bad);
    assert [good, bad][1] == bad;
  }
}
