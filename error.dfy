/**
 * JavaScript `Error` objects as the engine handles them: `showError` renders one on a
 * line, `flattenErrors` merges several (and the trees of `AggregateError`s among them)
 * into one error with one indented line per node, and `splitErrors` separates errors
 * from other values.
 */
module ErrorTrees {
  import Text
  import Utilities

  /**
   * An error object: the name of its constructor, its message and its stack; an
   * `AggregateError` (as `isAggregateError` recognises it) also holds its inner errors.
   */
  datatype JsError =
    | Plain(typeName: string, message: string, stack: string)
    | Aggregate(typeName: string, message: string, stack: string, errors: seq<JsError>)

  /** `showError(e)`: the constructor name, ": ", then the message. */
  function ShowError(e: JsError): (r: string)
    ensures |r| == |e.typeName| + 2 + |e.message|
    ensures r[..|e.typeName|] == e.typeName
    ensures r[|e.typeName|..|e.typeName| + 2] == ": "
    ensures r[|e.typeName| + 2..] == e.message
  {
    e.typeName + ": " + e.message
  }

  /**
   * `_flattenErrors(errors, prefix)`: a left fold over `errors` that appends, for each
   * error, its line under `prefix` and then, for an aggregate, the lines of its inner
   * errors under `prefix` plus two spaces.
   */
  function FlattenLines(errors: seq<JsError>, prefix: string): (r: seq<string>)
    ensures |r| >= |errors|
    ensures forall i :: 0 <= i < |r| ==> prefix <= r[i]
    decreases errors
  {
    if |errors| == 0 then []
    else
      var n := |errors| - 1;
      var e := errors[n];
      FlattenLines(errors[..n], prefix)
        + [prefix + ShowError(e)]
        + (if e.Aggregate? then FlattenLines(e.errors, prefix + "  ") else [])
  }

  /** Two spaces per nesting level. */
  function Indent(depth: nat): (r: string)
    ensures |r| == 2 * depth
    ensures forall i :: 0 <= i < |r| ==> r[i] == ' '
  {
    if depth == 0 then "" else Indent(depth - 1) + "  "
  }

  /** A node of an error tree together with its nesting depth. */
  datatype Node = Node(depth: nat, error: JsError)

  /** The nodes of a forest of errors in pre-order: each error, then its inner errors one level deeper. */
  function PreOrder(errors: seq<JsError>, depth: nat): seq<Node>
    decreases errors
  {
    if |errors| == 0 then []
    else
      var e := errors[0];
      [Node(depth, e)]
        + (if e.Aggregate? then PreOrder(e.errors, depth + 1) else [])
        + PreOrder(errors[1..], depth)
  }

  /** The number of nodes of a forest of errors. */
  function NodeCount(errors: seq<JsError>): nat
    decreases errors
  {
    if |errors| == 0 then 0
    else
      var e := errors[0];
      1 + (if e.Aggregate? then NodeCount(e.errors) else 0) + NodeCount(errors[1..])
  }

  /** One line per node: the prefix, two spaces per level, then the node's `showError`. */
  function Render(nodes: seq<Node>, prefix: string): (r: seq<string>)
    ensures |r| == |nodes|
    ensures forall i :: 0 <= i < |r| ==> r[i] == prefix + Indent(nodes[i].depth) + ShowError(nodes[i].error)
  {
    seq(|nodes|, i requires 0 <= i < |nodes| => prefix + Indent(nodes[i].depth) + ShowError(nodes[i].error))
  }

  lemma RenderConcat(a: seq<Node>, b: seq<Node>, prefix: string)
    ensures Render(a + b, prefix) == Render(a, prefix) + Render(b, prefix)
  {
    assert forall i :: 0 <= i < |a + b| ==>
      Render(a + b, prefix)[i] == (Render(a, prefix) + Render(b, prefix))[i];
  }

  /** The lines of one error: its own line, then those of its inner errors two spaces further in. */
  lemma FlattenOne(e: JsError, prefix: string)
    ensures FlattenLines([e], prefix)
         == [prefix + ShowError(e)] + (if e.Aggregate? then FlattenLines(e.errors, prefix + "  ") else [])
  {
    assert [e][..0] == [];
  }

  /** The fold over a non-empty list: the fold over all but the last error, then that error's lines. */
  lemma FlattenSnoc(errors: seq<JsError>, prefix: string)
    requires |errors| > 0
    ensures FlattenLines(errors, prefix)
         == FlattenLines(errors[..|errors| - 1], prefix) + FlattenLines([errors[|errors| - 1]], prefix)
  {
    FlattenOne(errors[|errors| - 1], prefix);
  }

  /** Concatenation is associative. */
  lemma Reassociate<T>(x: seq<T>, y: seq<T>, z: seq<T>)
    ensures (x + y) + z == x + (y + z)
  {
  }

  /** `FlattenSnoc` for a concatenation whose second part is non-empty. */
  lemma FlattenSnocConcat(a: seq<JsError>, b: seq<JsError>, prefix: string)
    requires |b| > 0
    ensures FlattenLines(a + b, prefix)
         == FlattenLines(a + b[..|b| - 1], prefix) + FlattenLines([b[|b| - 1]], prefix)
  {
    assert (a + b)[..|a + b| - 1] == a + b[..|b| - 1];
    assert (a + b)[|a + b| - 1] == b[|b| - 1];
    FlattenSnoc(a + b, prefix);
  }

  /** The last step of the fold over a concatenation, given the fold over all but its last item. */
  lemma FlattenConcatStep(a: seq<JsError>, b: seq<JsError>, prefix: string)
    requires |b| > 0
    requires FlattenLines(a + b[..|b| - 1], prefix) == FlattenLines(a, prefix) + FlattenLines(b[..|b| - 1], prefix)
    ensures FlattenLines(a + b, prefix) == FlattenLines(a, prefix) + FlattenLines(b, prefix)
  {
    var n := |b| - 1;
    FlattenSnocConcat(a, b, prefix);
    FlattenSnoc(b, prefix);
    Reassociate(FlattenLines(a, prefix), FlattenLines(b[..n], prefix), FlattenLines([b[n]], prefix));
  }

  /** Folding over a concatenation concatenates the folds. */
  lemma {:induction false} FlattenConcat(a: seq<JsError>, b: seq<JsError>, prefix: string)
    ensures FlattenLines(a + b, prefix) == FlattenLines(a, prefix) + FlattenLines(b, prefix)
    decreases |b|
  {
    if |b| == 0 {
      assert a + b == a;
    } else {
      FlattenConcat(a, b[..|b| - 1], prefix);
      FlattenConcatStep(a, b, prefix);
    }
  }

  /** One step of the pre-order correspondence, given it for the inner errors and for the rest. */
  lemma PreOrderStep(errors: seq<JsError>, prefix: string, depth: nat)
    requires |errors| > 0
    requires errors[0].Aggregate? ==>
      FlattenLines(errors[0].errors, prefix + Indent(depth + 1)) == Render(PreOrder(errors[0].errors, depth + 1), prefix)
    requires FlattenLines(errors[1..], prefix + Indent(depth)) == Render(PreOrder(errors[1..], depth), prefix)
    ensures FlattenLines(errors, prefix + Indent(depth)) == Render(PreOrder(errors, depth), prefix)
  {
    var p := prefix + Indent(depth);
    var e, rest := errors[0], errors[1..];
    assert errors == [e] + rest;
    FlattenConcat([e], rest, p);
    FlattenOne(e, p);
    var inner := if e.Aggregate? then PreOrder(e.errors, depth + 1) else [];
    if e.Aggregate? {
      assert p + "  " == prefix + Indent(depth + 1);
    }
    RenderConcat([Node(depth, e)] + inner, PreOrder(rest, depth), prefix);
    RenderConcat([Node(depth, e)], inner, prefix);
    assert Render([Node(depth, e)], prefix) == [p + ShowError(e)];
  }

  /**
   * The flattened lines are the pre-order nodes of the error forest, each under the prefix
   * with two more spaces per nesting level: one line per node.
   */
  lemma {:induction false} FlattenIsPreOrder(errors: seq<JsError>, prefix: string, depth: nat)
    ensures FlattenLines(errors, prefix + Indent(depth)) == Render(PreOrder(errors, depth), prefix)
    decreases errors
  {
    if |errors| > 0 {
      if errors[0].Aggregate? {
        FlattenIsPreOrder(errors[0].errors, prefix, depth + 1);
      }
      FlattenIsPreOrder(errors[1..], prefix, depth);
      PreOrderStep(errors, prefix, depth);
    }
  }

  lemma {:induction false} PreOrderSize(errors: seq<JsError>, depth: nat)
    ensures |PreOrder(errors, depth)| == NodeCount(errors)
    decreases errors
  {
    if |errors| > 0 {
      if errors[0].Aggregate? {
        PreOrderSize(errors[0].errors, depth + 1);
      }
      PreOrderSize(errors[1..], depth);
    }
  }

  /** There is exactly one line per node of the error forest. */
  lemma LineCount(errors: seq<JsError>, prefix: string)
    ensures |FlattenLines(errors, prefix)| == NodeCount(errors)
  {
    assert prefix + Indent(0) == prefix;
    FlattenIsPreOrder(errors, prefix, 0);
    PreOrderSize(errors, 0);
  }

  /** The message of the error that `flattenErrors` builds from several: the lines joined by newlines. */
  function FlatText(errors: seq<JsError>): string
  {
    Text.Join(FlattenLines(errors, ""), "\n")
  }

  /** The `TypeError` returned (not thrown) when there is nothing to flatten. */
  const NothingToFlatten := Plain("TypeError", "No errors to flatten", "")

  /**
   * `flattenErrors(...errors)`: a `TypeError` for no argument, the argument itself for one,
   * and otherwise a new error built by the first error's constructor from the flattened
   * text, carrying the first error's stack. For an `AggregateError` the constructor takes
   * the text as its list of inner errors and leaves the message empty.
   */
  function FlattenErrors(errors: seq<JsError>): (r: JsError)
    ensures |errors| == 0 ==> r == NothingToFlatten
    ensures |errors| == 1 ==> r == errors[0]
    ensures |errors| > 1 ==> r.typeName == errors[0].typeName && r.stack == errors[0].stack
    ensures |errors| > 1 && errors[0].Plain? ==> r.Plain? && r.message == FlatText(errors)
    ensures |errors| > 1 && errors[0].Aggregate? ==> r.Aggregate? && r.message == ""
  {
    if |errors| == 0 then NothingToFlatten
    else if |errors| == 1 then errors[0]
    else
      var first := errors[0];
      match first
      case Plain(t, _, stack) => Plain(t, FlatText(errors), stack)
      case Aggregate(t, _, stack, _) => Aggregate(t, "", stack, [])
  }

  /**
   * `flattenErrors` as its documentation describes it: the messages concatenated, with the
   * type and stack of the first error, whatever that error's constructor.
   */
  function FlattenErrorsIntended(errors: seq<JsError>): (r: JsError)
    ensures |errors| == 0 ==> r == NothingToFlatten
    ensures |errors| == 1 ==> r == errors[0]
    ensures |errors| > 1 ==> r.typeName == errors[0].typeName && r.stack == errors[0].stack
    ensures |errors| > 1 ==> r.message == FlatText(errors)
  {
    if |errors| <= 1 then FlattenErrors(errors)
    else
      match errors[0]
      case Plain(t, _, stack) => Plain(t, FlatText(errors), stack)
      case Aggregate(t, _, stack, inner) => Aggregate(t, FlatText(errors), stack, inner)
  }

  /** The flattened message lists every node of the error forest in pre-order, indented by depth. */
  lemma FlattenedMessage(errors: seq<JsError>)
    requires |errors| > 1
    ensures FlattenErrorsIntended(errors).message == Text.Join(Render(PreOrder(errors, 0), ""), "\n")
    ensures |Render(PreOrder(errors, 0), "")| == NodeCount(errors)
  {
    assert "" + Indent(0) == "";
    FlattenIsPreOrder(errors, "", 0);
    PreOrderSize(errors, 0);
  }

  /** The written and the intended behaviour agree unless several errors start with an aggregate. */
  lemma FlattenAgrees(errors: seq<JsError>)
    requires |errors| <= 1 || errors[0].Plain?
    ensures FlattenErrors(errors) == FlattenErrorsIntended(errors)
  {
  }

  /**
   * Flattening an aggregate followed by another error loses every line: the result's
   * message is empty, where the documented behaviour gives both errors' lines.
   */
  lemma AggregateFirstLosesMessage(a: JsError, e: JsError)
    requires a.Aggregate?
    ensures FlattenErrors([a, e]).message == ""
    ensures FlattenErrorsIntended([a, e]).message != ""
  {
    var errors := [a, e];
    LineCount(errors, "");
    var lines := FlattenLines(errors, "");
    assert |lines| >= 2;
    assert Text.Join(lines, "\n") == lines[0] + "\n" + Text.Join(lines[1..], "\n");
  }

  /** A value `splitErrors` may meet: an error object, or anything else. */
  datatype Value = ErrorValue(error: JsError) | Other(description: string)

  /** `isError` as `splitErrors` applies it: the value is an error object. */
  predicate IsErrorValue(v: Value)
  {
    v.ErrorValue?
  }

  /** `splitErrors(items)`: the error objects in order, then the other values in order. */
  method SplitErrors(items: seq<Value>) returns (errors: seq<Value>, others: seq<Value>)
    ensures forall v :: v in errors <==> v in items && v.ErrorValue?
    ensures forall v :: v in others <==> v in items && !v.ErrorValue?
    ensures |errors| + |others| == |items|
    ensures multiset(errors) + multiset(others) == multiset(items)
    ensures errors == Utilities.Keep(items, IsErrorValue, true)
    ensures others == Utilities.Keep(items, IsErrorValue, false)
  {
    errors, others := Utilities.Split(IsErrorValue, items);
    Utilities.KeepSides(items, IsErrorValue);
    forall v | v in items || v in errors || v in others
      ensures v in errors <==> v in items && v.ErrorValue?
      ensures v in others <==> v in items && !v.ErrorValue?
    {
      Utilities.KeepMembers(items, IsErrorValue, true, v);
      Utilities.KeepMembers(items, IsErrorValue, false, v);
    }
  }
}
