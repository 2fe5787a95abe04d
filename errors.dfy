/**
 * The functional error values of the engine: an `IError` is a kind tag and a message;
 * `Error.toString` renders one as "[kind] message", `concatErrors` merges several into
 * one, `isError` recognises them among arbitrary objects and `fail` throws them.
 */
module Errors {
  import opened Wrappers
  import Text

  /**
   * An `IError` (and the `Error` class implementing it, whose fields are read-only and
   * whose instance `toString` is the static one applied to itself).
   */
  datatype IError = IError(kind: string, message: string)

  /** `Error.toString(e)`: the kind in square brackets, a space, then the message. */
  function ToString(e: IError): (r: string)
    ensures |r| == |e.kind| + |e.message| + 3
    ensures r[0] == '[' && r[1..|e.kind| + 1] == e.kind
    ensures r[|e.kind| + 1] == ']' && r[|e.kind| + 2] == ' '
    ensures r[|e.kind| + 3..] == e.message
  {
    "[" + e.kind + "] " + e.message
  }

  /** Distinct errors whose kinds hold no ']' render differently. */
  lemma ToStringInjective(e1: IError, e2: IError)
    requires ']' !in e1.kind && ']' !in e2.kind
    requires ToString(e1) == ToString(e2)
    ensures e1 == e2
  {
    var s := ToString(e1);
    var k := |e1.kind|;
    assert k == |e2.kind|;
    assert e1.kind == s[1..k + 1] == e2.kind;
    assert e1.message == s[k + 3..] == e2.message;
  }

  /** `errors.map(Error.toString)`. */
  function Strings(errors: seq<IError>): (r: seq<string>)
    ensures |r| == |errors|
    ensures forall i :: 0 <= i < |r| ==> r[i] == ToString(errors[i])
  {
    seq(|errors|, i requires 0 <= i < |errors| => ToString(errors[i]))
  }

  /**
   * `concatErrors(...errors)`: the first error's kind, and its message followed by the
   * rendering of every later error, joined by a newline and two spaces. With no
   * argument the source reads `kind` of `undefined` and throws: `None`.
   */
  function ConcatErrors(errors: seq<IError>): (r: Option<IError>)
    ensures r.Some? <==> |errors| > 0
    ensures r.Some? ==> r.value.kind == errors[0].kind
    ensures |errors| == 1 ==> r == Some(errors[0])
  {
    if |errors| == 0 then None
    else
      var parts := [errors[0].message] + Strings(errors[1..]);
      assert |errors| == 1 ==> parts == [errors[0].message];
      Some(IError(errors[0].kind, Text.Join(parts, "\n  ")))
  }

  /** What the later errors add to the message: for each, a newline, two spaces and its rendering. */
  function Continuation(rest: seq<IError>): (r: string)
    ensures |r| >= 6 * |rest|
    ensures |rest| > 0 ==> r[..3] == "\n  " && r[3] == '['
    ensures |rest| == 0 ==> r == ""
  {
    if |rest| == 0 then "" else "\n  " + ToString(rest[0]) + Continuation(rest[1..])
  }

  /** The renderings of a non-empty list: the first one's, then the rest's. */
  lemma StringsCons(rest: seq<IError>)
    requires |rest| > 0
    ensures Strings(rest) == [ToString(rest[0])] + Strings(rest[1..])
  {
    var r := Strings(rest);
    var t := [ToString(rest[0])] + Strings(rest[1..]);
    assert |r| == |t|;
    forall i | 0 <= i < |r|
      ensures r[i] == t[i]
    {
      if i > 0 {
        assert t[i] == Strings(rest[1..])[i - 1] == ToString(rest[1..][i - 1]);
      }
    }
  }

  /** Joining a first part with the renderings of `rest` gives that part and their continuation. */
  lemma {:induction false} JoinContinuation(first: string, rest: seq<IError>)
    ensures Text.Join([first] + Strings(rest), "\n  ") == first + Continuation(rest)
    decreases |rest|
  {
    if |rest| == 0 {
      assert [first] + Strings(rest) == [first];
    } else {
      var head, tail := ToString(rest[0]), Continuation(rest[1..]);
      JoinContinuation(head, rest[1..]);
      StringsCons(rest);
      assert Continuation(rest) == "\n  " + (head + tail);
      Text.JoinCons(first, Strings(rest), "\n  ", head + tail, Continuation(rest));
    }
  }

  /** Concatenating one more error appends its continuation line to the message. */
  lemma {:induction false} ConcatSnoc(errors: seq<IError>, e: IError)
    requires |errors| > 0
    ensures ConcatErrors(errors + [e]).value.message
         == ConcatErrors(errors).value.message + "\n  " + ToString(e)
  {
    var all := errors + [e];
    assert all[0] == errors[0];
    assert all[1..] == errors[1..] + [e];
    assert Strings(all[1..]) == Strings(errors[1..]) + [ToString(e)];
    assert [errors[0].message] + Strings(all[1..])
        == ([errors[0].message] + Strings(errors[1..])) + [ToString(e)];
    Text.JoinSnoc([errors[0].message] + Strings(errors[1..]), ToString(e), "\n  ");
  }

  /** The concatenated message is the first message, then one continuation per later error, in order. */
  lemma ConcatMessage(errors: seq<IError>)
    requires |errors| > 0
    ensures ConcatErrors(errors).value.message == errors[0].message + Continuation(errors[1..])
  {
    JoinContinuation(errors[0].message, errors[1..]);
  }

  /** A plain object as `isError` sees it: its `kind` and `message` properties, if present. */
  datatype Item = Item(kind: Option<string>, message: Option<string>)

  /** The view of an `IError` as a plain object. */
  function AsItem(e: IError): Item
  {
    Item(Some(e.kind), Some(e.message))
  }

  /** JavaScript truthiness of an optional string property. */
  predicate Truthy(p: Option<string>)
  {
    p.Some? && p.value != ""
  }

  /** `isError(obj)` on an object: both `kind` and `message` are truthy. */
  predicate IsError(obj: Item)
    ensures IsError(obj) <==>
      obj.kind.Some? && obj.message.Some? && |obj.kind.value| > 0 && |obj.message.value| > 0
  {
    Truthy(obj.kind) && Truthy(obj.message)
  }

  /** An argument of `isError`: `null` or `undefined`, or anything else seen through its two properties. */
  datatype Argument = Nullish | Object(item: Item)

  /**
   * `isError(obj)` on any argument: the property read `obj.kind` throws a `TypeError`
   * for `null` and `undefined` (`None`); otherwise the answer of `IsError`.
   */
  function IsErrorOf(obj: Argument): (r: Option<bool>)
    ensures r.None? <==> obj.Nullish?
    ensures r == Some(true) <==>
      obj.Object? && obj.item.kind.Some? && obj.item.message.Some? &&
      obj.item.kind.value != "" && obj.item.message.value != ""
  {
    match obj
    case Nullish => None
    case Object(item) => Some(IsError(item))
  }

  /** An `IError` passes `isError` exactly when neither its kind nor its message is empty. */
  lemma IsErrorOfIError(e: IError)
    ensures IsError(AsItem(e)) <==> e.kind != "" && e.message != ""
  {
  }

  /** Objects missing `kind` or `message` are not errors. */
  lemma IsErrorNeedsBoth(obj: Item)
    ensures obj.kind.None? ==> !IsError(obj)
    ensures obj.message.None? ==> !IsError(obj)
  {
  }

  /** Concatenating errors whose first one passes `isError` gives an error that passes too. */
  lemma ConcatIsError(errors: seq<IError>)
    requires |errors| > 0 && IsError(AsItem(errors[0]))
    ensures IsError(AsItem(ConcatErrors(errors).value))
  {
    ConcatMessage(errors);
  }

  /** What `fail` throws: the `TypeError` of reading `kind` of `undefined`, or an `Error` with a message. */
  datatype Thrown = TypeErrorThrown | ErrorThrown(message: string)

  /**
   * `fail(...errors)`: never returns; throws an `Error` whose message is the rendering of
   * the concatenation of the arguments.
   */
  function Fail(errors: seq<IError>): (r: Thrown)
    ensures r.TypeErrorThrown? <==> |errors| == 0
    ensures r.ErrorThrown? ==> r.message == ToString(ConcatErrors(errors).value)
  {
    match ConcatErrors(errors)
    case None => TypeErrorThrown
    case Some(err) => ErrorThrown(ToString(err))
  }

  /** The thrown message spelled out: "[first kind] first message", then the continuation lines. */
  lemma FailMessage(errors: seq<IError>)
    requires |errors| > 0
    ensures Fail(errors) == ErrorThrown("[" + errors[0].kind + "] " + errors[0].message + Continuation(errors[1..]))
  {
    var c, tail := ConcatErrors(errors).value, Continuation(errors[1..]);
    ConcatMessage(errors);
    assert c == IError(errors[0].kind, errors[0].message + tail);
    assert "[" + c.kind + "] " + (errors[0].message + tail) == "[" + errors[0].kind + "] " + errors[0].message + tail;
  }

  /** `fail(e)` throws exactly `e.toString()`. */
  lemma FailSingle(e: IError)
    ensures Fail([e]) == ErrorThrown(ToString(e))
  {
  }
}
