/** String helpers shared by the error utilities. */
module Text {

  /** `parts.join(sep)`: the parts with `sep` between consecutive ones; "" for no parts. */
  function Join(parts: seq<string>, sep: string): string
  {
    if |parts| == 0 then ""
    else if |parts| == 1 then parts[0]
    else parts[0] + sep + Join(parts[1..], sep)
  }

  /** Joining a first part onto a non-empty list puts the separator between it and the rest's join. */
  lemma JoinCons(first: string, tail: seq<string>, sep: string, rest: string, whole: string)
    requires |tail| > 0
    requires Join(tail, sep) == rest
    requires whole == sep + rest
    ensures Join([first] + tail, sep) == first + whole
  {
    assert ([first] + tail)[1..] == tail;
    calc {
      Join([first] + tail, sep);
      (first + sep) + rest;
      first + (sep + rest);
    }
  }

  /** Joining one more part appends the separator and that part. */
  lemma {:induction false} JoinSnoc(parts: seq<string>, p: string, sep: string)
    requires |parts| > 0
    ensures Join(parts + [p], sep) == Join(parts, sep) + sep + p
  {
    if |parts| == 1 {
      assert (parts + [p])[1..] == [p];
    } else {
      assert (parts + [p])[1..] == parts[1..] + [p];
      JoinSnoc(parts[1..], p, sep);
    }
  }
}
