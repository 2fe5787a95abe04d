/**
 * `split`, a stable partition of an array by a predicate, and `toHex`/`fromHex`,
 * conversions between numbers and base-16 text (`Number.prototype.toString(16)` and
 * `parseInt(s, 16)`), on integers.
 */
module Utilities {

  /** The items whose `p` is `want`, in their original order. */
  function Keep<T>(items: seq<T>, p: T -> bool, want: bool): (r: seq<T>)
    ensures |r| <= |items|
    ensures forall i :: 0 <= i < |r| ==> p(r[i]) == want
  {
    if |items| == 0 then []
    else
      var n := |items| - 1;
      Keep(items[..n], p, want) + if p(items[n]) == want then [items[n]] else []
  }

  /**
   * `split(isKind, items)`: one pass pushing each item to the left when `isKind`
   * holds and to the right otherwise.
   */
  method Split<T>(isKind: T -> bool, items: seq<T>) returns (lft: seq<T>, rgt: seq<T>)
    ensures lft == Keep(items, isKind, true)
    ensures rgt == Keep(items, isKind, false)
  {
    lft, rgt := [], [];
    var i := 0;
    while i < |items|
      invariant 0 <= i <= |items|
      invariant lft == Keep(items[..i], isKind, true)
      invariant rgt == Keep(items[..i], isKind, false)
    {
      assert items[..i + 1][..i] == items[..i];
      if isKind(items[i]) {
        lft := lft + [items[i]];
      } else {
        rgt := rgt + [items[i]];
      }
      i := i + 1;
    }
    assert items[..i] == items;
  }

  /** An item is on a side exactly when it is an input item with that answer of the predicate. */
  lemma {:induction false} KeepMembers<T>(items: seq<T>, p: T -> bool, want: bool, x: T)
    ensures x in Keep(items, p, want) <==> x in items && p(x) == want
  {
    if |items| > 0 {
      var n := |items| - 1;
      KeepMembers(items[..n], p, want, x);
      assert items == items[..n] + [items[n]];
    }
  }

  /** Between them the two sides hold as many items as the input. */
  lemma {:induction false} KeepLengths<T>(items: seq<T>, p: T -> bool)
    ensures |Keep(items, p, true)| + |Keep(items, p, false)| == |items|
  {
    if |items| > 0 {
      KeepLengths(items[..|items| - 1], p);
    }
  }

  /** The last item goes to exactly one side. */
  lemma KeepLast<T>(items: seq<T>, p: T -> bool)
    requires |items| > 0
    ensures var n := |items| - 1;
      Keep(items, p, true) == Keep(items[..n], p, true) + (if p(items[n]) then [items[n]] else [])
      && Keep(items, p, false) == Keep(items[..n], p, false) + (if p(items[n]) then [] else [items[n]])
  {
  }

  /** Sending one more item to either side of a split keeps the sides' union equal to the input. */
  lemma MultisetSnoc<T>(l: seq<T>, r: seq<T>, init: seq<T>, x: T, left: bool)
    requires multiset(l) + multiset(r) == multiset(init)
    ensures multiset(l + (if left then [x] else [])) + multiset(r + (if left then [] else [x]))
         == multiset(init + [x])
  {
    assert multiset(init + [x]) == multiset(init) + multiset{x};
    if left {
      assert multiset(l + [x]) == multiset(l) + multiset{x};
      assert r + [] == r;
    } else {
      assert multiset(r + [x]) == multiset(r) + multiset{x};
      assert l + [] == l;
    }
  }

  /** One step of `KeepSides`, given it for all but the last item. */
  lemma KeepStep<T>(items: seq<T>, p: T -> bool)
    requires |items| > 0
    requires var init := items[..|items| - 1];
      multiset(Keep(init, p, true)) + multiset(Keep(init, p, false)) == multiset(init)
    ensures multiset(Keep(items, p, true)) + multiset(Keep(items, p, false)) == multiset(items)
  {
    var n := |items| - 1;
    var init, x := items[..n], items[n];
    KeepLast(items, p);
    MultisetSnoc(Keep(init, p, true), Keep(init, p, false), init, x, p(x));
    assert items == init + [x];
  }

  /** The two sides together hold every input item exactly as often as the input does. */
  lemma {:induction false} KeepSides<T>(items: seq<T>, p: T -> bool)
    ensures |Keep(items, p, true)| + |Keep(items, p, false)| == |items|
    ensures multiset(Keep(items, p, true)) + multiset(Keep(items, p, false)) == multiset(items)
  {
    KeepLengths(items, p);
    if |items| > 0 {
      KeepSides(items[..|items| - 1], p);
      KeepStep(items, p);
    }
  }

  /** Each side keeps the input order: splitting a concatenation concatenates the sides. */
  lemma {:induction false} KeepConcat<T>(a: seq<T>, b: seq<T>, p: T -> bool, want: bool)
    ensures Keep(a + b, p, want) == Keep(a, p, want) + Keep(b, p, want)
  {
    if |b| > 0 {
      var n := |b| - 1;
      KeepConcat(a, b[..n], p, want);
      assert (a + b)[..|a + b| - 1] == a + b[..n];
    } else {
      assert a + b == a;
    }
  }

  /** Hexadecimal digits in either case, as `parseInt` accepts them. */
  predicate IsHexDigit(c: char)
  {
    ('0' <= c <= '9') || ('a' <= c <= 'f') || ('A' <= c <= 'F')
  }

  predicate AllHex(s: string)
  {
    forall i :: 0 <= i < |s| ==> IsHexDigit(s[i])
  }

  function DigitValue(c: char): (v: nat)
    requires IsHexDigit(c)
    ensures v < 16
  {
    if '0' <= c <= '9' then c as int - '0' as int
    else if 'a' <= c <= 'f' then c as int - 'a' as int + 10
    else c as int - 'A' as int + 10
  }

  /** The lower-case digit for `d`. */
  function DigitChar(d: nat): (c: char)
    requires d < 16
    ensures IsHexDigit(c) && DigitValue(c) == d
    ensures !('A' <= c <= 'F')
  {
    if d < 10 then (d + '0' as int) as char else (d - 10 + 'a' as int) as char
  }

  /** `n.toString(16)` for a non-negative integer: lower-case digits, no leading zero. */
  function Digits(n: nat): (r: string)
    ensures |r| >= 1 && AllHex(r)
    ensures forall i :: 0 <= i < |r| ==> !('A' <= r[i] <= 'F')
    ensures |r| > 1 ==> r[0] != '0'
  {
    if n < 16 then [DigitChar(n)] else Digits(n / 16) + [DigitChar(n % 16)]
  }

  /** The number a string of hex digits denotes. */
  function ValueOf(s: string): nat
    requires AllHex(s)
  {
    if |s| == 0 then 0 else ValueOf(s[..|s| - 1]) * 16 + DigitValue(s[|s| - 1])
  }

  lemma {:induction false} ValueOfDigits(n: nat)
    ensures ValueOf(Digits(n)) == n
  {
    if n >= 16 {
      ValueOfDigits(n / 16);
      var d := Digits(n / 16) + [DigitChar(n % 16)];
      assert d[..|d| - 1] == Digits(n / 16);
    }
  }

  /** `toHex(n)`: "0x", then the digits of `n`; a negative `n` gives "0x-" then the digits of `-n`. */
  function ToHex(n: int): (r: string)
    ensures |r| >= 3 && r[..2] == "0x"
    ensures n >= 0 ==> r[2..] == Digits(n) && AllHex(r[2..])
    ensures n < 0 ==> r[2] == '-' && r[3..] == Digits(-n)
  {
    "0x" + if n < 0 then "-" + Digits(-n) else Digits(n)
  }

  /** The JavaScript number `parseInt` returns: an integer here, or NaN. */
  datatype Number = Num(value: int) | NaN

  /** The white space and line terminators `parseInt` skips before the number. */
  predicate IsJsSpace(c: char)
  {
    var k := c as int;
    || (0x09 <= k <= 0x0D) || k == 0x20 || k == 0xA0 || k == 0x1680
    || (0x2000 <= k <= 0x200A) || k == 0x2028 || k == 0x2029 || k == 0x202F
    || k == 0x205F || k == 0x3000 || k == 0xFEFF
  }

  /** `s` without its leading white space. */
  function TrimStart(s: string): (r: string)
    ensures |r| <= |s| && r == s[|s| - |r|..]
    ensures forall i :: 0 <= i < |s| - |r| ==> IsJsSpace(s[i])
    ensures |r| > 0 ==> !IsJsSpace(r[0])
  {
    if |s| > 0 && IsJsSpace(s[0]) then TrimStart(s[1..]) else s
  }

  /** The longest prefix made of hex digits. */
  function HexPrefix(s: string): (r: string)
    ensures AllHex(r) && r <= s
    ensures |r| < |s| ==> !IsHexDigit(s[|r|])
    ensures AllHex(s) ==> r == s
  {
    if |s| > 0 && IsHexDigit(s[0]) then [s[0]] + HexPrefix(s[1..]) else []
  }

  /**
   * `fromHex(s)`, i.e. `parseInt(s, 16)`: skip leading white space, read an optional
   * sign, drop an optional "0x"/"0X", then read the longest run of hex digits; no
   * digit at all gives NaN.
   */
  function FromHex(s: string): (r: Number)
    ensures |s| == 0 ==> r == NaN
    ensures r.Num? && r.value < 0 ==> |TrimStart(s)| > 0 && TrimStart(s)[0] == '-'
  {
    var t := TrimStart(s);
    var digits := HexPrefix(DropRadixPrefix(DropSign(t)));
    var magnitude: int := ValueOf(digits);
    if |digits| == 0 then NaN
    else Num(if |t| > 0 && t[0] == '-' then -magnitude else magnitude)
  }

  /** Drops a leading '-' or '+'. */
  function DropSign(t: string): (r: string)
    ensures |r| <= |t| && r == t[|t| - |r|..]
    ensures |r| < |t| <==> |t| > 0 && (t[0] == '-' || t[0] == '+')
    ensures |t| - 1 <= |r|
  {
    if |t| > 0 && (t[0] == '-' || t[0] == '+') then t[1..] else t
  }

  /** Drops a leading "0x" or "0X". */
  function DropRadixPrefix(u: string): (r: string)
    ensures |r| <= |u| && r == u[|u| - |r|..]
    ensures |r| < |u| <==> |u| >= 2 && u[0] == '0' && (u[1] == 'x' || u[1] == 'X')
    ensures |r| == |u| || |r| == |u| - 2
  {
    if |u| >= 2 && u[0] == '0' && (u[1] == 'x' || u[1] == 'X') then u[2..] else u
  }

  /** Every stage before the digit scan leaves a run of hex digits as it is. */
  lemma {:induction false} StagesKeepDigits(d: string)
    requires |d| > 0 && AllHex(d)
    ensures TrimStart(d) == d && DropSign(d) == d && DropRadixPrefix(d) == d && HexPrefix(d) == d
  {
    assert IsHexDigit(d[0]);
    assert |d| >= 2 ==> IsHexDigit(d[1]);
  }

  /** On "0x" followed by hex digits, the stages before the scan leave just the digits. */
  lemma {:induction false} StagesDropPrefix(d: string)
    requires |d| > 0 && AllHex(d)
    ensures var p := "0x" + d; TrimStart(p) == p && DropSign(p) == p && DropRadixPrefix(p) == d
  {
    var p := "0x" + d;
    assert p[0] == '0' && p[1] == 'x' && p[2..] == d;
  }

  /** A run of hex digits, with or without the "0x" prefix, parses to the number it denotes. */
  lemma FromHexDigits(d: string)
    requires |d| > 0 && AllHex(d)
    ensures FromHex(d) == Num(ValueOf(d))
    ensures FromHex("0x" + d) == Num(ValueOf(d))
  {
    StagesKeepDigits(d);
    StagesDropPrefix(d);
  }

  /** `fromHex(toHex(n)) == n` for every non-negative integer. */
  lemma HexRoundTrip(n: nat)
    ensures FromHex(ToHex(n)) == Num(n)
  {
    FromHexDigits(Digits(n));
    ValueOfDigits(n);
  }

  /** For a negative integer the sign lands after "0x", where `parseInt` finds no digit. */
  lemma NegativeHexIsNaN(n: int)
    requires n < 0
    ensures FromHex(ToHex(n)) == NaN
  {
    var s := ToHex(n);
    assert s[0] == '0' && s[1] == 'x' && s[2] == '-';
    assert TrimStart(s) == s;
    assert DropSign(s) == s;
    assert DropRadixPrefix(s) == s[2..];
    assert HexPrefix(s[2..]) == [];
  }

  /** 32 is two sixteens and no units. */
  lemma DigitsOf32()
    ensures Digits(32) == "20"
  {
    assert 32 / 16 == 2 && 32 % 16 == 0;
    var two, zero := DigitChar(2), DigitChar(0);
    assert two == '2' && zero == '0';
    assert Digits(2) == [two];
    assert Digits(32) == Digits(2) + [zero];
  }

  /** The worked value of `toHex`: `toHex(32)` is "0x20". */
  lemma ToHexExample()
    ensures ToHex(32) == "0x20"
  {
    DigitsOf32();
    assert ToHex(32) == "0x" + Digits(32);
  }

  /** The worked value of `fromHex`: `fromHex("0x20")` is 32. */
  lemma FromHexExample()
    ensures FromHex("0x20") == Num(32)
  {
    var s := ToHex(32);
    ToHexExample();
    HexRoundTrip(32);
    assert FromHex(s) == Num(32);
  }
}
