/**
 * JavaScript sparse arrays, as the scene uses them for entities and components:
 * a sequence whose unset positions hold an explicit `hole` value (null here), and
 * whose assignment past the end grows the array, leaving holes in between.
 */
module Sparse {

  /** The value read at index `i`; reading past the end gives the hole. */
  function Slot<T>(s: seq<T>, i: nat, hole: T): T
  {
    if i < |s| then s[i] else hole
  }

  /** `n` holes. */
  function Holes<T>(n: nat, hole: T): (r: seq<T>)
    ensures |r| == n
    ensures forall j :: 0 <= j < n ==> r[j] == hole
  {
    if n == 0 then [] else Holes(n - 1, hole) + [hole]
  }

  /** `s[i] = x` on a sparse array: overwrite in range, otherwise extend the array to length `i + 1`. */
  function Place<T>(s: seq<T>, i: nat, x: T, hole: T): (r: seq<T>)
    ensures |r| == if i < |s| then |s| else i + 1
    ensures forall j: nat :: Slot(r, j, hole) == if j == i then x else Slot(s, j, hole)
  {
    if i < |s| then s[i := x] else s + Holes(i - |s|, hole) + [x]
  }
}
