/** Runs of equal elements, and timestamps counted in an interval: shared by the worst-case runs and
    the two rate limiters. */
module Sequences {

  function Repeat<T>(x: T, n: nat): (s: seq<T>)
    ensures |s| == n && forall i :: 0 <= i < n ==> s[i] == x
  {
    seq(n, _ => x)
  }

  /** How many timestamps fall in `(a, b]`. */
  function CountIn(hits: seq<real>, a: real, b: real): nat {
    if hits == [] then 0
    else
      var last := hits[|hits| - 1];
      CountIn(hits[..|hits| - 1], a, b) + if a < last <= b then 1 else 0
  }
}
