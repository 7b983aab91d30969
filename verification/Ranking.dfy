/**
 The arithmetic of ranking: spans, normalisation and rounding to three decimals, in exact reals.
 */
module Ranking {

  import opened RealArithmetic

  function MinOf(xs: seq<int>): (m: int)
    requires xs != []
    ensures m in xs && forall i :: 0 <= i < |xs| ==> m <= xs[i]
  {
    if |xs| == 1 then xs[0]
    else
      var rest := MinOf(xs[1..]);
      assert forall i :: 1 <= i < |xs| ==> xs[i] == xs[1..][i - 1];
      if xs[0] < rest then xs[0] else rest
  }

  function MaxOf(xs: seq<int>): (m: int)
    requires xs != []
    ensures m in xs && forall i :: 0 <= i < |xs| ==> xs[i] <= m
  {
    if |xs| == 1 then xs[0]
    else
      var rest := MaxOf(xs[1..]);
      assert forall i :: 1 <= i < |xs| ==> xs[i] == xs[1..][i - 1];
      if xs[0] > rest then xs[0] else rest
  }

  /** `part / span if span else 0.0` */
  function Share(part: int, span: int): real {
    if span != 0 then part as real / span as real else 0.0
  }

  /** Where a value lies between two bounds, as a fraction; zero when the bounds coincide. */
  function Norm(x: int, lo: int, hi: int): real {
    Share(x - lo, hi - lo)
  }

  lemma NormIsAFraction(x: int, lo: int, hi: int)
    requires lo <= x <= hi
    ensures 0.0 <= Norm(x, lo, hi) <= 1.0
  {
    if lo < hi {
      DivideOrder(0.0, (x - lo) as real, (hi - lo) as real);
      DivideOrder((x - lo) as real, (hi - lo) as real, (hi - lo) as real);
      Quotient(1.0, (hi - lo) as real, (hi - lo) as real);
    }
  }

  lemma NormIsMonotone(x: int, y: int, lo: int, hi: int)
    requires lo <= hi && x <= y
    ensures Norm(x, lo, hi) <= Norm(y, lo, hi)
  {
    if lo < hi {
      DivideOrder((x - lo) as real, (y - lo) as real, (hi - lo) as real);
    }
  }

  /** What part of a span a distance is. */
  ghost function Part(distance: int, span: int): real
    requires span > 0
  {
    distance as real / span as real
  }

  /** The lower bound is at zero, and distances are to scale. */
  lemma NormDifference(x: int, y: int, lo: int, hi: int)
    ensures Norm(lo, lo, hi) == 0.0
    ensures lo < hi ==> Norm(y, lo, hi) - Norm(x, lo, hi) == Part(y - x, hi - lo)
  {
    if lo < hi {
      var span := (hi - lo) as real;
      Quotient(0.0, (lo - lo) as real, span);
      DifferenceOfQuotients((y - lo) as real, (x - lo) as real, span);
    }
  }

  lemma DifferenceOfQuotients(a: real, b: real, span: real)
    requires span > 0.0
    ensures a / span - b / span == (a - b) / span
  {
    assert (a / span - b / span) * span == (a / span) * span - (b / span) * span;
    Quotient(a / span - b / span, a - b, span);
  }

  lemma SameRatio(k: real, a: real, b: real, a': real, b': real)
    requires k > 0.0 && b > 0.0 && a' == k * a && b' == k * b
    ensures b' > 0.0 && a' / b' == a / b
  {
    assert a == (a / b) * b;
    assert (a / b) * b' == a' by {
      assert k * ((a / b) * b) == (a / b) * (k * b);
    }
    Quotient(a / b, a', b');
  }

  /** `y` is `x` in another unit and from another origin. */
  predicate Moved(k: real, c: real, x: int, y: int) {
    y as real == k * x as real + c
  }

  /** Changing the unit and the origin of all values does not move anything. */
  lemma NormIsAffineInvariant(k: real, c: real, x: int, lo: int, hi: int, x': int, lo': int, hi': int)
    requires k > 0.0 && lo <= hi
    requires Moved(k, c, x, x') && Moved(k, c, lo, lo') && Moved(k, c, hi, hi')
    ensures Norm(x', lo', hi') == Norm(x, lo, hi)
  {
    assert (hi' - lo') as real == k * (hi - lo) as real;
    assert (x' - lo') as real == k * (x - lo) as real;
    if lo < hi {
      SameRatio(k, (x - lo) as real, (hi - lo) as real, (x' - lo') as real, (hi' - lo') as real);
    }
  }

  predicate Affine(k: real, c: real, xs: seq<int>, ys: seq<int>) {
    |xs| == |ys| && forall i :: 0 <= i < |xs| ==> Moved(k, c, xs[i], ys[i])
  }

  lemma MovedOrder(k: real, c: real, x: int, x': int, y: int, y': int)
    requires k > 0.0 && Moved(k, c, x, x') && Moved(k, c, y, y') && x <= y
    ensures x' <= y'
  {
    assert k * (y - x) as real >= 0.0;
  }

  lemma AffineBounds(k: real, c: real, xs: seq<int>, ys: seq<int>)
    requires k > 0.0 && Affine(k, c, xs, ys) && xs != []
    ensures Moved(k, c, MinOf(xs), MinOf(ys)) && Moved(k, c, MaxOf(xs), MaxOf(ys))
  {
    hide Moved, MinOf, MaxOf;
    var minX, minY, maxX, maxY := MinOf(xs), MinOf(ys), MaxOf(xs), MaxOf(ys);
    var i :| 0 <= i < |xs| && xs[i] == minX;
    var j :| 0 <= j < |ys| && ys[j] == minY;
    MovedOrder(k, c, xs[i], ys[i], xs[j], ys[j]);
    var m :| 0 <= m < |xs| && xs[m] == maxX;
    var n :| 0 <= n < |ys| && ys[n] == maxY;
    MovedOrder(k, c, xs[n], ys[n], xs[m], ys[m]);
  }

  /** So the position of every element between the extremes of its list is the same in both lists. */
  lemma AffineListsHaveEqualNorms(k: real, c: real, xs: seq<int>, ys: seq<int>, n: nat)
    requires k > 0.0 && Affine(k, c, xs, ys) && n < |xs|
    ensures Norm(ys[n], MinOf(ys), MaxOf(ys)) == Norm(xs[n], MinOf(xs), MaxOf(xs))
  {
    hide Moved, Norm;
    AffineBounds(k, c, xs, ys);
    NormIsAffineInvariant(k, c, xs[n], MinOf(xs), MaxOf(xs), ys[n], MinOf(ys), MaxOf(ys));
  }

  /** `round(x, 3)`: to the nearest thousandth, a tie going to the even one. */
  function Round3(x: real): real {
    RoundHalfEven(1000.0 * x) as real / 1000.0
  }

  function RoundHalfEven(y: real): int {
    var f := y.Floor;
    var rest := y - f as real;
    if rest < 0.5 then f
    else if rest > 0.5 then f + 1
    else if f % 2 == 0 then f
    else f + 1
  }

  /** A whole number of thousandths, the nearest one, and of two equally near ones the even one. */
  lemma RoundingIsNearest(x: real)
    ensures -0.0005 <= Round3(x) - x <= 0.0005
    ensures
      var thousandths := 1000.0 * Round3(x);
      && thousandths.Floor as real == thousandths
      && (Round3(x) - x == 0.0005 || x - Round3(x) == 0.0005 ==> thousandths.Floor % 2 == 0)
  {
    HalfEvenIsNearest(1000.0 * x);
    var n := RoundHalfEven(1000.0 * x);
    hide RoundHalfEven;
    assert 1000.0 * Round3(x) == n as real && (n as real).Floor == n;
  }

  lemma HalfEvenIsNearest(y: real)
    ensures
      var n := RoundHalfEven(y);
      -0.5 <= n as real - y <= 0.5 && (n as real - y == 0.5 || y - n as real == 0.5 ==> n % 2 == 0)
  {
  }

  lemma HalfEvenIsMonotone(x: real, y: real)
    requires x <= y
    ensures RoundHalfEven(x) <= RoundHalfEven(y)
  {
    assert x.Floor <= RoundHalfEven(x) <= x.Floor + 1 && y.Floor <= RoundHalfEven(y);
    assert x.Floor <= y.Floor;
  }

  lemma RoundingIsMonotone(x: real, y: real)
    requires x <= y
    ensures Round3(x) <= Round3(y)
  {
    HalfEvenIsMonotone(1000.0 * x, 1000.0 * y);
  }

  lemma RoundingKeepsFractions(x: real)
    requires 0.0 <= x <= 1.0
    ensures 0.0 <= Round3(x) <= 1.0
  {
    assert RoundHalfEven(0.0) == 0 && RoundHalfEven(1000.0) == 1000;
    RoundingIsMonotone(0.0, x);
    RoundingIsMonotone(x, 1.0);
  }
}
