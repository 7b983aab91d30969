/** Facts about quotients of reals that the solver does not find on its own. */
module RealArithmetic {

  lemma Quotient(q: real, x: real, r: real)
    requires r > 0.0 && q * r == x
    ensures x / r == q
  {
    assert (x / r - q) * r == 0.0;
  }

  lemma DivideOrder(x: real, y: real, r: real)
    requires r > 0.0 && x <= y
    ensures x / r <= y / r
    ensures (x + r) / r == x / r + 1.0
  {
    Quotient(x / r + 1.0, x + r, r);
  }

  /** How many whole periods fit into a length of time. */
  function WholePeriods(length: real, period: real): int
    requires period > 0.0
  {
    (length / period).Floor
  }

  lemma PeriodsGrow(length: real, length': real, period: real)
    requires period > 0.0 && 0.0 <= length <= length'
    ensures 0 <= WholePeriods(length, period) <= WholePeriods(length', period)
    ensures length' >= length + period ==> WholePeriods(length', period) >= WholePeriods(length, period) + 1
  {
    DivideOrder(0.0, length, period);
    DivideOrder(length, length', period);
    if length' >= length + period {
      DivideOrder(length + period, length', period);
    }
  }
}
