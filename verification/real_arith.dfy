/** Facts of ordered-field arithmetic used by the normalisation lemmas,
    kept apart so that the solver proves them without the frame definitions in view. */
module RealArith {

  /** A length no larger than a positive divisor shrinks to at most 1. */
  lemma DivAtMostOne(h: real, s: real)
    requires 0.0 <= h <= s && s > 0.0
    ensures h / s <= 1.0
  {
  }

  lemma DivSelf(s: real)
    requires s > 0.0
    ensures s / s == 1.0
  {
  }

  /** Progress i / n of a loop running i = 1 .. n lies in (0, 1]. */
  lemma FractionInUnit(i: int, n: int)
    requires 1 <= i <= n
    ensures 0.0 < (i as real) / (n as real) <= 1.0
  {
    DivAtMostOne(i as real, n as real);
  }
}
