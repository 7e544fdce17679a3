/** How good the estimate of a quotient digit is that long division makes from leading digits. */
module Estimates {
  import opened Arithmetic

  /**
   * `d` is the quotient of leading digits, capped: `t` of them of the dividend `T` and `c` of them
   * of the divisor `D`, both scaled by `k`, which is `s` with two more digits, and cut off below `M`.
   */
  ghost predicate Leading(B: int, T: int, D: int, s: int, k: int, M: int, c: int, t: int, d: int) {
    && B >= 2 && s >= 1 && M > 0 && D > 0 && c > 0 && t >= 0 && k == (s * B) * B
    && c * M <= D * k < (c + 1) * M
    && t * M <= T * k < (t + 1) * M
    && M <= (2 * D) * s
    && 0 <= T < D * B
    && 0 <= d < B && d * c <= t && (d == B - 1 || (d + 1) * c > t)
  }

  lemma QuotientBounds(T: int, D: int, B: int)
    requires D > 0 && 0 <= T < D * B
    ensures 0 <= T / D < B && (T / D) * D <= T < (T / D) * D + D
  {
    var q := T / D;
    assert T == q * D + T % D;
    if q >= B { MulLe(B, q, D); }
    if q < 0 { MulLe(q, -1, D); }
  }

  /** q * c * M <= q * D * k <= T * k < (t + 1) * M */
  lemma NotBelowScaled(T: int, D: int, k: int, M: int, c: int, t: int, q: int)
    requires c * M <= D * k && T * k < (t + 1) * M && q * D <= T && M > 0 && k >= 0 && q >= 0
    ensures q * c <= t
  {
    MulLe(c * M, D * k, q);
    MulLe(q * D, T, k);
    Assoc(q, D, k);
    Assoc(q, c, M);
    Cancel(q * c, t + 1, M);
  }

  /** The estimate is never too small. */
  lemma NotBelow(B: int, T: int, D: int, s: int, k: int, M: int, c: int, t: int, d: int)
    requires Leading(B, T, D, s, k, M, c, t, d)
    ensures T / D <= d
  {
    var q := T / D;
    QuotientBounds(T, D, B);
    MulLe(0, s, B); MulLe(0, s * B, B);
    NotBelowScaled(T, D, k, M, c, t, q);
    if q > d { MulLe(d + 1, q, c); }
  }

  /** d * D * k < d * (c + 1) * M <= (t + d) * M <= T * k + d * M <= T * k + B * M */
  lemma ExcessScaled(B: int, T: int, D: int, k: int, M: int, c: int, t: int, d: int)
    requires D * k < (c + 1) * M && t * M <= T * k && d * c <= t && 0 <= d < B && M > 0
    ensures (d * D - T) * k < B * M
  {
    MulLe(D * k, (c + 1) * M, d);
    Distribute(c, 1, M);
    Distribute(c * M, M, d);
    Assoc(d, c, M);
    MulLe(d * c, t, M);
    MulLt(d, B, M);
    Assoc(d, D, k);
    Distribute(d * D, T, k);
  }

  /** What the estimate takes away exceeds the dividend by little, if at all. */
  lemma Excess(B: int, T: int, D: int, s: int, k: int, M: int, c: int, t: int, d: int)
    requires Leading(B, T, D, s, k, M, c, t, d)
    ensures (d * D - T) * (s * B) < M && (d * D - T) * B < 2 * D && d * D - T < D
  {
    ExcessScaled(B, T, D, k, M, c, t, d);
    ExcessUnscaled(B, D, s, k, M, d * D - T);
  }

  lemma ExcessUnscaled(B: int, D: int, s: int, k: int, M: int, e: int)
    requires B >= 2 && s >= 1 && k == (s * B) * B && D > 0
    requires e * k < B * M && M <= (2 * D) * s
    ensures e * (s * B) < M && e * B < 2 * D && e < D
  {
    Assoc(e, s * B, B);
    Cancel(e * (s * B), M, B);
    Swap(e, s, B);
    Cancel(e * B, 2 * D, s);
    if e >= D {
      MulLe(D, e, B);
      MulLe(2, B, D);
    }
  }

  /** The estimate is the quotient digit or one more. */
  lemma AtMostOneAbove(B: int, T: int, D: int, s: int, k: int, M: int, c: int, t: int, d: int)
    requires Leading(B, T, D, s, k, M, c, t, d)
    ensures d == T / D || d == T / D + 1
  {
    NotBelow(B, T, D, s, k, M, c, t, d);
    Excess(B, T, D, s, k, M, c, t, d);
    QuotientBounds(T, D, B);
    hide Leading;
    var q := T / D;
    if d >= q + 2 {
      MulLe(q + 2, d, D);
      Distribute(q, 2, D);
      assert false;
    }
  }

  /** If nothing of the divisor is cut off, the estimate is the quotient digit. */
  lemma ExactDivisor(B: int, T: int, D: int, s: int, k: int, M: int, c: int, t: int, d: int)
    requires Leading(B, T, D, s, k, M, c, t, d) && c * M == D * k
    ensures d == T / D
  {
    AtMostOneAbove(B, T, D, s, k, M, c, t, d);
    QuotientBounds(T, D, B);
    MulLt(0, s, B); MulLt(0, s * B, B);
    NotAbove(T, D, k, M, c, t, d);
    hide Leading;
    var q := T / D;
    if d == q + 1 {
      Distribute(q, 1, D);
      assert false;
    }
  }

  /** d * D * k == d * c * M <= t * M <= T * k */
  lemma NotAbove(T: int, D: int, k: int, M: int, c: int, t: int, d: int)
    requires c * M == D * k && t * M <= T * k && d * c <= t && M > 0 && k > 0
    ensures d * D <= T
  {
    MulLe(d * c, t, M);
    Assoc(d, c, M);
    Assoc(d, D, k);
    if d * D > T { MulLt(T, d * D, k); }
  }
}
