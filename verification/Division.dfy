/** Long division: what it does at each step, and when that is right. */
module Division {
  import opened Options
  import opened Arithmetic
  import opened Digits
  import opened Estimates
  import opened LeadingDigits

  /** The least power of two that brings a digit to at least half of the base. */
  function Scale(d: nat): (p: nat)
    requires 0 < d < BASE
    ensures p >= 1 && BASE <= 2 * (d * p) && d * p < BASE
    decreases BASE - d
  {
    if 2 * d >= BASE then 1
    else
      var p := Scale(2 * d);
      Double(d, p);
      2 * p
  }

  lemma Double(d: int, p: int)
    ensures d * (2 * p) == (2 * d) * p
  {
  }

  /** A divisor `b` of `n` digits, with its shift. */
  datatype Divisor = Divisor(b: nat, n: nat, p: nat)

  ghost predicate IsDivisor(v: Divisor) {
    && v.n >= 1 && W(v.n - 1) <= v.b < W(v.n)
    && v.p >= 1
    && W(v.n) <= (2 * v.b) * v.p
    && v.b * v.p < W(v.n)
  }

  /** The leading digits, from `e` on, of a number shifted by `p` and two more digits. */
  function Cut(x: nat, p: nat, e: nat): nat {
    x * ((p * BASE) * BASE) / W(e)
  }

  /** The leading two digits of the divisor. */
  function Head(v: Divisor): nat { Cut(v.b, v.p, v.n) }

  /** The largest digit whose product with `c` does not exceed `t`. */
  function Fitting(t: nat, c: nat): nat
    requires c > 0
  {
    Min(BASE - 1, t / c)
  }

  /** The quotient digit as estimated from three digits of the dividend and two of the divisor. */
  function Estimate(v: Divisor, T: nat, k: nat): nat
    requires Head(v) > 0
  {
    Fitting(Cut(T, v.p, k + v.n), Head(v))
  }

  /** The first guess, from two digits and one, is not zero. */
  predicate Guessed(v: Divisor, T: nat, k: nat) {
    Cut(T, v.p, k + v.n) / BASE >= Head(v) / BASE
  }

  /** What is subtracted for one at digit `k` of the quotient. */
  function At(v: Divisor, k: nat): (r: nat)
    requires v.b > 0
    ensures r > 0
  {
    MulLt(0, v.b, W(k));
    v.b * W(k)
  }

  /**
   * The step for digit `k` of the quotient, with remainder `T` so far kept in `len` digits: the new
   * number of digits, or none if a borrow is lost.  An estimate that is one too large is noticed, and
   * put right, only if its product has as many digits as the remainder from digit `k` on.
   */
  function Next(v: Divisor, T: nat, len: nat, k: nat): Option<nat>
    requires Head(v) > 0 && v.b > 0
  {
    var d, D := Estimate(v, T, k), At(v, k);
    if !Guessed(v, T, k) then Some(len)
    else if d == T / D then Some(NumDigits(T % D))
    else if NumDigits(d * v.b) + k == len then Some(if NumDigits(d * v.b) == v.n + 1 then NumDigits(T % D) else len)
    else None
  }

  /** No borrow is lost from digit `k` of the quotient down. */
  predicate NoneLost(v: Divisor, T: nat, len: nat, k: int)
    requires Head(v) > 0 && v.b > 0
    decreases k + 1
  {
    k < 0 || (Next(v, T, len, k).Some? && NoneLost(v, T % At(v, k), Next(v, T, len, k).value, k - 1))
  }

  /** What holds of the remainder in front of the step for digit `k`. */
  ghost predicate State(v: Divisor, T: nat, len: nat, k: int)
    requires v.b > 0
  {
    k >= -1 && T < At(v, k + 1) && (len == NumDigits(T) || (len == k + v.n + 1 && (k >= 0 ==> T >= At(v, k))))
  }

  // ----- the estimate -----

  lemma CutBounds(x: nat, p: nat, e: nat)
    ensures var t := Cut(x, p, e); t * W(e) <= x * ((p * BASE) * BASE) < (t + 1) * W(e)
  {
    var y, w := x * ((p * BASE) * BASE), W(e);
    var t := y / w;
    assert y == w * t + y % w;
    Commute(w, t);
    Distribute(t, 1, w);
  }

  lemma HeadBounds(v: Divisor)
    requires IsDivisor(v)
    ensures Head(v) > 0 && BASE <= 2 * (Head(v) / BASE) && Head(v) < BASE * BASE && v.b > 0
  {
    var w, c := W(v.n), Head(v);
    var k := (v.p * BASE) * BASE;
    CutBounds(v.b, v.p, v.n);
    assert v.b > 0;
    assert v.b * k == ((v.b * v.p) * BASE) * BASE by { Assoc3(v.b, v.p); }
    // upper bound
    MulLt(v.b * v.p, w, BASE * BASE);
    assert v.b * k == (v.b * v.p) * (BASE * BASE);
    Commute(w, BASE * BASE);
    Cancel(c, BASE * BASE, w);
    // lower bound
    assert (2 * v.b) * v.p == 2 * (v.b * v.p) by { Assoc1(v.b, v.p); }
    MulLe(w, 2 * (v.b * v.p), BASE * BASE);
    assert (BASE * BASE) * w <= 2 * (v.b * k);
    Distribute(c, 1, w);
    assert (BASE * BASE) * w < (2 * (c + 1)) * w;
    Cancel(BASE * BASE, 2 * (c + 1), w);
    HalfHead(c);
  }

  lemma Assoc1(b: int, p: int)
    ensures (2 * b) * p == 2 * (b * p)
  {
  }

  lemma Assoc3(b: int, p: int)
    ensures b * ((p * BASE) * BASE) == ((b * p) * BASE) * BASE == (b * p) * (BASE * BASE)
  {
  }

  lemma HalfHead(c: nat)
    requires BASE * BASE < 2 * (c + 1)
    ensures BASE <= 2 * (c / BASE)
  {
    assert c == BASE * (c / BASE) + c % BASE;
  }

  /** The estimate is what Estimates is about. */
  lemma EstimateIsLeading(v: Divisor, T: nat, k: nat)
    requires IsDivisor(v) && v.b > 0 && T < At(v, k + 1) && Head(v) > 0
    ensures
      Leading(BASE, T, At(v, k), v.p, (v.p * BASE) * BASE, W(k + v.n), Head(v), Cut(T, v.p, k + v.n), Estimate(v, T, k))
  {
    var c, t, d, K := Head(v), Cut(T, v.p, k + v.n), Estimate(v, T, k), W(k);
    var D, M, s := At(v, k), W(k + v.n), (v.p * BASE) * BASE;
    PowAdd(BASE, k, v.n);
    Commute(K, W(v.n));
    CutBounds(v.b, v.p, v.n);
    CutBounds(T, v.p, k + v.n);
    // the divisor's bounds, times K
    MulLe(c * W(v.n), v.b * s, K);
    MulLt(v.b * s, (c + 1) * W(v.n), K);
    Assoc(c, W(v.n), K); Assoc(c + 1, W(v.n), K);
    Swap(v.b, s, K);
    MulLe(W(v.n), (2 * v.b) * v.p, K);
    Swap(2 * v.b, v.p, K);
    Assoc(2, v.b, K);
    Assoc(v.b, K, BASE);
    WNext(k);
    QuotientMax(t, c);
  }

  lemma QuotientMax(t: nat, c: nat)
    requires c > 0
    ensures var d := Min(BASE - 1, t / c); d * c <= t && (d == BASE - 1 || (d + 1) * c > t)
  {
    var q := t / c;
    assert t == c * q + t % c;
    Distribute(q, 1, c);
    MulLe(Min(BASE - 1, q), q, c);
  }

  /** Facts about one step: the estimate is the digit or one more, and then its product is only a little too large. */
  lemma StepFacts(v: Divisor, T: nat, k: nat)
    requires IsDivisor(v) && v.b > 0 && T < At(v, k + 1)
    ensures Head(v) > 0
    ensures
      var d, D := Estimate(v, T, k), At(v, k);
      && (d == T / D || d == T / D + 1) && d < BASE
      && (d * D - T) * BASE < 2 * D
      && (d * D - T) * (v.p * BASE) < W(k + v.n)
      && T / D < BASE && (T / D) * D <= T
  {
    HeadBounds(v);
    EstimateIsLeading(v, T, k);
    var d, D := Estimate(v, T, k), At(v, k);
    AtMostOneAbove(BASE, T, D, v.p, (v.p * BASE) * BASE, W(k + v.n), Head(v), Cut(T, v.p, k + v.n), d);
    Excess(BASE, T, D, v.p, (v.p * BASE) * BASE, W(k + v.n), Head(v), Cut(T, v.p, k + v.n), d);
    QuotientBounds(T, D, BASE);
  }

  /** Without a first guess the digit is zero. */
  lemma NotGuessed(v: Divisor, T: nat, k: nat)
    requires IsDivisor(v) && v.b > 0 && T < At(v, k + 1) && !Guessed(v, T, k)
    ensures T / At(v, k) == 0 && T < At(v, k)
  {
    HeadBounds(v);
    EstimateIsLeading(v, T, k);
    var t, c := Cut(T, v.p, k + v.n), Head(v);
    NotBelow(BASE, T, At(v, k), v.p, (v.p * BASE) * BASE, W(k + v.n), c, t, Estimate(v, T, k));
    LessLeading(t, c);
    QuotientBounds(T, At(v, k), BASE);
  }

  lemma LessLeading(t: nat, c: nat)
    requires c > 0 && t / BASE < c / BASE
    ensures t / c == 0
  {
    assert t == BASE * (t / BASE) + t % BASE && c == BASE * (c / BASE) + c % BASE;
    Divided(0, t, c);
  }

  // ----- digits of the remainder and of the divisor -----

  /** Quotient and remainder at digit `k`, seen from there. */
  lemma WindowQuotient(T: nat, low: nat, w0: nat, b: nat, K: nat)
    requires T == low + K * w0 && low < K && b > 0
    ensures b * K > 0 && T / (b * K) == w0 / b && T % (b * K) == low + K * (w0 % b)
  {
    MulLt(0, b, K);
    var q, r := w0 / b, w0 % b;
    assert w0 == b * q + r;
    Distribute(b * q, r, K);
    Swap(K, b, q);
    Swap(b, q, K);
    MulLe(r + 1, b, K);
    Distribute(r, 1, K);
    Divided(q, low + K * r, b * K);
  }

  /** The leading digits of the dividend, as computed from its top four digits. */
  lemma CutDigits(s: seq<digit>, p: nat, h: nat, x: nat)
    requires |s| >= 2 && Shift(p, h)
    requires
      var z, i := Padded(s), |s| + 1;
      x == Four(z[i], z[i - 1], z[i - 2], z[i - 3])
    ensures Cut(Val(s), p, |s| - 1) == Shifted(x, p)
  {
    var z, i := Padded(s), |s| + 1;
    hide Val, W, Padded;
    TopFour(z, i);
    PaddedVal(s);
    CutTop(Val(s), x, Val(z[..i - 3]), |s| - 1, p, h);
  }

  lemma CutTop(y: nat, x: nat, low: nat, e: nat, p: nat, h: nat)
    requires e >= 1 && Shift(p, h) && BASE * (BASE * y) == x * W(e - 1) + low && low < W(e - 1)
    ensures Cut(y, p, e) == Shifted(x, p)
  {
    var m := W(e - 1);
    CutOff(BASE * (BASE * y), x, low, m, p, h);
    WNext(e - 1);
    Commute(m, BASE);
    CutIs(y, p, e, x * p / BASE);
  }

  lemma CutIs(x: nat, p: nat, e: nat, t: nat)
    requires t * W(e) <= (BASE * (BASE * x)) * p < (t + 1) * W(e)
    ensures Cut(x, p, e) == t
  {
    var y, w := x * ((p * BASE) * BASE), W(e);
    assert y == (BASE * (BASE * x)) * p by { Assoc3(x, p); ShiftedTwice(x, p); }
    Commute(t, w);
    Distribute(t, 1, w);
    Divided(t, y - w * t, w);
  }

  lemma ShiftedTwice(x: int, p: int)
    ensures (BASE * (BASE * x)) * p == ((x * p) * BASE) * BASE
  {
  }

  /** The leading digits of the divisor, as computed from its top three digits. */
  lemma HeadDigits(s: seq<digit>, p: nat, h: nat, x: nat)
    requires |s| >= 1 && Shift(p, h)
    requires
      var z, i := Padded(s), |s| + 1;
      x == (z[i] * BASE + z[i - 1]) * BASE + z[i - 2]
    ensures Cut(Val(s), p, |s|) == Shifted(x, p)
  {
    var z, i := Padded(s), |s| + 1;
    hide Val, W, Padded;
    TopThree(z, i);
    PaddedVal(s);
    CutTop(Val(s), x, Val(z[..i - 2]), |s|, p, h);
  }

  /** The dividend's leading digits are not too large for the divisor's. */
  lemma LeadingBound(v: Divisor, T: nat, k: nat)
    requires IsDivisor(v) && v.b > 0 && T < At(v, k + 1)
    ensures Cut(T, v.p, k + v.n) < (Head(v) + 1) * BASE
  {
    HeadBounds(v);
    EstimateIsLeading(v, T, k);
    var t, c, D, M, s := Cut(T, v.p, k + v.n), Head(v), At(v, k), W(k + v.n), (v.p * BASE) * BASE;
    // t * M <= T * s < D * BASE * s < (c + 1) * M * BASE
    MulLt(T, D * BASE, s);
    Swap(D, BASE, s);
    MulLt(D * s, (c + 1) * M, BASE);
    Swap(c + 1, M, BASE);
    Cancel(t, (c + 1) * BASE, M);
  }

  // ----- the remainder after a step -----

  lemma Below(v: Divisor, R: nat, k: nat)
    requires IsDivisor(v) && v.b > 0 && R < At(v, k)
    ensures NumDigits(R) <= k + v.n
  {
    PowAdd(BASE, k, v.n);
    MulLt(v.b, W(v.n), W(k));
    Commute(W(k), W(v.n));
    DigitsBelow(R, k + v.n);
  }

  /** The digit is the largest whose product with the leading digits of the divisor fits those of the remainder. */
  ghost predicate LargestFit(v: Divisor, T: nat, k: nat, d: nat) {
    && d < BASE && d * Head(v) <= Cut(T, v.p, k + v.n)
    && forall e: nat :: e < BASE && e * Head(v) <= Cut(T, v.p, k + v.n) ==> e <= d
  }

  lemma LargestIsEstimate(v: Divisor, T: nat, k: nat, d: nat)
    requires Head(v) > 0 && LargestFit(v, T, k, d)
    ensures d == Estimate(v, T, k)
  {
    var t, c := Cut(T, v.p, k + v.n), Head(v);
    var e := Estimate(v, T, k);
    hide Cut, Head;
    MulLe(e, t / c, c);
    assert t == c * (t / c) + t % c;
    Commute(c, t / c);
    assert e * c <= t && e <= d;
    if d > t / c { MulLe(t / c + 1, d, c); Distribute(t / c, 1, c); }
  }

  /**
   * At every digit of the quotient: a borrow is lost exactly if the product with the largest fitting digit is larger
   * than the remainder and has another length; the digit is then one too large.
   */
  lemma LosesExactly(v: Divisor, T: nat, len: nat, k: nat, d: nat)
    requires IsDivisor(v) && v.b > 0 && Head(v) > 0 && State(v, T, len, k) && LargestFit(v, T, k, d)
    ensures Next(v, T, len, k).None? <==> d * At(v, k) > T && NumDigits(d * v.b) + k != len
    ensures d * At(v, k) > T ==> d == T / At(v, k) + 1
  {
    LargestIsEstimate(v, T, k, d);
    StepFacts(v, T, k);
    if !Guessed(v, T, k) {
      NotGuessed(v, T, k);
      NoFirstGuess(v, T, k, d);
    }
    var D := At(v, k);
    hide At, Cut, Estimate, Guessed, Head, IsDivisor, LargestFit, NumDigits, State, W;
    AboveTrue(T, D, d);
  }

  lemma NoFirstGuess(v: Divisor, T: nat, k: nat, d: nat)
    requires Head(v) > 0 && !Guessed(v, T, k) && LargestFit(v, T, k, d)
    ensures d == 0
  {
    var t, c := Cut(T, v.p, k + v.n), Head(v);
    hide Cut, Head;
    if d > 0 { MulLe(1, d, c); }
  }

  lemma AboveTrue(T: nat, D: nat, d: nat)
    requires D > 0 && (d == T / D || d == T / D + 1)
    ensures d * D > T <==> d == T / D + 1
  {
    var q := T / D;
    assert T == D * q + T % D;
    Commute(D, q);
    Distribute(q, 1, D);
  }

  /** The remainder stays below the divisor, and its digits are as many as the next step expects. */
  lemma StateNext(v: Divisor, T: nat, len: nat, k: nat)
    requires IsDivisor(v) && v.b > 0 && Head(v) > 0 && State(v, T, len, k) && Next(v, T, len, k).Some?
    ensures State(v, T % At(v, k), Next(v, T, len, k).value, k - 1)
    ensures Next(v, T, len, k).value <= k + v.n
  {
    hide Estimate, Head, Guessed, NumDigits, W, Cut, IsDivisor;
    var D, d := At(v, k), Estimate(v, T, k);
    Below(v, T % D, k);
    if !Guessed(v, T, k) {
      NotGuessed(v, T, k);
      Divided(0, T, D);
    } else if d != T / D && NumDigits(d * v.b) != v.n + 1 {
      StepFacts(v, T, k);
      ProductDigits(v, d);
      if k > 0 { KeptLength(v, T, k, d); }
    }
  }

  /** A remainder that is not trimmed is nearly as large as the divisor. */
  lemma KeptLength(v: Divisor, T: nat, k: nat, d: nat)
    requires v.b > 0 && k > 0 && d == T / At(v, k) + 1 && (d * At(v, k) - T) * BASE < 2 * At(v, k)
    ensures T % At(v, k) >= At(v, k - 1)
  {
    var D, E, R := At(v, k), At(v, k - 1), T % At(v, k);
    QuotientRest(T, D, d);
    WNext(k - 1);
    Assoc(v.b, BASE, W(k - 1));
    Commute(v.b, BASE);
    Assoc(BASE, v.b, W(k - 1));
    NearlyAll(D, E, R);
  }

  lemma ProductDigits(v: Divisor, d: nat)
    requires IsDivisor(v) && 0 < d < BASE
    ensures NumDigits(d * v.b) == v.n || NumDigits(d * v.b) == v.n + 1
  {
    MulLe(1, d, v.b);
    MulLt(d, BASE, v.b);
    WNext(v.n);
    MulLt(v.b, W(v.n), BASE);
    DigitsBelow(d * v.b, v.n - 1);
    DigitsBelow(d * v.b, v.n + 1);
  }

  /** If the estimate is one too large, what it takes too much and what remains make up the divisor. */
  lemma QuotientRest(T: nat, D: nat, d: nat)
    requires D > 0 && d == T / D + 1
    ensures T % D + (d * D - T) == D
  {
    var q := T / D;
    assert T == D * q + T % D;
    Distribute(q, 1, D);
    Commute(D, q);
  }

  lemma NearlyAll(D: nat, E: nat, R: nat)
    requires D == BASE * E && D - R >= 0 && (D - R) * BASE < 2 * D && E > 0
    ensures R >= E
  {
  }

  // ----- when no borrow is lost -----

  /** A divisor of at most two digits: every estimate is the quotient digit. */
  lemma {:induction false} ShortDivisor(v: Divisor, T: nat, len: nat, k: int)
    requires IsDivisor(v) && v.b > 0 && Head(v) > 0 && v.n <= 2 && State(v, T, len, k)
    ensures NoneLost(v, T, len, k)
    decreases k + 1
  {
    if k >= 0 {
      EstimateIsLeading(v, T, k);
      var s, K, M, D := (v.p * BASE) * BASE, W(k), W(k + v.n), At(v, k);
      ExactHead(v);
      PowAdd(BASE, k, v.n);
      Commute(K, W(v.n));
      Assoc(Head(v), W(v.n), K);
      Swap(v.b, s, K);
      ExactDivisor(BASE, T, D, v.p, s, M, Head(v), Cut(T, v.p, k + v.n), Estimate(v, T, k));
      StateNext(v, T, len, k);
      ShortDivisor(v, T % D, Next(v, T, len, k).value, k - 1);
    }
  }

  lemma ExactHead(v: Divisor)
    requires IsDivisor(v) && v.n <= 2
    ensures Head(v) * W(v.n) == v.b * ((v.p * BASE) * BASE)
  {
    Assoc3(v.b, v.p);
    var bp := v.b * v.p;
    if v.n == 1 {
      assert W(1) == BASE * W(0) == BASE;
      Divided(bp * BASE, 0, BASE);
    } else {
      assert W(2) == BASE * W(1) == BASE * BASE;
      Divided(bp, 0, BASE * BASE);
    }
  }

  /** A divisor whose top bit is set: an estimate that is one too large always has the right number of digits. */
  lemma {:induction false} TopBitSet(v: Divisor, T: nat, k: int)
    requires IsDivisor(v) && v.b > 0 && Head(v) > 0 && v.p == 1 && k >= -1 && T < At(v, k + 1)
    ensures NoneLost(v, T, NumDigits(T), k)
    decreases k + 1
  {
    if k >= 0 {
      var D := At(v, k);
      TopBitNext(v, T, k);
      hide Next, At;
      TopBitSet(v, T % D, k - 1);
    }
  }

  lemma TopBitNext(v: Divisor, T: nat, k: nat)
    requires IsDivisor(v) && v.b > 0 && Head(v) > 0 && v.p == 1 && T < At(v, k + 1)
    ensures Next(v, T, NumDigits(T), k) == Some(NumDigits(T % At(v, k)))
  {
    hide Estimate, Guessed, Head, IsDivisor, NumDigits, W;
    var d, D := Estimate(v, T, k), At(v, k);
    StepFacts(v, T, k);
    if !Guessed(v, T, k) {
      NotGuessed(v, T, k);
      Divided(0, T, D);
    } else if d != T / D {
      TopBitDigits(v, T, k);
      TopBitRest(v, T, k);
      ProductDigits(v, d);
      hide Estimate, NumDigits, Head, Guessed, At, IsDivisor;
    }
  }

  /** The product of an estimate that is one too large reaches as far as the dividend. */
  lemma TopBitDigits(v: Divisor, T: nat, k: nat)
    requires IsDivisor(v) && v.b > 0 && Head(v) > 0 && v.p == 1 && T < At(v, k + 1)
    requires Estimate(v, T, k) == T / At(v, k) + 1
    ensures NumDigits(Estimate(v, T, k) * v.b) + k == NumDigits(T)
  {
    hide Min, NumDigits;
    var d, D, w := Estimate(v, T, k), At(v, k), NumDigits(Estimate(v, T, k) * v.b);
    StepFacts(v, T, k);
    ProductDigits(v, d);
    // above: T < d * D < W(k + w)
    var P := d * v.b;
    DigitsBelow(P, w);
    QuotientRest(T, D, d);
    Assoc(d, v.b, W(k));
    hide Estimate, Head, Cut, NumDigits;
    MulLt(P, W(w), W(k));
    PowAdd(BASE, k, w);
    Commute(W(k), W(w));
    DigitsBelow(T, k + w);
    NotShorter(v, T, k);
    DigitsBelow(T, k + w - 1);
  }

  /** With fewer digits the estimate would have been at most one. */
  lemma NotShorter(v: Divisor, T: nat, k: nat)
    requires IsDivisor(v) && v.b > 0 && Head(v) > 0 && v.p == 1 && T < At(v, k + 1)
    requires Estimate(v, T, k) == T / At(v, k) + 1
    ensures NumDigits(Estimate(v, T, k) * v.b) > 0 && T >= W(k + NumDigits(Estimate(v, T, k) * v.b) - 1)
  {
    var d, w := Estimate(v, T, k), NumDigits(Estimate(v, T, k) * v.b);
    StepFacts(v, T, k);
    ProductDigits(v, d);
    HeadBounds(v);
    CutBounds(T, 1, k + v.n);
    var t, c := Cut(T, 1, k + v.n), Head(v);
    QuotientMax(t, c);
    MulLe(1, d, c);
    assert d == 1 ==> w == v.n by { DigitsBelow(v.b, v.n); }
    WNext(k + v.n - 1);
    hide Estimate, Head, Cut, NumDigits, At, IsDivisor;
    if w == v.n + 1 {
      if T < W(k + v.n) {
        SmallCut(t, T, W(k + v.n), BASE * BASE);
        HalfBase(c, d, t);
      }
    } else if T < W(k + v.n - 1) {
      TinyCut(t, T, W(k + v.n - 1));
    }
  }

  lemma SmallCut(t: nat, T: nat, M: nat, k: nat)
    requires T < M && t * M <= T * k && k == BASE * BASE
    ensures t < BASE * BASE
  {
    MulLt(T, M, k);
    Commute(M, k);
    Cancel(t, k, M);
  }

  lemma TinyCut(t: nat, T: nat, m: nat)
    requires T < m && t * (BASE * m) <= T * ((1 * BASE) * BASE) && m > 0
    ensures t < BASE
  {
    Swap(t, BASE, m);
    Assoc(t, BASE, m);
    MulLt(T, m, BASE);
    Assoc3(T, 1);
    assert (t * m) * BASE <= (T * BASE) * BASE by { Assoc(t * m, BASE, 1); Regroup3(t, m); Regroup3(T, BASE); }
    Cancel2(t * m, T * BASE);
    Commute(m, BASE);
    Cancel(t, BASE, m);
  }

  lemma Regroup3(t: int, m: int)
    ensures (t * BASE) * m == (t * m) * BASE
  {
  }

  lemma Cancel2(x: int, y: int)
    requires x * BASE <= y * BASE
    ensures x <= y
  {
  }

  lemma HalfBase(c: nat, d: nat, t: nat)
    requires BASE <= 2 * (c / BASE) && d * c <= t < BASE * BASE && d > 0
    ensures d == 1
  {
    assert c == BASE * (c / BASE) + c % BASE;
    assert 2 * c >= BASE * BASE;
    if d >= 2 { MulLe(2, d, c); }
  }

  /** What remains then needs no further trimming. */
  lemma TopBitRest(v: Divisor, T: nat, k: nat)
    requires IsDivisor(v) && v.b > 0 && Head(v) > 0 && v.p == 1 && T < At(v, k + 1)
    requires Estimate(v, T, k) == T / At(v, k) + 1
    ensures NumDigits(Estimate(v, T, k) * v.b) == v.n ==> NumDigits(T % At(v, k)) == NumDigits(T)
  {
    var d, D, R := Estimate(v, T, k), At(v, k), T % At(v, k);
    StepFacts(v, T, k);
    QuotientRest(T, D, d);
    TopBitDigits(v, T, k);
    var m := W(k + v.n - 1);
    assert BASE * m <= 2 * D by {
      PowAdd(BASE, k, v.n);
      MulLe(W(v.n), 2 * v.b, W(k));
      Assoc(2, v.b, W(k));
      Commute(W(k), W(v.n));
      WNext(k + v.n - 1);
    }
    Below(v, R, k);
    DigitsBelow(R, k + v.n - 1);
    hide Estimate, Head, At, NumDigits, W, IsDivisor;
    AlmostHalf(D, R, m);
  }

  lemma AlmostHalf(D: nat, R: nat, m: nat)
    requires BASE * m <= 2 * D && (D - R) * BASE < 2 * D
    ensures R >= m
  {
  }

  /** Nothing remains to be lost. */
  lemma {:induction false} NothingLeft(v: Divisor, k: int)
    requires IsDivisor(v) && v.b > 0 && Head(v) > 0 && k >= -1
    ensures NoneLost(v, 0, 0, k)
    decreases k + 1
  {
    if k >= 0 {
      HeadBounds(v);
      Divided(0, 0, W(k + v.n));
      Divided(0, 0, At(v, k));
      NothingLeft(v, k - 1);
    }
  }

  // ----- how many digits the remainder keeps -----

  /** The number of digits that the remainder has at the end. */
  function FinalLength(v: Divisor, T: nat, len: nat, k: int): nat
    requires Head(v) > 0 && v.b > 0 && NoneLost(v, T, len, k)
    decreases k + 1
  {
    if k < 0 then len else FinalLength(v, T % At(v, k), Next(v, T, len, k).value, k - 1)
  }

  lemma {:induction false} NothingKept(v: Divisor, k: int)
    requires IsDivisor(v) && v.b > 0 && Head(v) > 0 && k >= -1
    ensures NoneLost(v, 0, 0, k) && FinalLength(v, 0, 0, k) == 0
    decreases k + 1
  {
    NothingLeft(v, k);
    if k >= 0 {
      Divided(0, 0, W(k + v.n));
      Divided(0, 0, At(v, k));
      NothingKept(v, k - 1);
    }
  }

  /**
   * The remainder keeps a zero digit: at the last step the estimate is one too large, its product is as long as the
   * divisor, and what remains is shorter.
   */
  ghost predicate KeepsZero(v: Divisor, a: nat)
    requires Head(v) > 0 && v.b > 0
  {
    var T := a % At(v, 1);
    var d := Estimate(v, T, 0);
    Guessed(v, T, 0) && d == T / v.b + 1 && NumDigits(d * v.b) == v.n && NumDigits(a % v.b) < v.n
  }

  /** Remainders for divisors one of which divides the other. */
  lemma ModMod(a: nat, v: Divisor, k: nat)
    requires v.b > 0
    ensures (a % At(v, k + 1)) % At(v, k) == a % At(v, k)
  {
    var D, E := At(v, k), At(v, k + 1);
    WNext(k);
    Assoc(v.b, BASE, W(k));
    Commute(v.b, BASE);
    Assoc(BASE, v.b, W(k));
    assert E == BASE * D;
    hide *;
    RestOfRest(a, D);
  }

  lemma RestOfRest(a: nat, D: nat)
    requires D > 0
    ensures BASE * D > 0 && (a % (BASE * D)) % D == a % D
  {
    var E := BASE * D;
    QuotientAndRest(a, E);
    QuotientAndRest(a % E, D);
    QuotientAndRest(a, D);
    SameRest(a, D, a / E, a % E, (a % E) / D, (a % E) % D, a / D, a % D);
  }

  lemma QuotientAndRest(a: nat, d: nat)
    requires d > 0
    ensures 0 <= a / d && 0 <= a % d < d && a == d * (a / d) + a % d
  {
  }

  lemma SameRest(a: int, D: int, q: int, r: int, p: int, s: int, k: int, t: int)
    requires a == (BASE * D) * q + r && r == D * p + s && 0 <= s < D && a == D * k + t && 0 <= t < D
    ensures s == t
  {
    Commute(BASE, D);
    Assoc(D, BASE, q);
    Distribute(BASE * q, p, D);
    Unique(BASE * q + p, s, k, t, D);
  }

  lemma LastStep(v: Divisor, T: nat, len: nat)
    requires IsDivisor(v) && v.b > 0 && Head(v) > 0 && State(v, T, len, 0) && Next(v, T, len, 0).Some?
    ensures Next(v, T, len, 0).value == NumDigits(T % v.b) <==> !KeepsZero(v, T)
  {
    hide *;
    var d, q, r := Estimate(v, T, 0), T / v.b, T % v.b;
    LastUnfolds(v, T, len);
    LastFacts(v, T, d);
    LastCases(Guessed(v, T, 0), d == q, NumDigits(d * v.b), v.n, len, NumDigits(T), NumDigits(r), T >= v.b,
              Next(v, T, len, 0), KeepsZero(v, T));
  }

  lemma LastFacts(v: Divisor, T: nat, d: nat)
    requires IsDivisor(v) && v.b > 0 && Head(v) > 0 && T < At(v, 1) && d == Estimate(v, T, 0)
    ensures (d == T / v.b || d == T / v.b + 1) && NumDigits(T % v.b) <= v.n
    ensures !Guessed(v, T, 0) ==> T < v.b && NumDigits(T) == NumDigits(T % v.b)
    ensures d != T / v.b ==> NumDigits(d * v.b) == v.n || NumDigits(d * v.b) == v.n + 1
  {
    assert At(v, 0) == v.b by { assert W(0) == 1; }
    QuotientAndRest(T, v.b);
    StepFacts(v, T, 0);
    Below(v, T % v.b, 0);
    hide *;
    if !Guessed(v, T, 0) {
      NotGuessed(v, T, 0);
      Divided(0, T, v.b);
    }
    if d != T / v.b { ProductDigits(v, d); }
  }

  /** The cases of the last step: whether a digit is guessed, whether it is right, and how many digits there are. */
  lemma LastCases(guessed: bool, right: bool, product: nat, n: nat, len: nat, digits: nat, rest: nat, reached: bool,
                  next: Option<nat>, keeps: bool)
    requires next.Some? && (len == digits || (len == n + 1 && reached)) && rest <= n
    requires next == if !guessed then Some(len) else if right then Some(rest)
                     else if product == len then Some(if product == n + 1 then rest else len) else None
    requires keeps <==> guessed && !right && product == n && rest < n
    requires !guessed ==> !reached && digits == rest
    requires guessed && !right ==> product == n || product == n + 1
    ensures next.value == rest <==> !keeps
  {
  }

  lemma LastUnfolds(v: Divisor, T: nat, len: nat)
    requires v.b > 0 && Head(v) > 0 && State(v, T, len, 0)
    ensures At(v, 0) == v.b && T < At(v, 1) && (len == NumDigits(T) || (len == v.n + 1 && T >= v.b))
    ensures
      var d := Estimate(v, T, 0);
      && (Next(v, T, len, 0) ==
           if !Guessed(v, T, 0) then Some(len)
           else if d == T / v.b then Some(NumDigits(T % v.b))
           else if NumDigits(d * v.b) == len then Some(if NumDigits(d * v.b) == v.n + 1 then NumDigits(T % v.b)
             else len)
           else None)
      && (KeepsZero(v, T) <==>
           Guessed(v, T, 0) && d == T / v.b + 1 && NumDigits(d * v.b) == v.n && NumDigits(T % v.b) < v.n)
  {
    assert W(0) == 1;
    assert At(v, 0) == v.b;
    Divided(0, T, At(v, 1));
    hide Estimate, Head, Guessed, NumDigits, Cut;
  }

  /** The remainder has as many digits as its value, except where it keeps a zero digit. */
  lemma {:induction false} FinalTrimmed(v: Divisor, a: nat, T: nat, len: nat, k: int)
    requires IsDivisor(v) && v.b > 0 && Head(v) > 0 && k >= 0 && State(v, T, len, k) && NoneLost(v, T, len, k)
    requires T == a % At(v, k + 1)
    ensures FinalLength(v, T, len, k) == NumDigits(a % v.b) <==> !KeepsZero(v, a)
    decreases k
  {
    ModMod(a, v, k);
    if k == 0 {
      assert W(0) == 1;
      assert At(v, 0) == v.b;
      Divided(0, T, At(v, 1));
      LastStep(v, T, len);
      LastLength(v, T, len);
    } else {
      StateNext(v, T, len, k);
      FinalTrimmed(v, a, T % At(v, k), Next(v, T, len, k).value, k - 1);
    }
  }

  lemma LastLength(v: Divisor, T: nat, len: nat)
    requires Head(v) > 0 && v.b > 0 && NoneLost(v, T, len, 0)
    ensures FinalLength(v, T, len, 0) == Next(v, T, len, 0).value
  {
    hide Next, At;
  }

  // ----- where it goes wrong -----

  const Ones: nat := 0xFFFF_FFFF_FFFF_FFFF_FFFF_FFFF
  const Unlucky: Divisor := Divisor(0xAAAA_AAAA_AAAA_AAAA_F000, 3, 0x1_0000)

  /** Dividing 2^96 - 1 by 0xaaaaaaaaaaaaaaaaf000: the borrow of the only step is lost. */
  lemma OneBorrowLost()
    ensures Head(Unlucky) > 0 && State(Unlucky, Ones, NumDigits(Ones), 0)
    ensures Ones / At(Unlucky, 0) == 98303 && Estimate(Unlucky, Ones, 0) == 98304
    ensures Next(Unlucky, Ones, NumDigits(Ones), 0).None?
  {
    Weights();
    assert Cut(Unlucky.b, Unlucky.p, 3) == 0xAAAA_AAAA_AAAA_AAAA;
    assert Cut(Ones, Unlucky.p, 3) == 0xFFFF_FFFF_FFFF_FFFF_FFFF;
    assert At(Unlucky, 0) == Unlucky.b;
    assert At(Unlucky, 1) == Unlucky.b * BASE;
    DigitsBelow(Ones, 2); DigitsBelow(Ones, 3);
    DigitsBelow(98304 * Unlucky.b, 3);
    hide W, Cut, NumDigits, At;
  }

  const Untrimmed: Divisor := Divisor(0x1_0000_0000_0000_0001, 3, 0x8000_0000)
  const FiveUp: nat := 0x5_0000_0000_0000_0002

  /** Dividing 5 * 2^64 + 2 by 2^64 + 1: no borrow is lost, but the remainder keeps three digits, and has two. */
  lemma RemainderNotTrimmed()
    ensures Head(Untrimmed) > 0 && State(Untrimmed, FiveUp, NumDigits(FiveUp), 0)
    ensures NoneLost(Untrimmed, FiveUp, NumDigits(FiveUp), 0) && KeepsZero(Untrimmed, FiveUp)
    ensures FinalLength(Untrimmed, FiveUp, NumDigits(FiveUp), 0) == 3 && NumDigits(FiveUp % Untrimmed.b) == 2
  {
    Weights();
    assert Cut(Untrimmed.b, Untrimmed.p, 3) == 0x8000_0000_0000_0000;
    assert Cut(FiveUp, Untrimmed.p, 3) == 0x2_8000_0000_0000_0001;
    assert At(Untrimmed, 0) == Untrimmed.b;
    assert At(Untrimmed, 1) == Untrimmed.b * BASE;
    DigitsBelow(FiveUp, 2); DigitsBelow(FiveUp, 3);
    DigitsBelow(5 * Untrimmed.b, 2); DigitsBelow(5 * Untrimmed.b, 3);
    DigitsBelow(FiveUp % Untrimmed.b, 1); DigitsBelow(FiveUp % Untrimmed.b, 2);
    hide W, Cut, NumDigits, At;
    assert Next(Untrimmed, FiveUp, NumDigits(FiveUp), 0) == Some(3);
    hide Next;
    LastLength(Untrimmed, FiveUp, NumDigits(FiveUp));
  }

  lemma Weights()
    ensures W(0) == 1 && W(1) == BASE && W(2) == 0x1_0000_0000_0000_0000 && W(3) == 0x1_0000_0000_0000_0000_0000_0000
  {
    WNext(0);
    WNext(1);
    WNext(2);
  }
}
