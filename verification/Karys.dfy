/** Reducing two odd numbers with a pair of small multipliers, one for each. */
module Karys {
  import opened Arithmetic
  import opened Digits
  import opened Divisors
  import opened Inverses
  import opened Bdivmods

  // ----- the multipliers -----

  /** Euclid's algorithm until the second number is below 2^17; the multipliers follow. */
  ghost function RatPair(n1: nat, x1: int, n2: nat, x2: int): (nat, int)
    decreases n2
  {
    if Width(n2) <= 16 then (n2, x2) else RatPair(n2, x2, n1 % n2, x1 - (n1 / n2) * x2)
  }

  /** Multipliers `n` and `x` for which n * v and x * u agree in their low digit. */
  ghost function Multipliers(u: nat, v: nat): (nat, int)
    requires Odd(v)
  {
    Pow32();
    var c := Quot(u, v, 32);
    RatPair(c, 1, BASE - c, -1)
  }

  /**
   * Numbers `n` and multipliers `d` with n == c * d modulo the base, one multiplier positive and one negative,
   * that are small together.
   */
  ghost predicate Pair(c: nat, n1: nat, d1: int, n2: nat, d2: int) {
    && Congruent(n1, c * d1, BASE) && Congruent(n2, c * d2, BASE)
    && ((d1 > 0 && d2 < 0) || (d1 < 0 && d2 > 0))
    && n1 * Abs(d2) + n2 * Abs(d1) == BASE
  }

  lemma FirstPair(c: digit, n: nat)
    requires c > 0 && n == BASE - c
    ensures Pair(c, c, 1, n, -1)
  {
    DivTimes(BASE, 0);
    DivTimes(BASE, 1);
    var x: int := c;
    assert x * (-1) == -x;
  }

  /** Taking a multiple of the second from the first. */
  lemma PairSub(c: nat, n1: nat, d1: int, n2: nat, d2: int, k: nat)
    requires Pair(c, n1, d1, n2, d2) && k * n2 <= n1
    ensures Pair(c, n1 - k * n2, d1 - k * d2, n2, d2)
  {
    CongruentTimes(n2, c * d2, BASE, k);
    DivCombine(BASE, n1 - c * d1, k * n2 - k * (c * d2), 1, 1);
    assert c * (d1 - k * d2) == c * d1 - k * (c * d2) by { Distribute(d1, k * d2, c); Regroup(k, c, d2); }
    var a1, a2 := Abs(d1), Abs(d2);
    MulLe(0, k, a2);
    assert d2 > 0 ==> k * d2 >= 0 by { if d2 > 0 { MulLe(0, k, d2); } }
    assert d2 < 0 ==> k * d2 <= 0 by { if d2 < 0 { MulLe(0, k, -d2); } }
    assert Abs(d1 - k * d2) == a1 + k * a2;
    Distribute(n1, k * n2, a2);
    Distribute(a1, k * a2, n2);
    assert (k * n2) * a2 == n2 * (k * a2) by { Commute(k, n2); Assoc(n2, k, a2); }
  }

  lemma PairNext(c: nat, n1: nat, d1: int, n2: nat, d2: int)
    requires Pair(c, n1, d1, n2, d2) && n2 > 0
    ensures Pair(c, n2, d2, n1 % n2, d1 - (n1 / n2) * d2)
  {
    assert n1 == n2 * (n1 / n2) + n1 % n2;
    hide Congruent, Abs;
    Commute(n2, n1 / n2);
    PairSub(c, n1, d1, n2, d2, n1 / n2);
  }

  lemma WidthAtMost(x: nat, w: nat)
    requires Width(x) <= w
    ensures x < Pow(2, w + 1)
  {
    WidthBounds(x);
    PowMonotone(2, Width(x) + 1, w + 1);
  }

  lemma WidthAtLeast(x: nat, w: nat)
    requires Width(x) >= w && x > 0
    ensures Pow(2, w) <= x
  {
    WidthBounds(x);
    PowMonotone(2, w, Width(x));
  }

  lemma Pow17()
    ensures Pow(2, 17) == 0x2_0000
  {
    assert Pow(2, 5) == 32;
    PowAdd(2, 5, 5);
    PowAdd(2, 10, 7);
    assert Pow(2, 7) == 128;
  }

  lemma Wide(n: nat)
    ensures Width(n) > 16 ==> n >= 0x2_0000
    ensures Width(n) <= 16 ==> n < 0x2_0000
  {
    Pow17();
    if Width(n) > 16 { WidthAtLeast(n, 17); } else { WidthAtMost(n, 16); }
  }

  lemma {:induction false} RatPairSmall(c: nat, n1: nat, x1: int, n2: nat, x2: int)
    requires Pair(c, n1, x1, n2, x2) && (x2 == -1 || n1 >= 0x2_0000)
    ensures
      var (n, x) := RatPair(n1, x1, n2, x2);
      n < 0x2_0000 && Abs(x) <= 0x8000 && x != 0 && Congruent(n, c * x, BASE)
    decreases n2
  {
    Wide(n2);
    if Width(n2) <= 16 {
      if x2 != -1 { SmallMultiplier(n1, x2, n2, x1); }
    } else {
      hide Congruent, Abs;
      PairNext(c, n1, x1, n2, x2);
      RatPairSmall(c, n2, x2, n1 % n2, x1 - (n1 / n2) * x2);
    }
  }

  lemma SmallMultiplier(n1: nat, d2: int, n2: nat, d1: int)
    requires n1 >= 0x2_0000 && n1 * Abs(d2) + n2 * Abs(d1) == BASE
    ensures Abs(d2) <= 0x8000
  {
    MulLe(0, n2, Abs(d1));
    MulLe(0x2_0000, n1, Abs(d2));
  }

  lemma NotZero(c: digit, x: nat, y: nat)
    requires Odd(x) && Congruent(c * y, x, BASE)
    ensures c > 0
  {
    var k := DivQuotient(BASE, c * y - x);
    EvenBase(k);
  }

  lemma EvenBase(k: int)
    ensures (BASE * k) % 2 == 0
  {
  }

  /** n == c * d and c * y == x, so n * y == d * x. */
  lemma Agree(c: digit, n: nat, d: int, x: nat, y: nat)
    requires Congruent(n, c * d, BASE) && Congruent(c * y, x, BASE)
    ensures Congruent(d * x, n * y, BASE)
  {
    CongruentTimes(n, c * d, BASE, y);
    CongruentTimes(c * y, x, BASE, d);
    assert (c * d) * y == (c * y) * d by { Swap(c, d, y); }
    Commute(x, d);
    CongruentAdd(n * y, (c * y) * d, d * x, BASE);
    DivNegative(BASE, n * y - d * x);
  }

  /** The multipliers are small, and the products agree in their low digit. */
  lemma MultipliersSmall(u: nat, v: nat)
    requires Odd(u) && Odd(v)
    ensures
      var (n, x) := Multipliers(u, v);
      n < 0x2_0000 && Abs(x) <= 0x8000 && x != 0 && Congruent(x * u, n * v, BASE)
  {
    Pow32();
    var c: digit := Quot(u, v, 32);
    NotZero(c, u, v);
    FirstPair(c, BASE - c);
    RatPairSmall(c, c, 1, BASE - c, -1);
    var (n, x) := Multipliers(u, v);
    hide Congruent, Quot, Multipliers;
    Agree(c, n, x, u, v);
  }

  // ----- the reduction -----

  /** The difference of the products, without its low digit. */
  ghost function Kary(u: nat, v: nat): nat
    requires Odd(v)
  {
    var (n, x) := Multipliers(u, v);
    Abs(x * u - n * v) / BASE
  }

  /** No odd common divisor is lost. */
  lemma KaryKept(u: nat, v: nat)
    requires Odd(u) && Odd(v)
    ensures forall d: nat :: Odd(d) && Div(d, u) && Div(d, v) ==> Div(d, Kary(u, v))
  {
    MultipliersSmall(u, v);
    var (n, x) := Multipliers(u, v);
    var y := Abs(x * u - n * v);
    hide Multipliers;
    DivAbs(BASE, x * u - n * v);
    Pow32();
    forall d: nat | Odd(d) && Div(d, u) && Div(d, v) ensures Div(d, y / BASE) {
      DivCombine(d, u, v, x, n);
      DivAbs(d, x * u - n * v);
      assert y == BASE * (y / BASE);
      OddShift(d, y / BASE, 32);
    }
  }

  lemma KaryBound(u: nat, v: nat)
    requires Odd(u) && Odd(v)
    ensures Kary(u, v) * BASE <= 0x8000 * u + 0x2_0000 * v
  {
    MultipliersSmall(u, v);
    var (n, x) := Multipliers(u, v);
    hide Multipliers, Congruent;
    MulLe(x, 0x8000, u);
    MulLe(-0x8000, x, u);
    MulLe(n, 0x2_0000, v);
    MulLe(0, n, v);
  }

  // ----- the multipliers as digits -----

  /** A digit that stands for an integer. */
  ghost predicate Stands(d: digit, x: int) { d == x % BASE }

  lemma StandsSub(d1: digit, x1: int, d2: digit, x2: int, k: nat)
    requires Stands(d1, x1) && Stands(d2, x2)
    ensures Stands((d1 - (d2 * k) % BASE + BASE) % BASE, x1 - k * x2)
  {
    var q1, q2 := x1 / BASE, x2 / BASE;
    assert x1 == BASE * q1 + d1 && x2 == BASE * q2 + d2;
    var y := d2 * k;
    assert y == BASE * (y / BASE) + y % BASE;
    Distribute(BASE * q2, d2, k);
    Swap(BASE, q2, k);
    Assoc(BASE, q2, k);
    Commute(k, x2);
    var z := d1 - y % BASE + BASE;
    var q := q1 - q2 * k - y / BASE - 1;
    assert x1 - k * x2 == BASE * q + z;
    UniqueInt(BASE, x1 - k * x2, q + z / BASE, z % BASE);
  }

  /** The first number modulo the second, by shifting and subtracting; its multiplier follows. */
  method DivideOut(n1_: digit, n2: digit, d1_: digit, d2: digit, ghost x1_: int, ghost x2: int)
    returns (n1: digit, d1: digit)
    requires n2 > 0 && Stands(d1_, x1_) && Stands(d2, x2)
    ensures n1 == n1_ % n2 && Stands(d1, x1_ - (n1_ / n2) * x2)
  {
    n1, d1 := n1_, d1_;
    ghost var k: nat := 0;
    var i: int := Width(n1) - Width(n2);
    if n1 >= n2 { StartShift(n1, n2); }
    hide Stands;
    while n1 >= n2
      invariant n1_ == n1 + k * n2 && Stands(d1, x1_ - k * x2)
      invariant n1 >= n2 ==> i >= 0 && n1 < n2 * Pow(2, i + 1) && n2 * Pow(2, i) < BASE
      decreases i
    {
      ghost var p := Pow(2, i);
      ShiftDown(n1, n2, i);
      var n2i := n2 * Pow(2, i);
      hide Pow;
      if n1 >= n2i {
        Commute(n2, p);
        Distribute(k, p, n2);
        Distribute(k, p, x2);
        StandsSub(d1, x1_ - k * x2, d2, x2, p);
        n1 := n1 - n2i;
        d1 := (d1 - (d2 * Pow(2, i)) % BASE + BASE) % BASE;
        k := k + p;
      }
      i := i - 1;
    }
    Commute(k, n2);
    UniqueInt(n2, n1_, k, n1);
  }

  lemma StartShift(n1: digit, n2: digit)
    requires 0 < n2 <= n1
    ensures
      var i := Width(n1) - Width(n2);
      i >= 0 && n1 < n2 * Pow(2, i + 1) && n2 * Pow(2, i) < BASE
  {
    WidthBounds(n1);
    WidthBounds(n2);
    var a, b := Width(n1), Width(n2);
    WidthMonotone(n2, n1);
    hide Width;
    PowAdd(2, b, a - b + 1);
    MulLe(Pow(2, b), n2, Pow(2, a - b + 1));
    PowAdd(2, b + 1, a - b);
    MulLt(n2, Pow(2, b + 1), Pow(2, a - b));
    Pow32();
    if a >= 32 { PowMonotone(2, 32, a); }
    PowMonotone(2, a + 1, 32);
  }

  lemma ShiftDown(n1: digit, n2: digit, i: nat)
    requires n1 < n2 * Pow(2, i + 1) && n2 * Pow(2, i) < BASE && n2 > 0
    ensures
      var n := n2 * Pow(2, i);
      var r := if n1 >= n then n1 - n else n1;
      r < n && (i == 0 ==> r < n2) && (i > 0 ==> r < n2 * Pow(2, i) && n2 * Pow(2, i - 1) < BASE)
  {
    assert n2 * Pow(2, i + 1) == 2 * (n2 * Pow(2, i)) by { Regroup(n2, 2, Pow(2, i)); }
    if i == 0 {
      assert n2 * Pow(2, 0) == n2;
    } else {
      assert n2 * Pow(2, i) == 2 * (n2 * Pow(2, i - 1)) by { Regroup(n2, 2, Pow(2, i - 1)); }
      MulLe(0, n2, Pow(2, i - 1));
    }
  }

  /** The multipliers for two odd digits; the digit `d` stands for the second, which may be negative. */
  method ReducedRatMod(x: digit, y: digit) returns (n: digit, d: digit)
    requires Odd(x) && Odd(y)
    ensures n == Multipliers(x, y).0 && Stands(d, Multipliers(x, y).1)
  {
    var c := DigitBmod(x, y, 32);
    Pow32();
    NotZero(c, x, y);
    var n1: digit, d1: digit := c, 1;
    ghost var x1, x2 := 1, -1;
    n, d := BASE - c, BASE - 1;
    assert Stands(d1, x1) && Stands(d, x2);
    assert RatPair(n1, x1, n, x2) == Multipliers(x, y);
    hide Quot, Stands, Multipliers, Pow, Congruent;
    while Width(n) > 16
      invariant RatPair(n1, x1, n, x2) == Multipliers(x, y)
      invariant Stands(d1, x1) && Stands(d, x2)
      decreases n
    {
      ghost var m, y1 := n1 % n, x1 - (n1 / n) * x2;
      n1, d1 := DivideOut(n1, n, d1, d, x1, x2);
      n1, n := n, n1;
      d1, d := d, d1;
      x1, x2 := x2, y1;
    }
  }

  /** Only the low digits count for the multipliers. */
  lemma MultipliersLow(u: nat, v: nat)
    requires Odd(v) && Odd(v % BASE)
    ensures Multipliers(u, v) == Multipliers(u % BASE, v % BASE)
  {
    Pow32();
    CongruentMod(u, BASE);
    CongruentMod(v, BASE);
    QuotLow(u, u % BASE, v, v % BASE, 32);
  }

  /** The bit above the low half tells the sign of the second multiplier. */
  lemma SignBit(d: digit, x: int)
    requires Stands(d, x) && Abs(x) <= 0x8000 && x != 0
    ensures (d / 0x1_0000) % 2 == 1 <==> x < 0
    ensures x < 0 ==> (BASE - d) % BASE % 0x1_0000 == -x
    ensures x > 0 ==> d == x
  {
  }
}
