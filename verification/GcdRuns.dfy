/** Facts by which the computation of a greatest common divisor is followed for given numbers. */
module GcdRuns {
  import opened Digits
  import opened Divisors
  import opened Inverses
  import opened Bdivmods
  import opened Karys
  import opened Gcds
  import NaturalShift

  lemma PowerTable()
    ensures Pow(2, 1) == 2 && Pow(2, 2) == 4 && Pow(2, 3) == 8 && Pow(2, 4) == 16 && Pow(2, 5) == 32
    ensures Pow(2, 10) == 0x400 && Pow(2, 11) == 0x800 && Pow(2, 12) == 0x1000 && Pow(2, 20) == 0x10_0000
    ensures Pow(2, 32) == BASE && Pow(2, 33) == 2 * BASE && Pow(2, 42) == 0x400 * BASE && Pow(2, 43) == 0x800 * BASE
    ensures Pow(2, 96) == BASE * BASE * BASE && Pow(2, 97) == 2 * BASE * BASE * BASE
  {
    assert Pow(2, 5) == 32;
    PowAdd(2, 5, 5);
    assert Pow(2, 11) == 2 * Pow(2, 10) && Pow(2, 12) == 2 * Pow(2, 11);
    PowAdd(2, 10, 10);
    PowAdd(2, 20, 12);
    PowAdd(2, 32, 1);
    PowAdd(2, 32, 10);
    PowAdd(2, 32, 11);
    PowAdd(2, 32, 32);
    PowAdd(2, 64, 32);
    PowAdd(2, 96, 1);
  }

  lemma Weights()
    ensures W(0) == 1 && W(1) == BASE && W(2) == BASE * BASE && W(3) == BASE * BASE * BASE
  {
    assert W(1) == BASE * W(0) && W(2) == BASE * W(1) && W(3) == BASE * W(2);
  }

  lemma DigitsOf(x: nat, n: nat)
    requires n > 0 && W(n - 1) <= x < W(n)
    ensures NumDigits(x) == n
  {
    DigitsBelow(x, n);
    DigitsBelow(x, n - 1);
  }

  lemma OddIs(x: nat, k: nat)
    requires x == 2 * k + 1
    ensures Odd(x)
  {
  }

  lemma QuotIs(u: nat, v: nat, s: nat, q: nat, m: nat)
    requires Odd(v) && m == Pow(2, s) && q < m && (q * v - u) % m == 0
    ensures Quot(u, v, s) == q
  {
    QuotUnique(u, v, s, q);
  }

  lemma Multiple(m: nat, k: int)
    requires m > 0
    ensures (m * k) % m == 0
  {
    DivTimes(m, k);
  }

  /** The quotient by what it leaves. */
  lemma QuotBy(u: nat, v: nat, s: nat, q: nat, m: nat, k: int)
    requires Odd(v) && m == Pow(2, s) && m > 0 && q < m && u == q * v + m * k
    ensures Quot(u, v, s) == q
  {
    Multiple(m, -k);
    hide Quot, Pow;
    QuotIs(u, v, s, q, m);
  }

  lemma Narrow(n: nat)
    ensures n >= 0x2_0000 ==> Width(n) > 16
    ensures n < 0x2_0000 ==> Width(n) <= 16
  {
    Wide(n);
  }

  // ----- reducing -----

  /** A digit cleared of a number longer than the divisor. */
  lemma DigitCleared(x: nat, v: nat, q: nat, z: nat)
    requires Odd(v) && 0 < q < BASE && x == q * v + BASE * z && x >= W(NumDigits(v))
    ensures NextDigit(Held(x, x), v) == Held(z, z)
  {
    Pow32();
    QuotBy(x, v, 32, q, BASE, z);
    hide Quot, W, NumDigits;
  }

  /** A digit cleared that leaves the top digit where it was. */
  lemma DigitLeft(x: nat, v: nat, q: nat, z: nat, m: nat)
    requires Odd(v) && 0 < q < BASE && x == q * v + BASE * z && m == NumDigits(v) > 0 && x < W(m)
    ensures NextDigit(Held(x, x), v) == Held(z, Stale(z, x, m - 1))
  {
    Pow32();
    QuotBy(x, v, 32, q, BASE, z);
    hide Quot, W, NumDigits, Stale;
  }

  lemma StaleIs(z: nat, x: nat, m: nat, w: nat, top: nat, rest: nat)
    requires w == W(m) && x == w * top + rest && rest < w
    ensures Stale(z, x, m) == z + w * top
  {
    Divided(top, rest, w);
    hide W;
  }

  /** The bits left are cleared. */
  lemma BitsCleared(h: Held, v: nat, bits: nat, p: nat, q: nat, z: nat)
    requires Odd(v) && p == Pow(2, bits) && 0 < q < p && (h.read == q * v + p * z || h.read + p * z == q * v)
    ensures LastBits(h, v, bits) == z
  {
    var x := h.read - q * v;
    var k: int := z;
    QuotBy(h.read, v, bits, q, p, if x < 0 then -k else k);
    hide Quot, Pow;
    assert Abs(x) == p * z;
    Divided(z, 0, p);
  }

  /** There is nothing to clear. */
  lemma BitsClear(h: Held, v: nat, bits: nat, p: nat, k: nat)
    requires Odd(v) && p == Pow(2, bits) && p > 0 && h.read == p * k
    ensures LastBits(h, v, bits) == h.value / p
  {
    QuotBy(h.read, v, bits, 0, p, k);
    hide Quot, Pow;
  }

  /** One step of the reduction in place. */
  lemma Onwards(x: nat, v: nat, z: nat, bits: nat)
    requires Odd(v) && bits >= 32 && NextDigit(Held(x, x), v) == Held(z, z)
    ensures InPlace(Held(x, x), v, bits) == InPlace(Held(z, z), v, bits - 32)
  {
    hide NextDigit, LastBits;
  }

  lemma WidthByDigits(x: nat, a: nat, b: nat, w: nat, p: nat)
    requires w == W(a) && p == Pow(2, b) && w * p <= x < 2 * (w * p)
    ensures Width(x) == 32 * a + b
  {
    NaturalShift.WholeDigits(a);
    PowAdd(2, 32 * a, b);
    assert Pow(2, 32 * a + b + 1) == 2 * Pow(2, 32 * a + b);
    hide Pow, W, Width;
    WidthIs(x, 32 * a + b);
  }

  /** A reduction by two multipliers. */
  lemma MultipliersGive(u: nat, v: nat, n: nat, x: int, z: nat)
    requires Odd(v) && Width(u) - Width(v) <= 10 && Multipliers(u, v) == (n, x)
    requires x * u == n * v + BASE * z || x * u + BASE * z == n * v
    ensures Next(u, v) == z
  {
    hide Multipliers, Width, Bdivmod;
    var y := x * u - n * v;
    assert Abs(y) == BASE * z;
    Divided(z, 0, BASE);
  }

  /** The multipliers start from the quotient of the low digits. */
  lemma MultipliersFrom(u: nat, v: nat, c: digit, k: int)
    requires Odd(v) && u == c * v + BASE * k
    ensures Multipliers(u, v) == RatPair(c, 1, BASE - c, -1)
  {
    Pow32();
    QuotBy(u, v, 32, c, BASE, k);
    hide Quot, RatPair;
  }

  lemma RatStep(n1: nat, x1: int, n2: nat, x2: int, k: nat, r: nat)
    requires n2 >= 0x2_0000 && n1 == n2 * k + r && r < n2
    ensures RatPair(n1, x1, n2, x2) == RatPair(n2, x2, r, x1 - k * x2)
  {
    Narrow(n2);
    hide Width;
    Divided(k, r, n2);
  }

  lemma RatEnd(n1: nat, x1: int, n2: nat, x2: int)
    requires n2 < 0x2_0000
    ensures RatPair(n1, x1, n2, x2) == (n2, x2)
  {
    Narrow(n2);
    hide Width;
  }

  // ----- whole reductions -----

  /** A digit, a digit that leaves the top one behind, and the bit left, which reads it. */
  lemma SpoiledNext(u: nat, v: nat, m: nat, q1: nat, z1: nat, q2: nat, z2: nat, top: nat, rest: nat, r: nat)
    requires Odd(v) && Bits(u, v) == 65 && m == NumDigits(v) > 0 && W(m) <= u && z1 < W(m)
    requires 0 < q1 < BASE && u == q1 * v + BASE * z1 && 0 < q2 < BASE && z1 == q2 * v + BASE * z2
    requires z1 == W(m - 1) * top + rest && rest < W(m - 1) && z2 + W(m - 1) * top == v + 2 * r
    ensures Next(u, v) == r
  {
    assert Pow(2, 1) == 2;
    DigitCleared(u, v, q1, z1);
    DigitLeft(z1, v, q2, z2, m);
    StaleIs(z2, z1, m - 1, W(m - 1), top, rest);
    var h := Held(z2, Stale(z2, z1, m - 1));
    hide NextDigit, Width, Stale, W, Pow, NumDigits, LastBits, Kary;
    BitsCleared(h, v, 1, 2, 1, r);
    Onwards(u, v, z1, 65);
    assert InPlace(Held(z1, z1), v, 33) == InPlace(h, v, 1) == LastBits(h, v, 1);
  }

  /** The bit left reads the digit left behind and is not set. */
  lemma UnspoiledBits(u: nat, v: nat, m: nat, q1: nat, z1: nat, q2: nat, z2: nat, top: nat, rest: nat, k: nat)
    requires Odd(v) && Bits(u, v) == 65 && m == NumDigits(v) > 0 && W(m) <= u && z1 < W(m)
    requires 0 < q1 < BASE && u == q1 * v + BASE * z1 && 0 < q2 < BASE && z1 == q2 * v + BASE * z2
    requires z1 == W(m - 1) * top + rest && rest < W(m - 1) && z2 + W(m - 1) * top == 2 * k
    ensures Bdivmod(u, v) == z2 / 2
  {
    assert Pow(2, 1) == 2;
    DigitCleared(u, v, q1, z1);
    DigitLeft(z1, v, q2, z2, m);
    StaleIs(z2, z1, m - 1, W(m - 1), top, rest);
    var h := Held(z2, Stale(z2, z1, m - 1));
    hide NextDigit, Width, Stale, W, Pow, NumDigits, LastBits;
    BitsClear(h, v, 1, 2, k);
    Onwards(u, v, z1, 65);
    assert InPlace(Held(z1, z1), v, 33) == InPlace(h, v, 1) == LastBits(h, v, 1);
  }

  /** Fewer bits than a digit has. */
  lemma NextByBits(u: nat, v: nat, bits: nat, p: nat, q: nat, r: nat)
    requires Odd(v) && Bits(u, v) == bits && 11 < bits < 32 && p == Pow(2, bits) && 0 < q < p
    requires u == q * v + p * r || u + p * r == q * v
    ensures Next(u, v) == r
  {
    hide Width, Pow, LastBits, Kary;
    BitsCleared(Held(u, u), v, bits, p, q, r);
  }

  // ----- what goes wrong -----

  /** The reductions leave `w`, with which the first pass ends; the second is to reduce `v` by `bits` bits. */
  ghost predicate SecondPassBy(u: nat, v: nat, w: nat, bits: int) {
    Odd(u) && Odd(v) && Odd(w) && Weber(u, v) == w && Fix(u, w) == Found(w) && Bits(v, w) == bits
  }

  /** The reductions leave `w`, by which the first pass reduces `u` to `t`; to take that from `w` loses a borrow. */
  ghost predicate FirstPassTakes(u: nat, v: nat, w: nat, t: nat) {
    && Odd(u) && Odd(v) && Odd(w) && Weber(u, v) == w
    && Bits(u, w) >= 0 && Bdivmod(u, w) == t && BorrowLost(w, t)
  }
}
