/** When the greatest common divisor is right, in terms of the operands. */
module GcdConditions {
  import opened Arithmetic
  import opened Digits
  import opened Divisors
  import opened Inverses
  import opened Bdivmods
  import opened Gcds
  import Karys
  import NaturalShift

  // ----- zero -----

  /** The number is a multiple of `d`; only zero is one of zero. */
  ghost predicate MultipleOf(x: nat, d: nat) {
    exists k: nat :: x == d * k
  }

  /** A common divisor of which every common divisor is a divisor, zero included. */
  ghost predicate GreatestCommon(g: nat, a: nat, b: nat) {
    && MultipleOf(a, g) && MultipleOf(b, g)
    && forall d: nat :: MultipleOf(a, d) && MultipleOf(b, d) ==> MultipleOf(g, d)
  }

  /** With positive numbers it is the greatest common divisor of the other theorems. */
  lemma PositiveCommon(g: nat, a: nat, b: nat)
    requires a > 0 && b > 0
    ensures GreatestCommon(g, a, b) <==> IsGcd(g, a, b)
  {
    forall d: nat, x: nat | x > 0 ensures MultipleOf(x, d) <==> Div(d, x) { MultipleDiv(d, x); }
    if g == 0 {
      MultipleDiv(0, a);
    } else {
      hide MultipleOf, Div;
    }
  }

  lemma MultipleDiv(d: nat, x: nat)
    requires x > 0
    ensures MultipleOf(x, d) <==> Div(d, x)
  {
    if Div(d, x) {
      assert x == d * (x / d);
    }
    if MultipleOf(x, d) {
      var k: nat :| x == d * k;
      if d > 0 { DivTimes(d, k); }
    }
  }

  /**
   * If either number is zero the result is zero, which is a greatest common divisor only if both are; otherwise that
   * would be the other number.
   */
  lemma ZeroOperand(a: nat, b: nat)
    requires a == 0 || b == 0
    ensures Gcd(a, b) == Found(0) && GreatestCommon(Max(a, b), a, b)
    ensures GreatestCommon(Gcd(a, b).value, a, b) <==> a == 0 && b == 0
  {
    var m := Max(a, b);
    assert m == m * 1 && 0 == m * 0 && 0 == 0 * 0;
    assert MultipleOf(m, m) && MultipleOf(0, m);
  }

  // ----- at most two digits -----

  /** Odd parts of at most two digits: nothing is read that was left behind. */
  lemma TwoDigitsExact(u0: nat, v0: nat)
    requires u0 > 0 && v0 > 0 && OddPart(u0) < BASE * BASE && OddPart(v0) < BASE * BASE
    ensures Gcd(u0, v0).Found? && IsGcd(Gcd(u0, v0).value, u0, v0)
  {
    hide IsGcd, OddPart, Gcd;
    GcdExact(u0, v0);
  }

  // ----- reducing by one digit -----

  lemma {:induction false} DigitwiseLarge(y: nat, v: nat, bits: nat)
    requires Odd(v) && bits % 32 == 1 && bits >= 33 && y + v >= Pow(2, Width(v) + bits - 1)
    ensures Digitwise(y, v, bits / 32 - 1) + v >= Pow(2, Width(v) + 32)
    decreases bits
  {
    hide Div, Odd, Pow, Quot, Reduce, Width;
    if bits > 33 {
      ReduceLarge(y, v, bits);
      DigitwiseLarge(Reduce(y, v, 32), v, bits - 32);
      assert (bits - 32) / 32 - 1 == bits / 32 - 1 - 1;
    }
  }

  lemma ReduceByOne(u: nat)
    ensures Reduce(u, 1, 32) == u / BASE
  {
    Pow32();
    CongruentMod(u, BASE);
    QuotUnique(u, 1, 32, u % BASE);
    hide Quot;
  }

  lemma {:induction false} DigitwiseOne(u: nat, j: nat)
    requires u >= W(j + 1)
    ensures Digitwise(u, 1, j) >= BASE
    decreases j
  {
    WNext(j);
    if j == 0 {
      assert W(0) == 1;
    } else {
      ReduceByOne(u);
      AtLeastTimes(u, BASE, W(j));
      DigitwiseOne(u / BASE, j - 1);
    }
  }

  /** Only one could leave a digit behind, among the numbers of one digit. */
  lemma OneDigitSpoiled(u: nat, v: nat)
    requires Odd(v) && v < BASE && Bits(u, v) >= 0 && Spoiled(u, v, Bits(u, v))
    ensures v == 1 && Bits(u, 1) >= 65 && Bits(u, 1) % 32 == 1 && Digitwise(u, 1, Bits(u, 1) / 32 - 1) < BASE
  {
    var k := Bits(u, v);
    SpoiledWide(u, v);
    WideEnough(u, v);
    DigitwiseLarge(u, v, k);
    DigitsBelow(v, 1);
    assert W(1) == BASE * W(0) && W(0) == 1;
    TopLarge(Digitwise(u, v, k / 32 - 1), v);
  }

  lemma LongByOne(u: nat)
    requires Bits(u, 1) >= 65 && Bits(u, 1) % 32 == 1
    ensures Digitwise(u, 1, Bits(u, 1) / 32 - 1) >= BASE
  {
    var k := Bits(u, 1);
    hide Bits;
    LargeByOne(u, k);
    DigitwiseOne(u, k / 32 - 1);
  }

  /** Reducing by a number of one digit never reads a digit left behind. */
  lemma OneDigitClean(u: nat, v: nat)
    requires Odd(v) && v < BASE && Bits(u, v) >= 0
    ensures !Spoiled(u, v, Bits(u, v))
  {
    hide *;
    if Spoiled(u, v, Bits(u, v)) {
      OneDigitSpoiled(u, v);
      LongByOne(u);
    }
  }

  lemma LargeByOne(u: nat, k: nat)
    requires k == Bits(u, 1) && k >= 33 && k % 32 == 1
    ensures u >= W(k / 32 - 1 + 1)
  {
    assert Width(1) == 0 && Width(0) == 0;
    WidthBounds(u);
    NaturalShift.WholeDigits(k / 32);
    assert 32 * (k / 32) == k - 1;
  }

  /** The smaller number has one digit, and leaves room for one bit unless the larger has one digit, too. */
  ghost predicate Small(u: nat, v: nat) {
    v < BASE && (u < BASE || 2 * v <= BASE)
  }

  lemma NextSmall(u: nat, v: nat)
    requires Odd(u) && Odd(v) && Small(u, v)
    ensures Width(u) - Width(v) > 10 ==> !Spoiled(u, v, Bits(u, v))
    ensures Small(v, OddPart(Next(u, v)))
  {
    OddPartFacts(Next(u, v));
    NextBound(u, v);
    if Width(u) - Width(v) > 10 {
      OneDigitClean(u, v);
      BdivmodExact(u, v);
      ReducedBound(u, v);
    } else {
      Karys.KaryBound(u, v);
      WidthRatio(u, v);
      KarySize(u, v, Karys.Kary(u, v));
    }
  }

  lemma {:induction false} WeberSmallClean(u: nat, v: nat)
    requires Odd(u) && (v == 0 || Odd(v)) && Small(u, v)
    ensures WeberClean(u, v)
    decreases Measure(u, v)
  {
    if v > 0 {
      NextSmaller(u, v);
      NextSmall(u, v);
      hide Next, Spoiled, Width;
      WeberSmallClean(v, OddPart(Next(u, v)));
    }
  }

  lemma FixSmallClean(x: nat, g: nat)
    requires Odd(g) && g < BASE
    ensures FixClean(x, g)
  {
    if Bits(x, g) >= 0 {
      OneDigitClean(x, g);
      BdivmodExact(x, g);
      ReducedBound(x, g);
      var t := Bdivmod(x, g);
      hide Bdivmod, Reduced, Spoiled, Binary;
      if t > 0 { BinarySmall(t, g); }
    }
  }

  lemma SmallClean(u0: nat, v0: nat)
    requires u0 > 0 && v0 > 0 && 2 * Min(OddPart(u0), OddPart(v0)) <= BASE
    ensures Clean(u0, v0)
  {
    OddPartFacts(u0);
    OddPartFacts(v0);
    var a, b := OddPart(u0), OddPart(v0);
    var u, v := Max(a, b), Min(a, b);
    WeberSmallClean(u, v);
    WeberSmall(u, v, v);
    WeberOdd(u, v);
    var w := Weber(u, v);
    FixSmallClean(u0, w);
    FixExact(u0, w);
    FixOdd(u0, w);
    FixSmallClean(v0, Fix(u0, w).value);
    hide OddPart, Zeros, Weber, WeberClean, Fix, FixClean, IsOddGcd;
  }

  /** One odd part at most half of the base: the result is right, however large the other number. */
  lemma HalfDigitExact(u0: nat, v0: nat)
    requires u0 > 0 && v0 > 0 && 2 * Min(OddPart(u0), OddPart(v0)) <= BASE
    ensures Gcd(u0, v0).Found? && IsGcd(Gcd(u0, v0).value, u0, v0)
  {
    SmallClean(u0, v0);
    hide IsGcd, OddPart, Gcd, Clean;
    GcdExact(u0, v0);
  }

  // ----- exactly when -----

  /** Both passes end, and read nothing that was left behind. */
  ghost predicate PassesClean(u0: nat, v0: nat, w: nat)
    requires Odd(w)
  {
    Fix(u0, w).Found? && FixClean(u0, w) &&
    (FixOdd(u0, w); Fix(v0, Fix(u0, w).value).Found? && FixClean(v0, Fix(u0, w).value))
  }

  lemma PassesExact(u0: nat, v0: nat, w: nat) returns (g1: nat, g: nat)
    requires Odd(w) && PassesClean(u0, v0, w)
    ensures Fixed(u0, v0, w) == Found(g) && Odd(g) && g > 0 && Odd(g1) && IsOddGcd(g1, u0, w) && IsOddGcd(g, v0, g1)
  {
    FixOdd(u0, w);
    FoundExact(u0, w);
    g1 := Fix(u0, w).value;
    FoundExact(v0, g1);
    g := Fix(v0, g1).value;
  }

  /** A pass that ends leaves a divisor of the number it starts from, whatever it reads. */
  lemma FoundDivides(x: nat, g: nat)
    requires Odd(g) && Fix(x, g).Found?
    ensures Odd(Fix(x, g).value) && Div(Fix(x, g).value, g)
  {
    FixOdd(x, g);
    var t := Bdivmod(x, g);
    hide Bdivmod, Binary;
    if t == 0 { DivTimes(g, 1); } else { BinaryExact(t, g); }
  }

  /** So do both passes. */
  lemma PassesDivide(u0: nat, v0: nat, w: nat)
    requires Odd(w) && Fixed(u0, v0, w).Found?
    ensures Div(Fixed(u0, v0, w).value, w)
  {
    hide Fix, Div;
    FoundDivides(u0, w);
    var g1 := Fix(u0, w).value;
    FoundDivides(v0, g1);
    DivTrans(Fix(v0, g1).value, g1, w);
  }

  /** All odd common divisors of the numbers divide the last number before zero. */
  ghost predicate AllKept(a: nat, b: nat, w: nat) {
    forall d: nat :: Odd(d) && Div(d, a) && Div(d, b) ==> Div(d, w)
  }

  /**
   * With more than two digits, the result is right only if the reductions have kept every odd common divisor; and
   * where the passes read nothing left behind, exactly then.
   */
  lemma RightWhenKept(u0: nat, v0: nat, a: nat, b: nat, w: nat)
    requires u0 > 0 && v0 > 0 && a == OddPart(u0) && b == OddPart(v0) && Odd(a) && Odd(b) && Odd(w)
    requires Max(a, b) >= BASE * BASE && w == Weber(Max(a, b), Min(a, b))
    ensures Gcd(u0, v0).Found? && IsGcd(Gcd(u0, v0).value, u0, v0) ==> AllKept(a, b, w)
    ensures PassesClean(u0, v0, w) ==>
      Gcd(u0, v0).Found? && (IsGcd(Gcd(u0, v0).value, u0, v0) <==> AllKept(a, b, w))
  {
    var n, r := Min(Zeros(u0), Zeros(v0)), Fixed(u0, v0, w);
    GcdLarge(u0, v0, a, b, w);
    assert Gcd(u0, v0) == ShiftLeft(r, n);
    assert r.Found? ==> ShiftLeft(r, n) == Found(Pow(2, n) * r.value);
    assert r.Lost? ==> ShiftLeft(r, n) == Lost;
    hide *;
    if r.Found? && IsGcd(Pow(2, n) * r.value, u0, v0) {
      PassesDivide(u0, v0, w);
      RightKept(u0, v0, w, r.value, n);
    }
    if PassesClean(u0, v0, w) {
      var g1, g := PassesExact(u0, v0, w);
      if AllKept(a, b, w) { KeptRight(u0, v0, w, g1, g, n); }
    }
  }

  lemma GcdLarge(u0: nat, v0: nat, a: nat, b: nat, w: nat)
    requires u0 > 0 && v0 > 0 && a == OddPart(u0) && b == OddPart(v0) && Odd(a) && Odd(b) && Odd(w)
    requires Max(a, b) >= BASE * BASE && w == Weber(Max(a, b), Min(a, b))
    ensures Gcd(u0, v0) == ShiftLeft(Fixed(u0, v0, w), Min(Zeros(u0), Zeros(v0)))
  {
    hide Weber, Fixed, OddPart, Zeros, Pow, Binary;
  }

  lemma KeptRight(u0: nat, v0: nat, w: nat, g1: nat, g: nat, n: nat)
    requires u0 > 0 && v0 > 0 && Odd(g) && g > 0 && Odd(g1) && IsOddGcd(g1, u0, w) && IsOddGcd(g, v0, g1)
    requires AllKept(OddPart(u0), OddPart(v0), w) && n == Min(Zeros(u0), Zeros(v0))
    ensures IsGcd(Pow(2, n) * g, u0, v0)
  {
    FixTwice(u0, v0, w, g1, g);
    OddPartFacts(u0);
    OddPartFacts(v0);
    hide OddPart, Zeros, AllKept;
    ShiftedGcd(g, OddPart(u0), Zeros(u0), OddPart(v0), Zeros(v0));
  }

  lemma RightKept(u0: nat, v0: nat, w: nat, g: nat, n: nat)
    requires Div(g, w) && IsGcd(Pow(2, n) * g, u0, v0)
    ensures AllKept(OddPart(u0), OddPart(v0), w)
  {
    var a, b := OddPart(u0), OddPart(v0);
    OddPartFacts(u0);
    OddPartFacts(v0);
    hide OddPart, Zeros, Pow, IsOddGcd;
    forall d: nat | Odd(d) && Div(d, a) && Div(d, b) ensures Div(d, w) {
      OddShift(d, a, Zeros(u0));
      OddShift(d, b, Zeros(v0));
      assert Div(d, Pow(2, n) * g);
      OddShift(d, g, n);
      DivTrans(d, g, w);
    }
  }
}
