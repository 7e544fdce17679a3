/** Two numbers for which a digit left behind makes the computed greatest common divisor wrong. */
module LostDivisors {
  import opened Arithmetic
  import opened Digits
  import opened Divisors
  import opened Inverses
  import opened Bdivmods
  import opened Karys
  import opened Gcds
  import opened GcdConditions
  import opened GcdRuns

  const U: nat := 0x1_00000000_00000001_b960002d
  const V: nat := 0x1_00000003

  // ----- the first reduction: 65 bits, the last of which reads the digit left behind -----

  lemma FirstDigit()
    ensures NumDigits(V) == 2
    ensures NextDigit(Held(U, U), V) == Held(0xffffffff_6cdffff1, 0xffffffff_6cdffff1)
  {
    PowerTable();
    Weights();
    DigitsOf(V, 2);
    QuotIs(U, V, 32, 0x9320000f, BASE);
    var q := 0x9320000f;
    assert q * V == 0x93200010_b960002d;
    assert U - q * V == 0xffffffff_6cdffff1 * BASE;
    hide Quot, W, NumDigits, Stale;
  }

  lemma SecondDigit()
    ensures NextDigit(Held(0xffffffff_6cdffff1, 0xffffffff_6cdffff1), V) == Held(0x86600003, 0xffffffff_86600003)
  {
    PowerTable();
    Weights();
    DigitsOf(V, 2);
    QuotIs(0xffffffff_6cdffff1, V, 32, 0x799ffffb, BASE);
    hide Quot, W, NumDigits;
  }

  lemma LastBit()
    ensures LastBits(Held(0x86600003, 0xffffffff_86600003), V, 1) == 0x7fffffff_43300000
  {
    PowerTable();
    QuotIs(0xffffffff_86600003, V, 1, 1, 2);
    hide Quot;
  }

  lemma FirstReduction()
    ensures Next(U, V) == 0x7fffffff_43300000 && OddPart(0x7fffffff_43300000) == 0x7ff_fffff433
  {
    PowerTable();
    WidthIs(U, 96);
    WidthIs(V, 32);
    OddPartIs(20, 0x7ff_fffff433);
    FirstDigit();
    SecondDigit();
    LastBit();
    hide NextDigit, LastBits, Width, Pow, OddPart, Zeros;
    var h1, h2 := Held(0xffffffff_6cdffff1, 0xffffffff_6cdffff1), Held(0x86600003, 0xffffffff_86600003);
    assert InPlace(Held(U, U), V, 65) == InPlace(h1, V, 33) == InPlace(h2, V, 1) == LastBits(h2, V, 1);
  }

  // ----- the second reduction: two multipliers -----

  lemma SecondMultipliers()
    ensures Multipliers(V, 0x7ff_fffff433) == (1, -1007)
  {
    PowerTable();
    QuotIs(V, 0x7ff_fffff433, 32, 554464497, BASE);
    hide Quot, Width;
    LaterPairs();
    Narrow(3740502799);
    Narrow(554464497);
    Narrow(413715817);
    assert RatPair(554464497, 1, 3740502799, -1) == (1, -1007);
  }

  lemma LaterPairs()
    ensures RatPair(413715817, -7, 140748680, 8) == (1, -1007)
  {
    hide Width;
    Narrow(140748680);
    Narrow(132218457);
    Narrow(8530223);
    Narrow(4265112);
    Narrow(4265111);
    Narrow(1);
    assert RatPair(4265112, -488, 4265111, 519) == (1, -1007);
    assert RatPair(132218457, -23, 8530223, 31) == (1, -1007);
  }

  lemma SecondReduction()
    ensures Next(V, 0x7ff_fffff433) == 0xbef && OddPart(0xbef) == 0xbef
  {
    PowerTable();
    hide Multipliers, Bdivmod, Width, Pow;
    WidthIs(V, 32);
    WidthIs(0x7ff_fffff433, 42);
    SecondMultipliers();
  }

  // ----- the last reductions -----

  lemma ThirdReduction()
    ensures Next(0x7ff_fffff433, 0xbef) == 8 && OddPart(8) == 1
  {
    PowerTable();
    Weights();
    WidthIs(0x7ff_fffff433, 42);
    WidthIs(0xbef, 11);
    DigitsOf(0xbef, 1);
    QuotIs(0x7ff_fffff433, 0xbef, 32, 0xac4967fd, BASE);
    OddPartIs(3, 1);
    assert Pow(2, 3) == 8;
    hide Quot, Width, W, NumDigits, OddPart, Pow;
    var h := NextDigit(Held(0x7ff_fffff433, 0x7ff_fffff433), 0xbef);
    assert h.value == 8;
    assert InPlace(Held(0x7ff_fffff433, 0x7ff_fffff433), 0xbef, 32) == InPlace(h, 0xbef, 0) == 8;
  }

  lemma FourthReduction()
    ensures Next(0xbef, 1) == 0 && OddPart(0) == 0
  {
    PowerTable();
    WidthIs(0xbef, 11);
    assert Width(1) == 0;
    QuotIs(0xbef, 1, 12, 0xbef, 0x1000);
    hide Quot, Width, Pow;
    assert InPlace(Held(0xbef, 0xbef), 1, 12) == LastBits(Held(0xbef, 0xbef), 1, 12) == 0;
  }

  lemma ReducedToOne()
    ensures Weber(U, V) == 1
  {
    FirstReduction();
    SecondReduction();
    ThirdReduction();
    FourthReduction();
    hide Next, OddPart, Measure;
    assert Weber(1, 0) == 1;
    assert Weber(0xbef, 1) == 1;
    assert Weber(0x7ff_fffff433, 0xbef) == 1;
    assert Weber(V, 0x7ff_fffff433) == 1;
  }

  // ----- reducing by one -----

  lemma OneDigit(x: nat, q: digit)
    requires x >= BASE && q == x % BASE > 0
    ensures NextDigit(Held(x, x), 1) == Held(x / BASE, x / BASE)
  {
    PowerTable();
    Weights();
    DigitsOf(1, 1);
    QuotIs(x, 1, 32, q, BASE);
    hide Quot, W, NumDigits;
  }

  lemma ZeroDigit()
    ensures NextDigit(Held(BASE, BASE), 1) == Held(1, 1)
  {
    PowerTable();
    Weights();
    DigitsOf(1, 1);
    DigitsOf(BASE, 2);
    QuotIs(BASE, 1, 32, 0, BASE);
    hide Quot, W, NumDigits;
  }

  lemma LastOne()
    ensures LastBits(Held(1, 1), 1, 1) == 0
  {
    PowerTable();
    QuotIs(1, 1, 1, 1, 2);
    hide Quot;
  }

  lemma Ends(bits: nat)
    requires bits == 1
    ensures InPlace(Held(1, 1), 1, bits) == 0
  {
    LastOne();
    hide LastBits, NextDigit;
  }

  lemma FixZeroed(x: nat, w: nat)
    requires Width(x) == w && InPlace(Held(x, x), 1, w + 1) == 0
    ensures Fix(x, 1) == Found(1)
  {
    assert Width(1) == 0;
    hide InPlace, Width, Binary;
  }

  lemma FirstFix()
    ensures Fix(U, 1) == Found(1)
  {
    PowerTable();
    WidthIs(U, 96);
    OneDigit(U, 0xb960002d);
    OneDigit(0x1_00000000_00000001, 1);
    ZeroDigit();
    hide NextDigit, Width, Pow, InPlace, Fix;
    Onwards(U, 1, 0x1_00000000_00000001, 97);
    Onwards(0x1_00000000_00000001, 1, BASE, 65);
    Onwards(BASE, 1, 1, 33);
    Ends(1);
    FixZeroed(U, 96);
  }

  lemma SecondFix()
    ensures Fix(V, 1) == Found(1)
  {
    PowerTable();
    WidthIs(V, 32);
    OneDigit(V, 3);
    hide NextDigit, Width, Pow, InPlace, Fix;
    Onwards(V, 1, 1, 33);
    Ends(1);
    FixZeroed(V, 32);
  }

  lemma Seven()
    ensures IsGcd(7, U, V)
  {
    forall d: nat | Div(d, U) && Div(d, V) ensures Div(d, 7) {
      DivCombine(d, U, V, 72751721, 1342032377271521947714380154);
    }
  }

  /** The passes read nothing left behind; the reductions have lost the divisor. */
  lemma SevenNotKept()
    ensures OddPart(U) == U && OddPart(V) == V && Weber(U, V) == 1
    ensures PassesClean(U, V, 1) && !AllKept(U, V, 1)
  {
    Seven();
    OddPartIs(0, U);
    OddPartIs(0, V);
    ReducedToOne();
    FirstFix();
    SecondFix();
    FixSmallClean(U, 1);
    FixSmallClean(V, 1);
    assert Pow(2, 0) == 1;
    hide Weber, Fix, FixClean, OddPart, Zeros, Pow;
    assert Div(7, 7) && !Div(7, 1);
  }

  lemma OneFound()
    ensures Gcd(U, V) == Found(1)
  {
    assert Pow(2, 0) == 1;
    assert Max(U, V) == U && Min(U, V) == V && Odd(U) && Odd(V) && Odd(1) && U >= BASE * BASE;
    hide Weber, Fix, OddPart, Zeros, Pow, AllKept, PassesClean, Gcd;
    SevenNotKept();
    FirstFix();
    SecondFix();
    OddPartIs(0, U);
    OddPartIs(0, V);
    GcdLarge(U, V, U, V, 1);
  }

  /** The result is one, though both numbers are divisible by seven: the condition for it to be right fails. */
  lemma SevenLost()
    ensures Gcd(U, V) == Found(1) && IsGcd(7, U, V) && !IsGcd(1, U, V)
  {
    Seven();
    SevenNotKept();
    OneFound();
    Weights();
    hide Weber, Fix, OddPart, Zeros, Pow, W, AllKept, PassesClean, Gcd, IsGcd;
    RightWhenKept(U, V, U, V, 1);
  }
}
