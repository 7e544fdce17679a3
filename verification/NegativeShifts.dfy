/** Two numbers for which a digit left behind makes the second pass shift by a negative count. */
module NegativeShifts {
  import opened Arithmetic
  import opened Digits
  import opened Divisors
  import opened Inverses
  import opened Bdivmods
  import opened Karys
  import opened Gcds
  import opened GcdConditions
  import opened GcdRuns

  const U: nat := 0x1_00000000_000000c9_11111047
  const V: nat := 0x1_22222221

  /** What the reductions leave, one after the other. */
  const R1: nat := 0xfffffff_deeeeeef
  const R2: nat := 0x10_ffffffef
  const R3: nat := 0xf_eeeeeedf

  lemma Odds()
    ensures Odd(U) && Odd(V) && Odd(R1) && Odd(R2) && Odd(R3)
  {
    hide Odd;
    OddIs(U, 0x80000000_00000064_88888823);
    OddIs(V, 0x91111110);
    OddIs(R1, 0x7ffffff_ef777777);
    OddIs(R2, 0x8_7ffffff7);
    OddIs(R3, 0x7_f777776f);
  }

  lemma Widths()
    ensures Width(U) == 96 && Width(V) == 32 && Width(R1) == 59 && Width(R2) == 36 && Width(R3) == 35
  {
    Weights();
    PowerTable();
    assert Pow(2, 0) == 1;
    assert Pow(2, 27) == 0x800_0000 by { PowAdd(2, 20, 5); PowAdd(2, 25, 2); }
    hide W, Pow, Width, Odd;
    WidthByDigits(U, 3, 0, W(3), 1);
    WidthByDigits(V, 1, 0, W(1), 1);
    WidthByDigits(R1, 1, 27, W(1), 0x800_0000);
    WidthByDigits(R2, 1, 4, W(1), 16);
    WidthByDigits(R3, 1, 3, W(1), 8);
  }

  // ----- the reductions -----

  lemma FirstReduction()
    ensures OddPart(Next(U, V)) == R1
  {
    Odds();
    Widths();
    Weights();
    DigitsOf(V, 2);
    PowerTable();
    OddPartIs(3, R1);
    hide W, Pow, Width, NumDigits, OddPart, Zeros, Next, Odd;
    SpoiledNext(U, V, 2, 0xb4b4b567, 0xffffffff_33333333, 0xd2d2d2d3, 0x11111111, 0xffffffff, 0x33333333,
                0x7ffffffe_f7777778);
  }

  lemma SecondReduction()
    ensures Next(V, R1) == R2
  {
    Odds();
    Widths();
    hide Bdivmod, Kary, Multipliers, Next, Odd, Pow, RatPair, Width;
    MultipliersFrom(V, R1, 268435439, -72057589439852272);
    RatStep(268435439, 1, 4026531857, -1, 0, 268435439);
    RatStep(4026531857, -1, 268435439, 1, 15, 272);
    RatEnd(268435439, 1, 272, -16);
    MultipliersGive(V, R1, 272, -16, R2);
  }

  lemma ThirdReduction()
    ensures Next(R1, R2) == R3
  {
    Odds();
    Widths();
    assert Pow(2, 24) == 0x100_0000 by { PowerTable(); PowAdd(2, 20, 4); }
    hide Next, Width, Pow, Odd;
    NextByBits(R1, R2, 24, 0x100_0000, 0x10101, R3);
  }

  lemma FourthReduction()
    ensures Next(R2, R3) == 0
  {
    Odds();
    Widths();
    hide Bdivmod, Kary, Multipliers, Next, Odd, Pow, RatPair, Width;
    MultipliersFrom(R2, R3, 934469873, -14889219956);
    RatStep(934469873, 1, 3360497423, -1, 0, 934469873);
    RatStep(3360497423, -1, 934469873, 1, 3, 557087804);
    RatStep(934469873, 1, 557087804, -4, 1, 377382069);
    RatStep(557087804, -4, 377382069, 5, 1, 179705735);
    RatStep(377382069, 5, 179705735, -9, 2, 17970599);
    RatStep(179705735, -9, 17970599, 23, 9, 17970344);
    RatStep(17970599, 23, 17970344, -216, 1, 255);
    RatEnd(17970344, -216, 255, 239);
    MultipliersGive(R2, R3, 255, 239, 0);
  }

  lemma ReducedToThird()
    ensures Weber(U, V) == R3
  {
    FirstReduction();
    SecondReduction();
    ThirdReduction();
    FourthReduction();
    Odds();
    assert Pow(2, 0) == 1;
    OddPartIs(0, R2);
    OddPartIs(0, R3);
    assert OddPart(0) == 0;
    hide Next, OddPart, Measure, Zeros, Pow, Odd;
    assert Weber(R3, 0) == R3;
    assert Weber(R2, R3) == R3;
    assert Weber(R1, R2) == R3;
    assert Weber(V, R1) == R3;
  }

  // ----- the passes -----

  /** The first pass finds the number to divide its operand. */
  lemma FirstPass()
    ensures Fix(U, R3) == Found(R3)
  {
    Odds();
    Widths();
    Weights();
    DigitsOf(R3, 2);
    assert Pow(2, 30) == 0x4000_0000 by { PowerTable(); PowAdd(2, 20, 10); }
    hide NextDigit, LastBits, Width, W, NumDigits, Pow, Binary, Odd;
    var z := 0xfffffff0_999999a8;
    DigitCleared(U, R3, 0xf76e5399, z);
    Onwards(U, R3, z, 62);
    BitsCleared(Held(z, z), R3, 30, 0x4000_0000, 0x10112358, 0);
    assert InPlace(Held(z, z), R3, 30) == 0;
  }

  lemma Divisor()
    ensures IsGcd(0x11111111, U, V)
  {
    forall d: nat | Div(d, U) && Div(d, V) ensures Div(d, 0x11111111) {
      DivCombine(d, U, V, 1, -16276538892356928630);
    }
  }

  /** The second pass is to reduce by a number that is wider by more than a bit. */
  lemma ShiftsByLess()
    ensures SecondPassBy(U, V, R3, -2)
    ensures Gcd(U, V) == Lost && IsGcd(0x11111111, U, V)
  {
    assert Pow(2, 0) == 1;
    assert Max(U, V) == U && Min(U, V) == V && U >= BASE * BASE;
    hide Weber, OddPart, Zeros, Pow, Gcd, Width, Bdivmod, IsGcd, Odd;
    Odds();
    ReducedToThird();
    FirstPass();
    Divisor();
    Widths();
    OddPartIs(0, U);
    OddPartIs(0, V);
    GcdLarge(U, V, U, V, R3);
  }
}
