/** Two numbers for which a borrow is lost, and the loop that never ends then. */
module LostBorrows {
  import opened Arithmetic
  import opened Digits
  import opened Divisors
  import opened Inverses
  import opened Bdivmods
  import opened Karys
  import opened Gcds
  import opened GcdConditions
  import opened GcdRuns

  // ----- the loop, borrows lost or not -----

  /** At most `n` rounds, fewer if the second number becomes zero. */
  ghost function Rounds(p: Pair, n: nat): (r: Pair)
    requires p.u > 0
    ensures r.u > 0
    decreases n
  {
    if n == 0 || p.v == 0 then p else Rounds(Round(p), n - 1)
  }

  /** Where no borrow is lost the loop ends, with what the binary algorithm finds. */
  lemma {:induction false} FoundByRounds(u: nat, v: nat) returns (n: nat)
    requires u > 0 && Binary(u, v).Found?
    ensures Rounds(Pair(u, v), n) == Pair(Binary(u, v).value, 0)
    decreases u + v
  {
    n := 0;
    if v > 0 {
      var p := Pair(u, v);
      RoundFinds(p);
      p := Round(p);
      hide Round;
      n := FoundByRounds(p.u, p.v);
      n := n + 1;
    }
  }

  /** An odd number of at least three digits, from which an even one of one digit is taken. */
  ghost predicate Endless(p: Pair) {
    0 < p.u < BASE && p.u % 2 == 0 && p.v % 2 == 1 && p.v >= BASE * BASE
  }

  /** The digits above the second stay as they are: a borrow that would change them is lost. */
  lemma RoundEndless(p: Pair)
    requires Endless(p)
    ensures Endless(Round(p)) && Round(p).u == p.u && Round(p).v / (BASE * BASE) == p.v / (BASE * BASE)
  {
    Weights();
    DigitsOf(p.u, 1);
    assert Pow(2, 0) == 1;
    OddPartIs(0, p.v);
    hide OddPart, Zeros, W, NumDigits, Pow;
    TakenFrom(p.v, p.u);
  }

  lemma TakenFrom(y: nat, x: nat)
    requires 0 < x < BASE && y >= BASE * BASE
    ensures
      var z := if y % BASE < x && (y / BASE) % BASE == 0 then y - x + BASE * BASE else y - x;
      z >= BASE * BASE && z / (BASE * BASE) == y / (BASE * BASE)
  {
    var w := BASE * BASE;
    var q, r := y / w, y % w;
    assert y == w * q + r && q >= 1;
    assert y % BASE == r % BASE && (y / BASE) % BASE == r / BASE;
    var z := if y % BASE < x && (y / BASE) % BASE == 0 then r - x + w else r - x;
    assert 0 <= z < w;
    Divided(q, z, w);
  }

  /** The loop never ends. */
  lemma {:induction false} NeverEnds(p: Pair, n: nat)
    requires Endless(p)
    ensures Endless(Rounds(p, n)) && Rounds(p, n).v / (BASE * BASE) == p.v / (BASE * BASE)
    decreases n
  {
    if n > 0 {
      RoundEndless(p);
      hide Round;
      NeverEnds(Round(p), n - 1);
    }
  }

  // ----- the numbers -----

  const U: nat := 0x1_00000000_00000015_f161e63b_b0f31d19
  const V: nat := 0x1_2e8ba2e8_d5af9a73

  /** What the reductions leave, one after the other. */
  const R1: nat := 0x7fffffff_0ba2e8ba_68ba2e8b
  const R2: nat := 0xd_00000001_2e8ba2f1
  const R3: nat := 0x1_00000000_1745d175

  /** What the first pass reduces its operand to. */
  const T: nat := 0x44c2a506

  lemma Odds()
    ensures Odd(U) && Odd(V) && Odd(R1) && Odd(R2) && Odd(R3)
  {
    hide Odd;
    OddIs(U, 0x80000000_0000000a_f8b0f31d_d8798e8c);
    OddIs(V, 0x9745d174_6ad7cd39);
    OddIs(R1, 0x3fffffff_85d1745d_345d1745);
    OddIs(R2, 0x6_80000000_9745d178);
    OddIs(R3, 0x80000000_0ba2e8ba);
  }

  lemma Widths()
    ensures Width(U) == 128 && Width(V) == 64 && Width(R1) == 94 && Width(R2) == 67 && Width(R3) == 64
  {
    Weights();
    WNext(3);
    PowerTable();
    assert Pow(2, 0) == 1;
    assert Pow(2, 30) == 0x4000_0000 by { PowAdd(2, 20, 10); }
    hide W, Pow, Width, Odd;
    WidthByDigits(U, 4, 0, W(4), 1);
    WidthByDigits(V, 2, 0, W(2), 1);
    WidthByDigits(R1, 2, 30, W(2), 0x4000_0000);
    WidthByDigits(R2, 2, 3, W(2), 8);
    WidthByDigits(R3, 2, 0, W(2), 1);
  }

  lemma FirstReduction()
    ensures Next(U, V) == R1
  {
    Odds();
    Widths();
    Weights();
    DigitsOf(V, 3);
    hide W, Pow, Width, NumDigits, Next, Odd;
    SpoiledNext(U, V, 3, 0x1ca4b43, 0xffffffff_fde26152_658dc087, 0x9d89d89d, 0x45d1745d_a723f789, 0xffffffff,
                0xfde26152_658dc087, R1);
  }

  lemma SecondReduction()
    ensures Next(V, R1) == R2
  {
    Odds();
    Widths();
    hide Bdivmod, Kary, Multipliers, Next, Odd, Pow, RatPair, Width;
    MultipliersFrom(V, R1, 195225785, -1800640045441647278532968583);
    RatStep(195225785, 1, 4099741511, -1, 0, 195225785);
    RatStep(4099741511, -1, 195225785, 1, 21, 26);
    RatEnd(195225785, 1, 26, -22);
    MultipliersGive(V, R1, 26, -22, R2);
  }

  lemma ThirdReduction()
    ensures Next(R1, R2) == R3
  {
    Odds();
    Widths();
    assert Pow(2, 28) == 0x1000_0000 by { PowerTable(); PowAdd(2, 20, 5); PowAdd(2, 25, 3); }
    hide Next, Width, Pow, Odd;
    NextByBits(R1, R2, 28, 0x1000_0000, 0xb13b13b, R3);
  }

  lemma FourthReduction()
    ensures Next(R2, R3) == 0
  {
    Odds();
    Widths();
    hide Bdivmod, Kary, Multipliers, Next, Odd, Pow, RatPair, Width;
    MultipliersFrom(R2, R3, 13, 0);
    RatStep(13, 1, 4294967283, -1, 0, 13);
    RatEnd(4294967283, -1, 13, 1);
    MultipliersGive(R2, R3, 13, 1, 0);
  }

  lemma ReducedToThird()
    ensures Weber(U, V) == R3
  {
    FirstReduction();
    SecondReduction();
    ThirdReduction();
    FourthReduction();
    Odds();
    assert Pow(2, 0) == 1;
    OddPartIs(0, R1);
    OddPartIs(0, R2);
    OddPartIs(0, R3);
    assert OddPart(0) == 0;
    hide Next, OddPart, Measure, Zeros, Pow, Odd;
    assert Weber(R3, 0) == R3;
    assert Weber(R2, R3) == R3;
    assert Weber(R1, R2) == R3;
    assert Weber(V, R1) == R3;
  }

  /** The first pass reads nothing left behind: the bit left is not set. */
  lemma FirstPass()
    ensures Bits(U, R3) == 65 && Odd(R3) && Bdivmod(U, R3) == T
  {
    Odds();
    Widths();
    Weights();
    DigitsOf(R3, 3);
    hide Bdivmod, W, Width, NumDigits, Odd;
    UnspoiledBits(U, R3, 3, 0x5f34e495, 0xffffffff_a0cb1b80_e8ba2e8b, 0xffffffff, 0x89854a0c, 0xffffffff,
                  0xa0cb1b80_e8ba2e8b, 0x7fffffff_80000000_44c2a506);
  }

  lemma Coprime()
    ensures IsGcd(1, U, V)
  {
    forall d: nat | Div(d, U) && Div(d, V) ensures Div(d, 1) {
      DivCombine(d, U, V, -2278562127426840429, 35565582816754208940302050246759979842);
    }
  }

  lemma BorrowFalls()
    ensures BorrowLost(R3, T) && Binary(T, R3) == Lost
  {
    Weights();
    DigitsOf(T, 1);
    assert Pow(2, 0) == 1;
    OddPartIs(0, R3);
    hide OddPart, Zeros, W, NumDigits, Pow;
    assert BASE * 0x1_00000000 + 0x1745d175 == R3;
    Divided(0x1_00000000, 0x1745d175, BASE);
  }

  /** The numbers have no common divisor; a borrow is lost, and the loop of the first pass never ends. */
  lemma LoopsForever()
    ensures FirstPassTakes(U, V, R3, T)
    ensures forall n: nat :: Rounds(Pair(T, R3), n).v > 0
    ensures Gcd(U, V) == Lost && IsGcd(1, U, V)
  {
    assert Pow(2, 0) == 1;
    assert Max(U, V) == U && Min(U, V) == V && U >= BASE * BASE;
    assert Endless(Pair(T, R3));
    hide Weber, OddPart, Zeros, Pow, Gcd, Width, Bdivmod, IsGcd, Binary, BorrowLost, Rounds, Odd;
    Odds();
    ReducedToThird();
    FirstPass();
    BorrowFalls();
    Coprime();
    OddPartIs(0, U);
    OddPartIs(0, V);
    GcdLarge(U, V, U, V, R3);
    forall n: nat ensures Rounds(Pair(T, R3), n).v > 0 { NeverEnds(Pair(T, R3), n); }
  }
}
