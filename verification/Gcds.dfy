/** Weber's greatest common divisor: reductions down to zero, then two passes that take out what these brought in. */
module Gcds {
  import opened Arithmetic
  import opened Digits
  import opened Divisors
  import opened Inverses
  import opened Bdivmods
  import opened Karys

  // ----- reducing to zero -----

  /** One reduction: by `v` alone where `u` is much wider, with two multipliers otherwise. */
  ghost function Next(u: nat, v: nat): nat
    requires Odd(v)
  {
    if Width(u) - Width(v) > 10 then Bdivmod(u, v) else Kary(u, v)
  }

  function Measure(u: nat, v: nat): nat { if u >= v then 2 * u + v else 3 * v }

  lemma NextBound(u: nat, v: nat)
    requires Odd(u) && Odd(v)
    ensures u >= v ==> 3 * Next(u, v) < 2 * u
    ensures u < v ==> Next(u, v) < v
    ensures NumDigits(Next(u, v)) <= NumDigits(v) + 1
  {
    if Width(u) - Width(v) > 10 {
      BdivmodBound(u, v);
      if u <= v { WidthMonotone(u, v); }
    } else {
      KaryBound(u, v);
      WidthRatio(u, v);
      KarySize(u, v, Kary(u, v));
      hide Kary, Width;
      if u >= v { DigitsMonotone(Kary(u, v), v); } else { DigitsMonotone(Kary(u, v), v); }
    }
  }

  lemma KarySize(u: nat, v: nat, r: nat)
    requires u > 0 && v > 0 && r * BASE <= 0x8000 * u + 0x2_0000 * v && u < 2048 * v
    ensures r < v && (u >= v ==> 3 * r < 2 * u)
  {
  }

  lemma WidthRatio(u: nat, v: nat)
    requires v > 0 && Width(u) - Width(v) <= 10
    ensures u < 2048 * v
  {
    WidthBounds(u);
    WidthBounds(v);
    var a, b := Width(u), Width(v);
    hide Width;
    assert Pow(2, 11) == 2048 by { assert Pow(2, 5) == 32; PowAdd(2, 5, 6); assert Pow(2, 6) == 64; }
    hide Pow;
    PowMonotone(2, a + 1, b + 11);
    PowAdd(2, 11, b);
  }

  lemma NextSmaller(u: nat, v: nat)
    requires Odd(u) && Odd(v)
    ensures
      var r := OddPart(Next(u, v));
      Measure(v, r) < Measure(u, v) && (r == 0 || Odd(r))
  {
    NextBound(u, v);
    OddPartFacts(Next(u, v));
  }

  /** The last number before zero. */
  ghost function Weber(u: nat, v: nat): nat
    requires Odd(u) && (v == 0 || Odd(v))
    decreases Measure(u, v)
  {
    if v == 0 then u
    else
      NextSmaller(u, v);
      Weber(v, OddPart(Next(u, v)))
  }

  /** No reduction in place reads a digit left behind. */
  ghost predicate WeberClean(u: nat, v: nat)
    requires Odd(u) && (v == 0 || Odd(v))
    decreases Measure(u, v)
  {
    v == 0 ||
    (NextSmaller(u, v);
     (Width(u) - Width(v) > 10 ==> !Spoiled(u, v, Bits(u, v))) && WeberClean(v, OddPart(Next(u, v))))
  }

  lemma {:induction false} WeberOdd(u: nat, v: nat)
    requires Odd(u) && (v == 0 || Odd(v))
    ensures Odd(Weber(u, v))
    decreases Measure(u, v)
  {
    if v > 0 {
      NextSmaller(u, v);
      WeberOdd(v, OddPart(Next(u, v)));
    }
  }

  lemma NextKept(u: nat, v: nat)
    requires Odd(u) && Odd(v) && (Width(u) - Width(v) > 10 ==> !Spoiled(u, v, Bits(u, v)))
    ensures Kept(u, v, v, OddPart(Next(u, v)))
  {
    var r := Next(u, v);
    if Width(u) - Width(v) > 10 {
      BdivmodExact(u, v);
      ReducedSame(u, v, Bits(u, v));
    } else {
      KaryKept(u, v);
    }
    OddPartFacts(r);
    hide Next, Spoiled, Width;
    forall d: nat | Odd(d) && Div(d, u) && Div(d, v) ensures Div(d, OddPart(r)) {
      assert Div(d, r);
      OddShift(d, OddPart(r), Zeros(r));
    }
  }

  /** Every odd common divisor is kept to the end. */
  lemma {:induction false} WeberKept(u: nat, v: nat)
    requires Odd(u) && (v == 0 || Odd(v)) && WeberClean(u, v)
    ensures forall d: nat :: Odd(d) && Div(d, u) && Div(d, v) ==> Div(d, Weber(u, v))
    decreases Measure(u, v)
  {
    if v > 0 {
      NextSmaller(u, v);
      NextKept(u, v);
      WeberKept(v, OddPart(Next(u, v)));
    }
  }

  /** What is left is less than twice the smaller number. */
  lemma {:induction false} WeberSmall(u: nat, v: nat, b: nat)
    requires Odd(u) && (v == 0 || Odd(v)) && WeberClean(u, v)
    requires v < 2 * u && v < 2 * b && (u < 2 * b || v == b)
    ensures Weber(u, v) < 2 * b
    decreases Measure(u, v)
  {
    if v > 0 {
      var r := Next(u, v);
      if Width(u) - Width(v) > 10 {
        BdivmodExact(u, v);
        ReducedBound(u, v);
        WidthTriple(u, v);
      } else {
        KaryBound(u, v);
        WidthRatio(u, v);
        KaryShrinks(u, v, r);
      }
      NextSmaller(u, v);
      OddPartFacts(r);
      hide Next, Spoiled, Width;
      WeberSmall(v, OddPart(r), b);
    }
  }

  lemma KaryShrinks(u: nat, v: nat, r: nat)
    requires u > 0 && v < 2 * u && u < 2048 * v && r * BASE <= 0x8000 * u + 0x2_0000 * v
    ensures r < v && r < u
  {
  }

  // ----- subtracting and shifting -----

  /** What the machine finds: a number, or nothing that the language defines or that can be relied on. */
  datatype Result = Found(value: nat) | Lost

  /** Subtracting `x` in place loses a borrow: it falls to a digit that is zero. */
  ghost predicate BorrowLost(y: nat, x: nat) {
    var w := W(NumDigits(x));
    y % w < x && (y / w) % BASE == 0
  }

  /** What is left in place of the difference: a zero digit from which a borrow is taken becomes the largest one. */
  ghost function Difference(y: nat, x: nat): nat
    requires x <= y
  {
    if BorrowLost(y, x) then y - x + W(NumDigits(x) + 1) else y - x
  }

  lemma HighDigit(y: nat)
    requires y < BASE * BASE
    ensures y / BASE < BASE
  {
  }

  lemma BorrowKept(y: nat, x: nat)
    requires x <= y < BASE * BASE && x > 0
    ensures !BorrowLost(y, x)
  {
    var m := NumDigits(x);
    NumDigitsBounds(x);
    var w := W(m);
    assert y == w * (y / w) + y % w;
    if m >= 2 {
      PowMonotone(BASE, 2, m);
      assert W(2) == BASE * W(1) && W(1) == BASE * W(0);
      Divided(0, y, w);
    } else {
      assert W(1) == BASE * W(0);
      HighDigit(y);
    }
  }

  /** The binary algorithm: shift out zeros, subtract the smaller from the larger. */
  ghost function Binary(u: nat, v: nat): Result
    requires u > 0
    decreases u + v
  {
    if v == 0 then Found(u)
    else
      OddPartFacts(v);
      var w := OddPart(v);
      var x, y := if w < u then w else u, if w < u then u else w;
      if BorrowLost(y, x) then Lost else Binary(x, y - x)
  }

  /** The two numbers of the binary algorithm. */
  datatype Pair = Pair(u: nat, v: nat)

  ghost function Smaller(p: Pair): nat { Min(p.u, OddPart(p.v)) }
  ghost function Larger(p: Pair): nat { Max(p.u, OddPart(p.v)) }

  /** The numbers after a round of the loop in place, whether a borrow is lost or not. */
  ghost function Round(p: Pair): (r: Pair)
    requires p.u > 0 && p.v > 0
    ensures r.u > 0
  {
    OddPartFacts(p.v);
    Pair(Smaller(p), Difference(Larger(p), Smaller(p)))
  }

  /** Without a lost borrow the round is one of the binary algorithm. */
  lemma RoundFinds(p: Pair)
    requires p.u > 0 && p.v > 0
    ensures 0 < Smaller(p) <= Larger(p) && Smaller(p) + Larger(p) <= p.u + p.v
    ensures BorrowLost(Larger(p), Smaller(p)) ==> Binary(p.u, p.v).Lost?
    ensures !BorrowLost(Larger(p), Smaller(p)) ==>
      Binary(p.u, p.v) == Binary(Round(p).u, Round(p).v) && Round(p).u + Round(p).v < p.u + p.v
  {
    OddPartFacts(p.v);
    hide BorrowLost, OddPart, Zeros;
  }

  /** The pairs have the same odd common divisors. */
  ghost predicate SameOdd(a: nat, b: nat, a1: nat, b1: nat) {
    forall d: nat :: Odd(d) ==> (Div(d, a) && Div(d, b) <==> Div(d, a1) && Div(d, b1))
  }

  lemma StripSame(u: nat, v: nat)
    ensures SameOdd(u, v, u, OddPart(v))
  {
    OddPartFacts(v);
    forall d: nat | Odd(d) ensures Div(d, v) <==> Div(d, OddPart(v)) {
      if d > 0 { OddShift(d, OddPart(v), Zeros(v)); }
    }
  }

  lemma SubSame(u: nat, v: nat)
    requires u <= v
    ensures SameOdd(u, v, u, v - u)
  {
    forall d: nat | Odd(d) ensures Div(d, u) && Div(d, v) <==> Div(d, u) && Div(d, v - u) {
      if Div(d, u) && Div(d, v) { DivCombine(d, v, u, 1, 1); }
      if Div(d, u) && Div(d, v - u) { DivCombine(d, v - u, u, 1, 1); }
    }
  }

  lemma BinaryStep(u: nat, v: nat, x: nat, y: nat)
    requires v > 0 && (Odd(u) || Odd(v))
    requires x <= y && ((x == u && y == OddPart(v)) || (x == OddPart(v) && y == u))
    ensures SameOdd(u, v, x, y - x) && (Odd(x) || Odd(y - x))
  {
    StripSame(u, v);
    SubSame(x, y);
    OddPartFacts(v);
    hide Div, OddPart, Zeros, Pow;
  }

  /** Where no borrow is lost the result is the odd greatest common divisor. */
  lemma {:induction false} BinaryExact(u: nat, v: nat)
    requires u > 0 && (Odd(u) || Odd(v)) && Binary(u, v).Found?
    ensures Odd(Binary(u, v).value) && IsOddGcd(Binary(u, v).value, u, v)
    decreases u + v
  {
    if v == 0 {
      DivTimes(u, 1);
      DivTimes(u, 0);
    } else {
      OddPartFacts(v);
      var w := OddPart(v);
      var x, y := if w < u then w else u, if w < u then u else w;
      hide Div, IsOddGcd, SameOdd, OddPart, Zeros, BorrowLost, Odd;
      BinaryStep(u, v, x, y);
      BinaryExact(x, y - x);
      SameGcd(Binary(u, v).value, u, v, x, y - x);
    }
  }

  lemma SameGcd(g: nat, a: nat, b: nat, a1: nat, b1: nat)
    requires SameOdd(a, b, a1, b1) && IsOddGcd(g, a1, b1) && Odd(g)
    ensures IsOddGcd(g, a, b)
  {
  }

  /** Below two digits no borrow is lost. */
  lemma {:induction false} BinarySmall(u: nat, v: nat)
    requires 0 < u < BASE * BASE && v < BASE * BASE
    ensures Binary(u, v).Found?
    decreases u + v
  {
    if v > 0 {
      OddPartFacts(v);
      var w := OddPart(v);
      var x, y := if w < u then w else u, if w < u then u else w;
      hide BorrowLost, OddPart, Zeros;
      BorrowKept(y, x);
      BinarySmall(x, y - x);
    }
  }

  // ----- taking out what the reductions brought in -----

  ghost function Fix(x: nat, g: nat): Result
    requires Odd(g)
  {
    if Bits(x, g) < 0 then Lost
    else
      var t := Bdivmod(x, g);
      if t == 0 then Found(g) else Binary(t, g)
  }

  /** The reduction reads no digit left behind, and no borrow is lost. */
  ghost predicate FixClean(x: nat, g: nat)
    requires Odd(g)
  {
    Bits(x, g) >= 0 ==>
      !Spoiled(x, g, Bits(x, g)) && (Bdivmod(x, g) > 0 ==> Binary(Bdivmod(x, g), g).Found?)
  }

  lemma WidthDouble(g: nat, x: nat)
    requires g < 2 * x
    ensures Bits(x, g) >= 0
  {
    WidthMonotone(g, 2 * x);
    if x >= 1 { assert Width(2 * x) == 1 + Width(2 * x / 2); }
  }

  lemma FixExact(x: nat, g: nat)
    requires Odd(g) && FixClean(x, g) && g < 2 * x
    ensures Fix(x, g).Found?
    ensures var r := Fix(x, g).value; Odd(r) && IsOddGcd(r, x, g) && 0 < r <= g
  {
    WidthDouble(g, x);
    FoundExact(x, g);
  }

  lemma FoundExact(x: nat, g: nat)
    requires Odd(g) && FixClean(x, g) && Fix(x, g).Found?
    ensures var r := Fix(x, g).value; Odd(r) && IsOddGcd(r, x, g) && 0 < r <= g
  {
    BdivmodExact(x, g);
    ReducedSame(x, g, Bits(x, g));
    var t, r := Bdivmod(x, g), Fix(x, g).value;
    if t == 0 {
      hide Bdivmod, Reduced, Spoiled, Pow;
      FixZero(x, g);
    } else {
      BinaryExact(t, g);
      hide Bdivmod, Reduced, Spoiled, Pow, Binary;
      FixSame(x, t, g, r);
    }
    DivBound(r, g);
  }

  lemma FixZero(x: nat, g: nat)
    requires Odd(g) && g > 0 && SameFor(x, 0, g)
    ensures IsOddGcd(g, x, g)
  {
    DivTimes(g, 1);
    DivTimes(g, 0);
    assert Div(g, x);
  }

  lemma FixSame(x: nat, t: nat, g: nat, r: nat)
    requires SameFor(x, t, g) && IsOddGcd(r, t, g) && Odd(r)
    ensures IsOddGcd(r, x, g)
  {
    assert Div(r, x);
  }

  // ----- the whole -----

  /** Both passes, one with each of the numbers given. */
  ghost function Fixed(u0: nat, v0: nat, w: nat): Result
    requires Odd(w)
  {
    var r := Fix(u0, w);
    if r.Found? then FixOdd(u0, w); Fix(v0, r.value) else Lost
  }

  lemma {:induction false} BinaryOdd(u: nat, v: nat)
    requires u > 0 && (Odd(u) || Odd(v)) && Binary(u, v).Found?
    ensures Odd(Binary(u, v).value)
  {
    BinaryExact(u, v);
  }

  lemma FixOdd(x: nat, g: nat)
    requires Odd(g) && Fix(x, g).Found?
    ensures Odd(Fix(x, g).value)
  {
    if Bdivmod(x, g) > 0 { BinaryOdd(Bdivmod(x, g), g); }
  }

  /** The odd greatest common divisor of the odd numbers `u` and `v`, v <= u, taken from `u0` and `v0`. */
  ghost function OddGcd(u0: nat, v0: nat, u: nat, v: nat): Result
    requires Odd(u) && Odd(v)
  {
    if u < BASE * BASE then Binary(u, v) else WeberOdd(u, v); Fixed(u0, v0, Weber(u, v))
  }


  function ShiftLeft(r: Result, n: nat): Result {
    if r.Found? then Found(Pow(2, n) * r.value) else Lost
  }

  ghost function Gcd(u0: nat, v0: nat): Result {
    if u0 == 0 || v0 == 0 then Found(0)
    else
      OddPartFacts(u0);
      OddPartFacts(v0);
      var a, b := OddPart(u0), OddPart(v0);
      ShiftLeft(OddGcd(u0, v0, Max(a, b), Min(a, b)), Min(Zeros(u0), Zeros(v0)))
  }

  lemma GcdByOdd(a: nat, b: nat)
    requires a > 0 && b > 0
    ensures Odd(OddPart(a)) && Odd(OddPart(b))
    ensures
      var x, y := OddPart(a), OddPart(b);
      Gcd(a, b) == ShiftLeft(OddGcd(a, b, Max(x, y), Min(x, y)), Min(Zeros(a), Zeros(b)))
  {
    OddPartFacts(a);
    OddPartFacts(b);
    hide OddGcd, OddPart, Pow, Zeros;
  }

  /** In no part of the computation a digit left behind is read or a borrow is lost. */
  ghost predicate Clean(u0: nat, v0: nat)
    requires u0 > 0 && v0 > 0
  {
    OddPartFacts(u0);
    OddPartFacts(v0);
    var a, b := OddPart(u0), OddPart(v0);
    var u, v := Max(a, b), Min(a, b);
    u >= BASE * BASE ==>
      && WeberClean(u, v)
      && (WeberOdd(u, v);
          var w := Weber(u, v);
          FixClean(u0, w) && (Fix(u0, w).Found? ==> (FixOdd(u0, w); FixClean(v0, Fix(u0, w).value))))
  }

  /** The two passes leave exactly the odd common divisors of the numbers. */
  lemma FixTwice(u0: nat, v0: nat, w: nat, g1: nat, g: nat)
    requires u0 > 0 && v0 > 0 && Odd(g) && Odd(g1) && g > 0
    requires forall d: nat :: Odd(d) && Div(d, OddPart(u0)) && Div(d, OddPart(v0)) ==> Div(d, w)
    requires IsOddGcd(g1, u0, w) && IsOddGcd(g, v0, g1)
    ensures IsOddGcd(g, OddPart(u0), OddPart(v0))
  {
    var a, b, x, y := OddPart(u0), OddPart(v0), Zeros(u0), Zeros(v0);
    OddPartFacts(u0);
    OddPartFacts(v0);
    hide OddPart, Zeros;
    DivTrans(g, g1, u0);
    OddShift(g, a, x);
    OddShift(g, b, y);
    forall d: nat | Odd(d) && Div(d, a) && Div(d, b) ensures Div(d, g) {
      OddShift(d, a, x);
      OddShift(d, b, y);
      assert Div(d, w) && Div(d, u0) && Div(d, v0);
      assert Div(d, g1);
    }
  }

  lemma OddGcdExact(u0: nat, v0: nat)
    requires u0 > 0 && v0 > 0 && Clean(u0, v0)
    ensures Odd(OddPart(u0)) && Odd(OddPart(v0))
    ensures
      var a, b := OddPart(u0), OddPart(v0);
      var r := OddGcd(u0, v0, Max(a, b), Min(a, b));
      r.Found? && Odd(r.value) && r.value > 0 && IsOddGcd(r.value, a, b)
  {
    OddPartFacts(u0);
    OddPartFacts(v0);
    var a, b := OddPart(u0), OddPart(v0);
    var u, v := Max(a, b), Min(a, b);
    if u < BASE * BASE {
      BinarySmall(u, v);
      BinaryExact(u, v);
    } else {
      WeberOdd(u, v);
      WeberKept(u, v);
      WeberSmall(u, v, v);
      var w := Weber(u, v);
      FixExact(u0, w);
      FixOdd(u0, w);
      FixExact(v0, Fix(u0, w).value);
      hide Fix, FixClean, Weber, WeberClean, Zeros, Pow, IsOddGcd, Div;
      FixTwice(u0, v0, w, Fix(u0, w).value, Fix(v0, Fix(u0, w).value).value);
    }
  }

  /** Where nothing is spoiled and no borrow is lost the result is the greatest common divisor. */
  lemma GcdExact(u0: nat, v0: nat)
    requires u0 > 0 && v0 > 0 && Clean(u0, v0)
    ensures Gcd(u0, v0).Found? && IsGcd(Gcd(u0, v0).value, u0, v0)
  {
    OddGcdExact(u0, v0);
    var a, b := OddPart(u0), OddPart(v0);
    var r := OddGcd(u0, v0, Max(a, b), Min(a, b));
    OddPartFacts(u0);
    OddPartFacts(v0);
    var g := Gcd(u0, v0);
    hide Clean, OddGcd, OddPart, IsOddGcd, IsGcd, Pow;
    ShiftedGcd(r.value, a, Zeros(u0), b, Zeros(v0));
  }
}
