/** Divisibility, powers of two and greatest common divisors. */
module Divisors {
  import opened Arithmetic
  import opened Digits

  ghost predicate Div(d: nat, x: int) {
    d > 0 && x % d == 0
  }

  ghost predicate Odd(x: int) { x % 2 == 1 }

  /** `g` divides both, and whatever divides both divides `g`. */
  ghost predicate IsGcd(g: nat, a: nat, b: nat) {
    Div(g, a) && Div(g, b) && forall d: nat :: Div(d, a) && Div(d, b) ==> Div(d, g)
  }

  lemma DivTimes(d: nat, k: int)
    requires d > 0
    ensures Div(d, d * k) && Div(d, k * d)
  {
    UniqueInt(d, d * k, k, 0);
    Commute(d, k);
  }

  /** Quotient and remainder of an integer are determined. */
  lemma UniqueInt(d: nat, x: int, q: int, r: int)
    requires d > 0 && 0 <= r < d && x == d * q + r
    ensures x / d == q && x % d == r
  {
    Unique(x / d, x % d, q, r, d);
  }

  lemma DivQuotient(d: nat, x: int) returns (k: int)
    requires Div(d, x)
    ensures x == d * k
  {
    k := x / d;
  }

  /** A divisor of two numbers divides what is combined from them. */
  lemma DivCombine(d: nat, x: int, y: int, a: int, b: int)
    requires Div(d, x) && Div(d, y)
    ensures Div(d, a * x + b * y) && Div(d, a * x - b * y)
  {
    var i := DivQuotient(d, x);
    var j := DivQuotient(d, y);
    Combined(d, x, y, a, b, i, j);
    hide Div;
    DivTimes(d, a * i + b * j);
    DivTimes(d, a * i - b * j);
  }

  lemma Combined(d: int, x: int, y: int, a: int, b: int, i: int, j: int)
    requires x == d * i && y == d * j
    ensures a * x + b * y == d * (a * i + b * j) && a * x - b * y == d * (a * i - b * j)
  {
    Regroup(a, d, i);
    Regroup(b, d, j);
    Distribute(a * i, b * j, d);
  }

  lemma Regroup(a: int, d: int, i: int)
    ensures a * (d * i) == d * (a * i)
  {
  }

  lemma DivNegative(d: nat, x: int)
    requires Div(d, x)
    ensures Div(d, -x)
  {
    var k := DivQuotient(d, x);
    DivTimes(d, -k);
    assert d * (-k) == -(d * k);
  }

  lemma DivTrans(d: nat, e: nat, x: int)
    requires Div(d, e) && Div(e, x)
    ensures Div(d, x)
  {
    var i := DivQuotient(d, e);
    var j := DivQuotient(e, x);
    Assoc(d, i, j);
    DivTimes(d, i * j);
  }

  /** A divisor of a positive number does not exceed it. */
  lemma DivBound(d: nat, x: nat)
    requires Div(d, x) && x > 0
    ensures d <= x
  {
    var k := DivQuotient(d, x);
    if k <= 0 { MulLe(k, 0, d); }
    MulLe(1, k, d);
  }

  // ----- powers of two -----

  /** An odd divisor of a double divides the half. */
  lemma OddHalf(d: nat, x: int)
    requires Div(d, 2 * x) && Odd(d)
    ensures Div(d, x)
  {
    var k := DivQuotient(d, 2 * x);
    var i := d / 2;
    assert d == 2 * i + 1;
    Distribute(2 * i, 1, k);
    Assoc(2, i, k);
    assert k == 2 * (x - i * k);
    var j := x - i * k;
    Regroup(2, d, j);
    DivTimes(d, j);
  }

  lemma {:induction false} OddShift(d: nat, x: int, n: nat)
    requires Odd(d) && d > 0
    ensures Div(d, Pow(2, n) * x) <==> Div(d, x)
    decreases n
  {
    if Div(d, x) { DivCombine(d, x, x, Pow(2, n), 0); }
    if n > 0 {
      Assoc(2, Pow(2, n - 1), x);
      if Div(d, Pow(2, n) * x) { OddHalf(d, Pow(2, n - 1) * x); }
      OddShift(d, x, n - 1);
    }
  }

  /** How many low bits are zero. */
  ghost function Zeros(x: nat): nat {
    if x > 0 && x % 2 == 0 then 1 + Zeros(x / 2) else 0
  }

  ghost function OddPart(x: nat): nat {
    if x > 0 && x % 2 == 0 then OddPart(x / 2) else x
  }

  /** Every positive number is an odd number shifted. */
  lemma {:induction false} OddPartFacts(x: nat)
    ensures x == Pow(2, Zeros(x)) * OddPart(x) && OddPart(x) <= x
    ensures (x > 0 ==> Odd(OddPart(x))) && (x == 0 ==> OddPart(x) == 0)
    decreases x
  {
    assert Pow(2, 0) == 1;
    if x > 0 && x % 2 == 0 {
      OddPartFacts(x / 2);
      Assoc(2, Pow(2, Zeros(x / 2)), OddPart(x / 2));
    }
  }

  lemma {:induction false} OddPartIs(z: nat, o: nat)
    requires Odd(o)
    ensures OddPart(Pow(2, z) * o) == o && Zeros(Pow(2, z) * o) == z
    decreases z
  {
    if z == 0 {
      assert Pow(2, 0) * o == o;
    } else {
      Assoc(2, Pow(2, z - 1), o);
      MulLt(0, Pow(2, z - 1), o);
      OddPartIs(z - 1, o);
    }
  }

  lemma NotTwice(o: nat, m: int, one: nat)
    requires one == 1 && one * o == 2 * m
    ensures !Odd(o)
  {
  }

  /** A power of two divides a shifted odd number only up to the shift. */
  lemma {:induction false} PowDivides(j: nat, z: nat, o: nat)
    requires Div(Pow(2, j), Pow(2, z) * o) && Odd(o)
    ensures j <= z
    decreases j
  {
    if j > 0 {
      var k := DivQuotient(Pow(2, j), Pow(2, z) * o);
      Assoc(2, Pow(2, j - 1), k);
      if z == 0 {
        NotTwice(o, Pow(2, j - 1) * k, Pow(2, z));
      } else {
        Assoc(2, Pow(2, z - 1), o);
        assert Pow(2, z - 1) * o == Pow(2, j - 1) * k;
        DivTimes(Pow(2, j - 1), k);
        PowDivides(j - 1, z - 1, o);
      }
    }
  }

  /** The greatest common divisor of shifted odd numbers. */
  lemma ShiftedGcd(g: nat, a: nat, x: nat, b: nat, y: nat)
    requires Odd(g) && g > 0 && Odd(a) && Odd(b) && IsOddGcd(g, a, b)
    ensures IsGcd(Pow(2, if x < y then x else y) * g, Pow(2, x) * a, Pow(2, y) * b)
  {
    var n := if x < y then x else y;
    var r := Pow(2, n) * g;
    MulLt(0, Pow(2, n), g);
    ShiftDivides(g, n, a, x);
    ShiftDivides(g, n, b, y);
    forall d: nat | Div(d, Pow(2, x) * a) && Div(d, Pow(2, y) * b) ensures Div(d, r) {
      var z, o := Zeros(d), OddPart(d);
      OddPartFacts(d);
      hide Zeros, OddPart;
      Commute(Pow(2, z), o);
      DivTimes(o, Pow(2, z));
      DivTimes(Pow(2, z), o);
      DivTrans(o, d, Pow(2, x) * a); DivTrans(o, d, Pow(2, y) * b);
      OddShift(o, a, x); OddShift(o, b, y);
      DivTrans(Pow(2, z), d, Pow(2, x) * a); DivTrans(Pow(2, z), d, Pow(2, y) * b);
      PowDivides(z, x, a); PowDivides(z, y, b);
      ShiftDivides(o, z, g, n);
    }
  }

  lemma ShiftDivides(g: nat, n: nat, a: nat, x: nat)
    requires Div(g, a) && n <= x
    ensures Div(Pow(2, n) * g, Pow(2, x) * a)
  {
    MulLt(0, Pow(2, n), g);
    var k := DivQuotient(g, a);
    PowAdd(2, n, x - n);
    var p, q := Pow(2, n), Pow(2, x - n);
    Four(p, q, g, k);
    DivTimes(p * g, q * k);
  }

  lemma Four(p: int, q: int, g: int, k: int)
    ensures (p * q) * (g * k) == (p * g) * (q * k)
  {
  }

  /** The greatest of the odd common divisors. */
  ghost predicate IsOddGcd(g: nat, a: nat, b: nat) {
    Div(g, a) && Div(g, b) && forall d: nat :: Odd(d) && Div(d, a) && Div(d, b) ==> Div(d, g)
  }

  /** Every odd common divisor of the first pair divides both of the second. */
  ghost predicate Kept(a: nat, b: nat, a1: nat, b1: nat) {
    forall d: nat :: Odd(d) && Div(d, a) && Div(d, b) ==> Div(d, a1) && Div(d, b1)
  }
}
