/** Congruence, and quotients modulo powers of two. */
module Inverses {
  import opened Arithmetic
  import opened Digits
  import opened Divisors

  // ----- inverses modulo a power of two -----

  /** Equal modulo `m`. */
  ghost predicate Congruent(x: int, y: int, m: nat) { Div(m, x - y) }

  lemma CongruentTimes(x: int, y: int, m: nat, k: int)
    requires Congruent(x, y, m)
    ensures Congruent(x * k, y * k, m) && Congruent(k * x, k * y, m)
  {
    DivCombine(m, x - y, x - y, k, 0);
    Distribute(x, y, k);
  }

  lemma CongruentAdd(x: int, y: int, z: int, m: nat)
    requires Congruent(x, y, m) && Congruent(y, z, m)
    ensures Congruent(x, z, m)
  {
    DivCombine(m, x - y, y - z, 1, 1);
  }

  lemma CongruentMod(x: int, m: nat)
    requires m > 0
    ensures Congruent(x % m, x, m) && Congruent(x, x % m, m)
  {
    assert x == m * (x / m) + x % m;
    DivTimes(m, x / m);
    DivNegative(m, m * (x / m));
  }

  /** The square of a number that is one modulo 2^i is one modulo 2^(i+1). */
  lemma SquareNearOne(x: int, i: nat)
    requires Congruent(x, 1, Pow(2, i)) && i >= 1
    ensures Congruent(x * x, 1, Pow(2, i + 1))
  {
    var k := DivQuotient(Pow(2, i), x - 1);
    var m := Pow(2, i);
    var j := k + Pow(2, i - 1) * k * k;
    assert m == 2 * Pow(2, i - 1);
    Square(x, m, Pow(2, i - 1), k);
    DivTimes(2 * m, j);
  }

  lemma Square(x: int, m: int, h: int, k: int)
    requires x - 1 == m * k && m == 2 * h
    ensures x * x - 1 == (2 * m) * (k + h * k * k)
  {
    assert x == m * k + 1;
    assert x * x == (m * k) * (m * k) + 2 * (m * k) + 1;
    assert (m * k) * (m * k) == (2 * m) * (h * k * k);
    Distribute(k, h * k * k, 2 * m);
  }

  /** The inverse of an odd digit: all its powers with exponents 1, 2, 4, ... are multiplied. */
  method DigitInverse(v: digit) returns (result: digit)
    requires Odd(v)
    ensures Congruent(result * v, 1, BASE)
  {
    var b, d: digit := BASE - 1, v;
    result := 1;
    ghost var i: nat := 1;
    assert Pow(2, 1) == 2;
    Pow32();
    assert b == Pow(2, 33 - i) - 1;
    StartInverse(v);
    while true
      invariant 1 <= i <= 32 && b == Pow(2, 33 - i) - 1
      invariant Congruent(result * v, d, BASE) && Congruent(d, 1, Pow(2, i))
      decreases b
    {
      ghost var r := result;
      InverseStep(result, d, v);
      result := (result * d) % BASE;
      assert Pow(2, 33 - i) == 2 * Pow(2, 32 - i);
      b := b / 2;
      if b == 0 {
        LastSquare(d, i);
        CongruentAdd(result * v, d * d, 1, BASE);
        return;
      }
      SquareNearOne(d, i);
      NextSquare(d, i);
      CongruentMod(d * d, BASE);
      CongruentAdd(result * v, d * d, (d * d) % BASE, BASE);
      d := (d * d) % BASE;
      i := i + 1;
    }
  }

  lemma Pow32()
    ensures Pow(2, 32) == BASE
  {
    assert Pow(2, 8) == 256 by { assert Pow(2, 4) == 16; PowAdd(2, 4, 4); }
    PowAdd(2, 8, 8);
    PowAdd(2, 16, 16);
  }

  lemma StartInverse(v: digit)
    requires Odd(v)
    ensures Congruent(1 * v, v, BASE) && Congruent(v, 1, Pow(2, 1))
  {
    assert Pow(2, 1) == 2;
  }

  lemma InverseStep(result: digit, d: digit, v: digit)
    requires Congruent(result * v, d, BASE)
    ensures Congruent(((result * d) % BASE) * v, d * d, BASE)
  {
    CongruentTimes(result * v, d, BASE, d);
    CongruentMod(result * d, BASE);
    CongruentTimes((result * d) % BASE, result * d, BASE, v);
    Swap(result, d, v);
    assert (result * d) * v == (result * v) * d;
    CongruentAdd(((result * d) % BASE) * v, (result * d) * v, d * d, BASE);
  }

  lemma NextSquare(d: digit, i: nat)
    requires Congruent(d * d, 1, Pow(2, i + 1)) && i + 1 <= 32
    ensures Congruent((d * d) % BASE, 1, Pow(2, i + 1))
  {
    CongruentMod(d * d, BASE);
    Pow32();
    PowAdd(2, i + 1, 32 - (i + 1));
    DivTimes(Pow(2, i + 1), Pow(2, 32 - (i + 1)));
    DivTrans(Pow(2, i + 1), BASE, (d * d) % BASE - d * d);
    CongruentAdd((d * d) % BASE, d * d, 1, Pow(2, i + 1));
  }

  lemma LastSquare(d: digit, i: nat)
    requires Congruent(d, 1, Pow(2, i)) && 1 <= i <= 32 && (Pow(2, 33 - i) - 1) / 2 == 0
    ensures Congruent(d * d, 1, BASE)
  {
    FourOrMore(33 - i);
    Pow32();
    CongruentTimes(d, 1, BASE, d);
    CongruentAdd(d * d, 1 * d, 1, BASE);
  }

  lemma FourOrMore(n: nat)
    ensures n >= 2 ==> Pow(2, n) >= 4
  {
    if n >= 2 { PowMonotone(2, 2, n); assert Pow(2, 2) == 4; }
  }

  // ----- quotients modulo a power of two -----

  /** `u / v` modulo 2^s, bit by bit. */
  method DigitBmod(u0: digit, v0: digit, s: nat) returns (m: digit)
    requires Odd(v0) && s <= 32
    ensures m == Quot(u0, v0, s)
  {
    var u: digit, v: digit, i: nat := u0, v0, 0;
    m := 0;
    Pow32();
    DivTimes(Pow(2, s), 0);
    assert Pow(2, 0) == 1;
    while i < s
      invariant i <= s && m < Pow(2, i) && u % Pow(2, i) == 0
      invariant Congruent(u, u0 - m * v0, Pow(2, s)) && Congruent(v, v0 * Pow(2, i), BASE)
    {
      PowsUpTo(i, s);
      hide Pow;
      if u % Pow(2, i + 1) != 0 {
        BitStep(u, v, u0, v0, m, i, s);
        u := (u - v + BASE) % BASE % Pow(2, s);
        m := m + Pow(2, i);
      }
      DoubleShift(v, v0, i);
      v := (v * 2) % BASE;
      i := i + 1;
    }
    FinalBmod(u, u0, m, v0, Pow(2, s));
    PowsUpTo(s, s);
    QuotUnique(u0, v0, s, m);
  }

  lemma PowsUpTo(i: nat, s: nat)
    requires i <= s <= 32
    ensures Pow(2, i + 1) == 2 * Pow(2, i) && (i < s ==> Pow(2, i + 1) <= Pow(2, s)) && Pow(2, s) <= BASE
  {
    Pow32();
    if i < s { PowMonotone(2, i + 1, s); }
    PowMonotone(2, s, 32);
  }

  lemma DoubleShift(v: digit, v0: digit, i: nat)
    requires Congruent(v, v0 * Pow(2, i), BASE)
    ensures Congruent((v * 2) % BASE, v0 * Pow(2, i + 1), BASE)
  {
    CongruentTimes(v, v0 * Pow(2, i), BASE, 2);
    CongruentMod(v * 2, BASE);
    CongruentAdd((v * 2) % BASE, v * 2, v0 * Pow(2, i) * 2, BASE);
    assert v0 * Pow(2, i) * 2 == v0 * Pow(2, i + 1) by { Assoc(v0, Pow(2, i), 2); }
  }

  lemma FinalBmod(u: nat, u0: nat, m: nat, v0: nat, p: nat)
    requires p > 0 && u % p == 0 && Congruent(u, u0 - m * v0, p)
    ensures Congruent(m * v0, u0, p)
  {
    DivCombine(p, u - (u0 - m * v0), u, 1, 1);
  }

  /** A multiple of 2^32 is one of 2^s. */
  lemma CongruentLess(x: int, y: int, s: nat)
    requires Congruent(x, y, BASE) && s <= 32
    ensures Congruent(x, y, Pow(2, s))
  {
    Pow32();
    PowAdd(2, s, 32 - s);
    DivTimes(Pow(2, s), Pow(2, 32 - s));
    DivTrans(Pow(2, s), BASE, x - y);
  }

  /** Taking `v` away clears the lowest bit that is set. */
  lemma BitStep(u: digit, v: digit, u0: digit, v0: digit, m: nat, i: nat, s: nat)
    requires Odd(v0) && i < s <= 32 && u % Pow(2, i) == 0 && u % Pow(2, i + 1) != 0
    requires Congruent(u, u0 - m * v0, Pow(2, s)) && Congruent(v, v0 * Pow(2, i), BASE)
    ensures
      var u1 := (u - v + BASE) % BASE % Pow(2, s);
      Congruent(u1, u0 - (m + Pow(2, i)) * v0, Pow(2, s)) && u1 % Pow(2, i + 1) == 0
  {
    var p, w := Pow(2, i), Pow(2, s);
    var x := (u - v + BASE) % BASE;
    var u1 := x % w;
    assert Pow(2, i + 1) == 2 * p;
    // u1 is congruent to u - v0 * p
    CongruentMod(u - v + BASE, BASE);
    DivTimes(BASE, 1);
    CongruentAdd(x, u - v + BASE, u - v, BASE);
    DivNegative(BASE, v - v0 * p);
    CongruentAdd(x, u - v, u - v0 * p, BASE);
    CongruentLess(x, u - v0 * p, s);
    CongruentMod(x, w);
    CongruentAdd(u1, x, u - v0 * p, w);
    Distribute(m, p, v0);
    Commute(p, v0);
    CongruentAdd(u1, u - v0 * p, u0 - (m + p) * v0, w);
    // both u and v0 * p are odd multiples of p
    OddMultiples(u, v0, p);
    PowAdd(2, i + 1, s - (i + 1));
    DivTimes(2 * p, Pow(2, s - (i + 1)));
    DivTrans(2 * p, w, u1 - (u - v0 * p));
    DivCombine(2 * p, u1 - (u - v0 * p), u - v0 * p, 1, 1);
  }

  lemma OddMultiples(u: nat, v0: nat, p: nat)
    requires p > 0 && u % p == 0 && u % (2 * p) != 0 && Odd(v0)
    ensures Div(2 * p, u - v0 * p)
  {
    var k := u / p;
    assert u == p * k;
    var j, a := k / 2, v0 / 2;
    assert v0 == 2 * a + 1;
    if k % 2 == 0 {
      assert k == 2 * j;
      assert u == (2 * p) * j by { Assoc(p, 2, j); }
      DivTimes(2 * p, j);
    }
    assert k == 2 * j + 1;
    assert u - v0 * p == (2 * p) * (j - a) by {
      Distribute(2 * j, 1, p); Distribute(2 * a, 1, p); Commute(p, k);
      Assoc(2, j, p); Assoc(2, a, p); Distribute(j, a, 2 * p); Swap(2, j, p); Swap(2, a, p);
    }
    DivTimes(2 * p, j - a);
  }

  /** The quotient modulo 2^s: the only `q` below 2^s for which q * v and `u` agree in their low `s` bits. */
  ghost function Quot(u: int, v: nat, s: nat): (q: nat)
    requires Odd(v)
    ensures q < Pow(2, s) && Congruent(q * v, u, Pow(2, s))
  {
    if s == 0 then
      assert Pow(2, 0) == 1;
      0
    else
      var q, p := Quot(u, v, s - 1), Pow(2, s - 1);
      assert Pow(2, s) == 2 * p;
      if Congruent(q * v, u, 2 * p) then q
      else
        QuotNext(u, v, q, p);
        q + p
  }

  lemma QuotNext(u: int, v: nat, q: nat, p: nat)
    requires Odd(v) && p > 0 && Congruent(q * v, u, p) && !Congruent(q * v, u, 2 * p)
    ensures Congruent((q + p) * v, u, 2 * p)
  {
    var k := DivQuotient(p, q * v - u);
    if k % 2 == 0 {
      assert p * k == (2 * p) * (k / 2) by { Assoc(p, 2, k / 2); Commute(p, 2); assert k == 2 * (k / 2); }
      DivTimes(2 * p, k / 2);
    }
    var j := (k + v) / 2;
    Distribute(q, p, v);
    Distribute(k, v, p);
    assert (q + p) * v - u == p * (k + v);
    assert k + v == 2 * j;
    Assoc(p, 2, j);
    Commute(p, 2);
    DivTimes(2 * p, j);
  }

  lemma CongruentSwap(x: int, y: int, m: nat)
    requires Congruent(x, y, m)
    ensures Congruent(y, x, m)
  {
    DivNegative(m, x - y);
  }

  /** Equal numbers below the modulus. */
  lemma CongruentSmall(x: nat, y: nat, m: nat)
    requires Congruent(x, y, m) && x < m && y < m
    ensures x == y
  {
    var k := DivQuotient(m, x - y);
    if k >= 1 { MulLe(1, k, m); }
    if k <= -1 { MulLe(k, -1, m); }
  }

  lemma QuotUnique(u: int, v: nat, s: nat, q: nat)
    requires Odd(v) && q < Pow(2, s) && Congruent(q * v, u, Pow(2, s))
    ensures q == Quot(u, v, s)
  {
    var m, r, i := Pow(2, s), Quot(u, v, s), Quot(1, v, s);
    hide Quot;
    CongruentSwap(r * v, u, m);
    CongruentAdd(q * v, u, r * v, m);
    CongruentTimes(q * v, r * v, m, i);
    QuotOne(q, v, i, m);
    QuotOne(r, v, i, m);
    CongruentSwap((q * v) * i, q, m);
    CongruentAdd(q, (q * v) * i, (r * v) * i, m);
    CongruentAdd(q, (r * v) * i, r, m);
    CongruentSmall(q, r, m);
  }

  lemma QuotOne(q: nat, v: nat, i: nat, m: nat)
    requires Congruent(i * v, 1, m)
    ensures Congruent((q * v) * i, q, m)
  {
    CongruentTimes(i * v, 1, m, q);
    assert q * (i * v) == (q * v) * i by { Commute(i, v); Assoc(q, v, i); }
  }

  /** Only the low bits of the numbers count. */
  lemma QuotLow(u: nat, u1: nat, v: nat, v1: nat, s: nat)
    requires Odd(v) && Odd(v1) && Congruent(u, u1, Pow(2, s)) && Congruent(v, v1, Pow(2, s))
    ensures Quot(u, v, s) == Quot(u1, v1, s)
  {
    var q, m := Quot(u, v, s), Pow(2, s);
    hide Quot;
    CongruentTimes(v, v1, m, q);
    CongruentSwap(q * v, q * v1, m);
    CongruentAdd(q * v1, q * v, u, m);
    CongruentAdd(q * v1, u, u1, m);
    QuotUnique(u1, v1, s, q);
  }
}
