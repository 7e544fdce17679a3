/**
 * Reducing a number by multiples of an odd one until its low bits are gone, and what the digits in place make
 * of it.
 */
module Bdivmods {
  import opened Arithmetic
  import opened Digits
  import opened Divisors
  import opened Inverses
  import NaturalShift

  function Abs(x: int): nat { if x < 0 then -x else x }

  /** The place of the top bit; zero for zero. */
  function Width(x: nat): nat {
    if x < 2 then 0 else 1 + Width(x / 2)
  }

  lemma {:induction false} WidthBounds(x: nat)
    ensures x < Pow(2, Width(x) + 1) && (x > 0 ==> Pow(2, Width(x)) <= x)
  {
    if x >= 2 {
      WidthBounds(x / 2);
      var w := Width(x / 2);
      assert Pow(2, w + 2) == 2 * Pow(2, w + 1);
      assert Pow(2, w + 1) == 2 * Pow(2, w);
    } else {
      assert Pow(2, 0) == 1 && Pow(2, 1) == 2;
    }
  }

  lemma WidthIs(x: nat, w: nat)
    requires Pow(2, w) <= x < Pow(2, w + 1)
    ensures Width(x) == w
  {
    WidthBounds(x);
    if Width(x) < w { PowMonotone(2, Width(x) + 1, w); }
    if w < Width(x) { PowMonotone(2, w + 1, Width(x)); }
  }

  lemma {:induction false} WidthMonotone(x: nat, y: nat)
    requires x <= y
    ensures Width(x) <= Width(y)
    decreases x
  {
    if x >= 2 { WidthMonotone(x / 2, y / 2); }
  }

  // ----- exact reduction -----

  function Shr(x: nat, bits: nat): nat { x / Pow(2, bits) }

  /** The low `bits` bits of `u` are cleared by a multiple of `v` and shifted out. */
  ghost function Reduce(u: nat, v: nat, bits: nat): nat
    requires Odd(v)
  {
    Shr(Abs(u - Quot(u, v, bits) * v), bits)
  }

  /** A digit at a time, then the bits left. */
  ghost function Reduced(u: nat, v: nat, bits: nat): nat
    requires Odd(v)
    decreases bits
  {
    if bits >= 32 then Reduced(Reduce(u, v, 32), v, bits - 32) else Reduce(u, v, bits)
  }

  /** For the odd divisors of `v`, dividing `u` and dividing `r` is the same. */
  ghost predicate SameFor(u: nat, r: nat, v: nat) {
    forall d: nat :: Odd(d) && Div(d, v) ==> (Div(d, u) <==> Div(d, r))
  }

  lemma DivAbs(d: nat, x: int)
    requires d > 0
    ensures Div(d, Abs(x)) <==> Div(d, x)
  {
    if x < 0 {
      if Div(d, x) { DivNegative(d, x); }
      if Div(d, -x) { DivNegative(d, -x); }
    }
  }

  lemma StepSame(u: nat, v: nat, q: nat, s: nat, r: nat)
    requires Congruent(q * v, u, Pow(2, s)) && q < Pow(2, s) && r == Shr(Abs(u - q * v), s)
    ensures Abs(u - q * v) == r * Pow(2, s) && r * Pow(2, s) <= u + (Pow(2, s) - 1) * v
    ensures SameFor(u, r, v)
  {
    var m := Pow(2, s);
    var x := u - q * v;
    DivNegative(m, q * v - u);
    DivAbs(m, x);
    assert Abs(x) == m * r;
    MulLe(q, m - 1, v);
    MulLe(0, q, v);
    Commute(m, r);
    forall d: nat | Odd(d) && Div(d, v) ensures Div(d, u) <==> Div(d, r) {
      OddShift(d, r, s);
      DivAbs(d, x);
      if Div(d, u) { DivCombine(d, u, v, 1, q); }
      if Div(d, x) { DivCombine(d, x, v, 1, q); }
    }
  }

  lemma ReduceSame(u: nat, v: nat, s: nat)
    requires Odd(v)
    ensures SameFor(u, Reduce(u, v, s), v) && Reduce(u, v, s) * Pow(2, s) <= u + (Pow(2, s) - 1) * v
    ensures Abs(u - Quot(u, v, s) * v) == Reduce(u, v, s) * Pow(2, s)
  {
    var q, r := Quot(u, v, s), Reduce(u, v, s);
    assert r == Shr(Abs(u - q * v), s);
    hide Quot, Reduce, SameFor, Shr, Abs, Pow;
    StepSame(u, v, q, s, r);
  }

  /** The reduction keeps the odd divisors in common with `v`, and what is left is small. */
  lemma {:induction false} ReducedSame(u: nat, v: nat, bits: nat)
    requires Odd(v)
    ensures SameFor(u, Reduced(u, v, bits), v) && Reduced(u, v, bits) * Pow(2, bits) <= u + (Pow(2, bits) - 1) * v
    decreases bits
  {
    hide Abs, Div, Odd, Pow, Quot, Reduce;
    if bits >= 32 {
      var r := Reduce(u, v, 32);
      assert Reduced(u, v, bits) == Reduced(r, v, bits - 32);
      hide Reduce, Reduced, Pow;
      ReduceSame(u, v, 32);
      ReducedSame(r, v, bits - 32);
      BoundStep(u, r, Reduced(r, v, bits - 32), v, 32, bits - 32);
    } else {
      ReduceSame(u, v, bits);
    }
  }

  lemma BoundStep(u0: nat, u: nat, r: nat, v: nat, j: nat, s: nat)
    requires u * Pow(2, j) <= u0 + (Pow(2, j) - 1) * v && r * Pow(2, s) <= u + (Pow(2, s) - 1) * v
    ensures r * Pow(2, j + s) <= u0 + (Pow(2, j + s) - 1) * v
  {
    var a, b := Pow(2, j), Pow(2, s);
    PowAdd(2, j, s);
    MulLe(r * b, u + (b - 1) * v, a);
    Distribute(u, (b - 1) * v, a);
    Commute(a, b);
    Assoc(r, b, a);
    Swap(b - 1, v, a);
    Distribute(b, 1, a);
    Distribute(b * a - a, a - 1, v);
  }

  // ----- the reduction in place -----

  /**
   * A number in its digits: its value, and the value that the digits have which the next step goes over, as many
   * as the longer of the two numbers has.  They differ where digits above the number are not zero.
   */
  datatype Held = Held(value: nat, read: nat)

  /** A step in place leaves the top digit where it was if the result is not negative: `z` has moved down by one. */
  function Stale(z: nat, read: nat, top: nat): nat {
    z + W(top) * (read / W(top))
  }

  /** One digit is cleared and shifted out in place. */
  ghost function NextDigit(h: Held, v: nat): Held
    requires Odd(v)
  {
    var m, len, q := NumDigits(v), NumDigits(h.value), Quot(h.read, v, 32);
    if q == 0 then
      if len == 0 then Held(0, h.read)
      else if len > m then Held(h.value / BASE, h.value / BASE)
      else Held(h.value / BASE, Stale(h.value / BASE, h.read, len - 1))
    else
      var z := Abs(h.read - q * v) / BASE;
      if q * v <= h.read < W(m) then VPositive(v); Held(z, Stale(z, h.read, m - 1)) else Held(z, z)
  }

  lemma VPositive(v: nat)
    requires Odd(v)
    ensures v > 0 && NumDigits(v) > 0
  {
  }

  /** The low bits, fewer than a digit, are cleared and shifted out. */
  ghost function LastBits(h: Held, v: nat, bits: nat): nat
    requires Odd(v)
  {
    var q := Quot(h.read, v, bits);
    Shr(if q == 0 then h.value else Abs(h.read - q * v), bits)
  }

  ghost function InPlace(h: Held, v: nat, bits: nat): nat
    requires Odd(v)
    decreases bits
  {
    if bits >= 32 then InPlace(NextDigit(h, v), v, bits - 32)
    else if bits > 0 then LastBits(h, v, bits)
    else h.value
  }

  /** How many bits are reduced: what makes the results about as wide as `v`. */
  function Bits(u: nat, v: nat): int { Width(u) - Width(v) + 1 }

  /** The reduction of `u` by `v` as the digits in place give it. */
  ghost function Bdivmod(u: nat, v: nat): nat
    requires Odd(v) && Bits(u, v) >= 0
  {
    InPlace(Held(u, u), v, Bits(u, v))
  }

  // ----- when the reduction in place is exact -----

  ghost function Digitwise(u: nat, v: nat, count: nat): nat
    requires Odd(v)
    decreases count
  {
    if count == 0 then u else Digitwise(Reduce(u, v, 32), v, count - 1)
  }

  /**
   * After a last whole digit the bit that is left is cleared by reading a digit that was left behind: `u` is no
   * longer than `v`, what is left of it is not negative, and it is odd.
   */
  ghost predicate LeftBehind(u: nat, v: nat)
    requires Odd(v)
  {
    var m, q := NumDigits(v), Quot(u, v, 32);
    u < W(m) && q * v <= u && (VPositive(v); Odd(Stale(Reduce(u, v, 32), u, m - 1)))
  }

  /** One bit remains after the whole digits, and the last of these leaves a digit behind. */
  ghost predicate Spoiled(u: nat, v: nat, bits: nat)
    requires Odd(v)
  {
    bits % 32 == 1 && bits >= 33 && LeftBehind(Digitwise(u, v, bits / 32 - 1), v)
  }

  lemma NumDigitsBounds(v: nat)
    requires v > 0
    ensures NumDigits(v) > 0 && W(NumDigits(v) - 1) <= v < W(NumDigits(v))
  {
    DigitsBelow(v, NumDigits(v));
    DigitsBelow(v, NumDigits(v) - 1);
  }

  /** The weights of the digits about `v` in terms of its width. */
  lemma WidthDigits(v: nat)
    requires v > 0
    ensures var m, w := NumDigits(v), Width(v);
      m > 0 && 32 * (m - 1) <= w && W(m - 1) == Pow(2, 32 * (m - 1)) && W(m) == BASE * W(m - 1)
      && W(m) <= Pow(2, w + 32) == BASE * Pow(2, w) && Pow(2, w) <= v < 2 * Pow(2, w)
  {
    var m, w := NumDigits(v), Width(v);
    NumDigitsBounds(v);
    WidthBounds(v);
    NaturalShift.WholeDigits(m - 1);
    WNext(m - 1);
    if w < 32 * (m - 1) { PowMonotone(2, w + 1, 32 * (m - 1)); }
    PowMonotone(2, 32 * (m - 1), w);
    Pow32();
    PowAdd(2, 32, w);
    hide W, Pow, Width, NumDigits;
    MulLe(W(m - 1), Pow(2, w), BASE);
  }

  /** What remains stays large. */
  lemma ReduceLarge(y: nat, v: nat, bits: nat)
    requires Odd(v) && bits >= 33 && y + v >= Pow(2, Width(v) + bits - 1)
    ensures Reduce(y, v, 32) + v >= Pow(2, Width(v) + bits - 33)
  {
    hide *;
    var w := Width(v) + bits - 33;
    ReduceTakes(y, v);
    PowBase(w);
    StaysLarge(y, v, Quot(y, v, 32), Reduce(y, v, 32), Pow(2, w));
  }

  lemma ReduceTakes(y: nat, v: nat)
    requires Odd(v)
    ensures Quot(y, v, 32) < BASE && Reduce(y, v, 32) * BASE >= y - Quot(y, v, 32) * v
  {
    ReduceSame(y, v, 32);
    Pow32();
    hide Quot, Reduce, Pow;
  }

  lemma PowBase(w: nat)
    ensures Pow(2, w + 32) == BASE * Pow(2, w)
  {
    Pow32();
    PowAdd(2, 32, w);
  }

  lemma StaysLarge(y: nat, v: nat, q: nat, z: nat, p: nat)
    requires y + v >= BASE * p && q < BASE && z * BASE >= y - q * v
    ensures z + v >= p
  {
    MulLe(q, BASE - 1, v);
    Distribute(BASE, 1, v);
  }

  lemma LongEnough(y: nat, v: nat, bits: nat)
    requires v > 0 && bits >= 34 && y + v >= Pow(2, Width(v) + bits - 1)
    ensures y >= W(NumDigits(v))
  {
    var w := Width(v);
    WidthDigits(v);
    PowMonotone(2, w + 33, w + bits - 1);
    assert Pow(2, w + 33) == 2 * Pow(2, w + 32);
  }

  lemma NextExact(y: nat, v: nat)
    requires Odd(v) && (y >= W(NumDigits(v)) || Quot(y, v, 32) * v > y)
    ensures NextDigit(Held(y, y), v) == Held(Reduce(y, v, 32), Reduce(y, v, 32))
  {
    Pow32();
    DigitsBelow(y, NumDigits(v));
  }

  lemma LastExact(y: nat, v: nat, bits: nat)
    requires Odd(v) && bits < 32
    ensures InPlace(Held(y, y), v, bits) == Reduced(y, v, bits)
  {
    assert Pow(2, 0) == 1;
  }

  /** In place and exactly: the same result just if no digit left behind is read. */
  lemma {:induction false} InPlaceExact(y: nat, v: nat, bits: nat)
    requires Odd(v) && (bits > 0 ==> y + v >= Pow(2, Width(v) + bits - 1))
    ensures InPlace(Held(y, y), v, bits) == Reduced(y, v, bits) <==> !Spoiled(y, v, bits)
    decreases bits
  {
    hide *;
    FewBits(y, v, bits);
    if bits < 32 {
      LastExact(y, v, bits);
    } else if bits == 32 {
      ExactValue(y, v);
    } else if bits == 33 {
      OneBitLeft(y, v);
    } else {
      var next := StepOnward(y, v, bits);
      InPlaceExact(next, v, bits - 32);
    }
  }

  lemma FewBits(y: nat, v: nat, bits: nat)
    requires Odd(v)
    ensures bits < 33 ==> !Spoiled(y, v, bits)
    ensures bits == 33 ==> (Spoiled(y, v, bits) <==> LeftBehind(y, v))
  {
    hide LeftBehind, Reduce;
    assert Digitwise(y, v, 0) == y;
  }

  lemma Onward(y: nat, v: nat, bits: nat, z: nat)
    requires Odd(v) && bits >= 34 && z == Reduce(y, v, 32) && NextDigit(Held(y, y), v) == Held(z, z)
    ensures InPlace(Held(y, y), v, bits) == InPlace(Held(z, z), v, bits - 32)
    ensures Reduced(y, v, bits) == Reduced(z, v, bits - 32)
    ensures Spoiled(y, v, bits) <==> Spoiled(z, v, bits - 32)
  {
    hide NextDigit, Reduce, LeftBehind;
    assert bits >= 65 ==> Digitwise(y, v, bits / 32 - 1) == Digitwise(z, v, (bits - 32) / 32 - 1);
  }

  /** A step that leaves no digit behind: what remains is held as it is, and is large again. */
  lemma StepOnward(y: nat, v: nat, bits: nat) returns (z: nat)
    requires Odd(v) && bits >= 34 && y + v >= Pow(2, Width(v) + bits - 1)
    ensures z + v >= Pow(2, Width(v) + bits - 33)
    ensures InPlace(Held(y, y), v, bits) == InPlace(Held(z, z), v, bits - 32)
    ensures Reduced(y, v, bits) == Reduced(z, v, bits - 32)
    ensures Spoiled(y, v, bits) <==> Spoiled(z, v, bits - 32)
  {
    assert v > 0;
    hide *;
    z := Reduce(y, v, 32);
    LongEnough(y, v, bits);
    NextExact(y, v);
    ReduceLarge(y, v, bits);
    Onward(y, v, bits, z);
  }

  lemma ExactValue(y: nat, v: nat)
    requires Odd(v)
    ensures InPlace(Held(y, y), v, 32) == Reduced(y, v, 32)
  {
    Pow32();
    assert Pow(2, 0) == 1;
    var h := NextDigit(Held(y, y), v);
    assert InPlace(Held(y, y), v, 32) == InPlace(h, v, 0) == h.value;
    var z := Reduce(y, v, 32);
    assert Reduced(y, v, 32) == Reduced(z, v, 0) == Reduce(z, v, 0);
    assert Quot(z, v, 0) == 0;
  }

  /** With one bit left to be cleared and no longer than `v`: the top digit is about as large as it can be. */
  lemma TopLarge(y: nat, v: nat)
    requires Odd(v) && y + v >= Pow(2, Width(v) + 32) && y < W(NumDigits(v))
    ensures
      var p := W(NumDigits(v) - 1);
      NumDigits(v) > 0 && v < 2 * p && y / p >= BASE - 2 && NumDigits(y) == NumDigits(v)
  {
    var m, w := NumDigits(v), Width(v);
    WidthDigits(v);
    var p, x := W(m - 1), Pow(2, w);
    PowerOrTwice(32 * (m - 1), w);
    DigitsBelow(y, m);
    DigitsBelow(y, m - 1);
    hide *;
    SamePower(y, v, p, x);
    AtLeastTimes(y, p, BASE - 2);
  }

  lemma PowerOrTwice(e: nat, w: nat)
    requires e <= w
    ensures Pow(2, w) == Pow(2, e) || Pow(2, w) >= 2 * Pow(2, e)
  {
    if e < w { PowMonotone(2, e + 1, w); }
  }

  lemma SamePower(y: nat, v: nat, p: nat, x: nat)
    requires p > 0 && v < 2 * x && y < BASE * p && y + v >= BASE * x && x >= p
    ensures x < 2 * p
    ensures x == p ==> y >= p * (BASE - 2)
  {
  }

  lemma AtLeastTimes(y: nat, p: nat, k: nat)
    requires p > 0 && y >= p * k
    ensures y / p >= k
  {
    var q := y / p;
    assert y == p * q + y % p;
    if q < k { MulLe(q + 1, k, p); Distribute(q, 1, p); }
  }

  lemma NextStale(y: nat, v: nat)
    requires Odd(v) && NumDigits(v) > 0 && NumDigits(y) == NumDigits(v) && Quot(y, v, 32) * v <= y < W(NumDigits(v))
    ensures NextDigit(Held(y, y), v) == Held(Reduce(y, v, 32), Stale(Reduce(y, v, 32), y, NumDigits(v) - 1))
  {
    Pow32();
  }

  lemma QuotParity(e: nat, v: nat)
    requires Odd(v)
    ensures Quot(e, v, 1) == e % 2
  {
    assert Pow(2, 1) == 2;
    var q := e % 2;
    if q == 0 {
      assert Congruent(q * v, e, 2);
    }
    QuotUnique(e, v, 1, q);
  }

  lemma OneBitLeft(y: nat, v: nat)
    requires Odd(v) && y + v >= Pow(2, Width(v) + 32)
    ensures InPlace(Held(y, y), v, 33) == Reduced(y, v, 33) <==> !LeftBehind(y, v)
  {
    var m, z := NumDigits(v), Reduce(y, v, 32);
    var h := NextDigit(Held(y, y), v);
    assert InPlace(Held(y, y), v, 33) == InPlace(h, v, 1) == LastBits(h, v, 1);
    assert Reduced(y, v, 33) == Reduced(z, v, 1) == Reduce(z, v, 1);
    if y >= W(m) || Quot(y, v, 32) * v > y {
      NextExact(y, v);
      LastExact(z, v, 1);
    } else {
      TopLarge(y, v);
      NextStale(y, v);
      SmallRest(y, v);
      if m > 1 { EvenWeight(m - 1); }
      hide Quot, Shr, Pow, Abs, Width;
      OneBitStale(y, v, z, Stale(z, y, m - 1), W(m - 1));
    }
  }

  lemma SmallRest(y: nat, v: nat)
    requires Odd(v) && NumDigits(v) > 0 && Quot(y, v, 32) * v <= y < W(NumDigits(v))
    ensures Reduce(y, v, 32) < W(NumDigits(v) - 1)
  {
    Pow32();
    WNext(NumDigits(v) - 1);
    MulLe(0, Quot(y, v, 32), v);
  }

  lemma EvenWeight(e: nat)
    requires e > 0
    ensures W(e) % 2 == 0
  {
    assert W(e) == BASE * W(e - 1);
  }

  lemma OneBitStale(y: nat, v: nat, z: nat, e: nat, p: nat)
    requires Odd(v) && p > 0 && v < 2 * p && z < p && y / p >= BASE - 2 && e == z + p * (y / p)
    requires p % 2 == 0 || p == 1
    ensures LastBits(Held(z, e), v, 1) == Reduce(z, v, 1) <==> !Odd(e)
  {
    OneBit(Held(z, e), v);
    OneBit(Held(z, z), v);
    assert Reduce(z, v, 1) == LastBits(Held(z, z), v, 1);
    hide Reduce, LastBits;
    StaleLarge(z, y / p, p);
    TwoHalves(v, z, e, p);
  }

  lemma StaleLarge(z: nat, k: int, p: nat)
    requires k >= BASE - 2 && (p % 2 == 0 || p == 1)
    ensures z + p * k >= (BASE - 2) * p && (p != 1 ==> (z + p * k) % 2 == z % 2)
  {
    MulLe(BASE - 2, k, p);
    if p != 1 { EvenPart(p, k, z); }
  }

  lemma TwoHalves(v: nat, z: nat, e: nat, p: nat)
    requires p > 0 && v < 2 * p && z < p && e >= (BASE - 2) * p && (p != 1 ==> e % 2 == z % 2)
    ensures (if e % 2 == 0 then z / 2 else Abs(e - v) / 2) == (if z % 2 == 0 then z / 2 else Abs(z - v) / 2) <==>
      e % 2 == 0
  {
  }

  /** Clearing one bit: an odd number has `v` taken away. */
  lemma OneBit(h: Held, v: nat)
    requires Odd(v)
    ensures LastBits(h, v, 1) == (if h.read % 2 == 0 then h.value / 2 else Abs(h.read - v) / 2)
  {
    assert Pow(2, 1) == 2;
    QuotParity(h.read, v);
    hide Quot;
  }

  lemma EvenPart(p: nat, k: int, z: nat)
    requires p % 2 == 0
    ensures (z + p * k) % 2 == z % 2
  {
    Assoc(2, p / 2, k);
    assert p == 2 * (p / 2);
    assert p * k == 2 * ((p / 2) * k);
  }

  lemma WideEnough(u: nat, v: nat)
    requires Odd(v) && Bits(u, v) > 0
    ensures u + v >= Pow(2, Width(v) + Bits(u, v) - 1)
  {
    WidthBounds(u);
    WidthBounds(v);
    if u == 0 { assert Width(u) == 0; assert Pow(2, 0) == 1; }
  }

  /** The reduction in place is exact just if its last bit does not read a digit left behind. */
  lemma BdivmodExact(u: nat, v: nat)
    requires Odd(v) && Bits(u, v) >= 0
    ensures Bdivmod(u, v) == Reduced(u, v, Bits(u, v)) <==> !Spoiled(u, v, Bits(u, v))
  {
    if Bits(u, v) > 0 { WideEnough(u, v); }
    hide InPlace, Reduced, Width, Pow, Spoiled;
    InPlaceExact(u, v, Bits(u, v));
  }

  // ----- how small the results are -----

  lemma {:induction false} SpoiledBound(y: nat, v: nat, bits: nat)
    requires Odd(v) && Spoiled(y, v, bits) && y + v >= Pow(2, Width(v) + bits - 1)
    ensures InPlace(Held(y, y), v, bits) < 2 * W(NumDigits(v))
    decreases bits
  {
    hide *;
    SpoiledOne(y, v, bits);
    if bits == 33 {
      OneBitBound(y, v);
    } else {
      var z := StepOnward(y, v, bits);
      SpoiledBound(z, v, bits - 32);
    }
  }

  lemma SpoiledOne(y: nat, v: nat, bits: nat)
    requires Odd(v) && Spoiled(y, v, bits)
    ensures v > 0 && bits >= 33 && (bits == 33 ==> LeftBehind(y, v)) && (bits != 33 ==> bits >= 65)
  {
    hide LeftBehind, Reduce;
    assert Digitwise(y, v, 0) == y;
  }

  lemma OneBitBound(y: nat, v: nat)
    requires Odd(v) && LeftBehind(y, v) && y + v >= Pow(2, Width(v) + 32)
    ensures InPlace(Held(y, y), v, 33) < 2 * W(NumDigits(v))
  {
    var m, z := NumDigits(v), Reduce(y, v, 32);
    var h := NextDigit(Held(y, y), v);
    assert InPlace(Held(y, y), v, 33) == InPlace(h, v, 1) == LastBits(h, v, 1);
    hide InPlace, LastBits, Quot, Shr, Pow, Abs, Width, Reduce, NextDigit;
    TopLarge(y, v);
    NextStale(y, v);
    SmallRest(y, v);
    NumDigitsBounds(v);
    StaleBound(z, y, m - 1);
    LastBound(h, v, W(m));
  }

  lemma StaleBound(z: nat, y: nat, e: nat)
    requires z < W(e) && y < W(e + 1)
    ensures z <= Stale(z, y, e) < 2 * W(e + 1)
  {
    WNext(e);
    MulLe(0, y / W(e), W(e));
    assert y == W(e) * (y / W(e)) + y % W(e);
  }

  lemma LastBound(h: Held, v: nat, w: nat)
    requires Odd(v) && h.value <= h.read < 2 * w && v < w
    ensures LastBits(h, v, 1) < 2 * w
  {
    assert Pow(2, 1) == 2;
    QuotParity(h.read, v);
  }

  lemma Shrinks(u: nat, v: nat, r: nat, p: nat, q: nat)
    requires p <= v && u < p * q && q > 0 && r * q <= u + (q - 1) * v
    ensures r < 2 * v
  {
    MulLe(p, v, q);
    Commute(v, q);
    Distribute(q, 1, v);
    assert r * q < (2 * v) * q by { Assoc(2, v, q); }
    Cancel(r, 2 * v, q);
  }

  lemma ReducedBound(u: nat, v: nat)
    requires Odd(v) && Bits(u, v) >= 0
    ensures Reduced(u, v, Bits(u, v)) < 2 * v
  {
    var k, b := Bits(u, v), Width(v);
    ReducedSame(u, v, k);
    WidthBounds(u);
    WidthBounds(v);
    PowAdd(2, b, k);
    hide Pow, Width, Reduced;
    Shrinks(u, v, Reduced(u, v, k), Pow(2, b), Pow(2, k));
  }

  lemma WidthTriple(u: nat, v: nat)
    requires v > 0 && Width(u) - Width(v) > 10
    ensures 3 * v < u
  {
    var a, b := Width(u), Width(v);
    WidthBounds(u);
    WidthBounds(v);
    assert u > 0;
    hide Width;
    PowAdd(2, b + 1, 2);
    assert Pow(2, 2) == 4;
    PowMonotone(2, b + 3, a);
  }

  /** A digit can be left behind only with two more digits in the first number. */
  lemma SpoiledWide(u: nat, v: nat)
    requires Odd(v) && Bits(u, v) >= 0 && Spoiled(u, v, Bits(u, v))
    ensures Bits(u, v) >= 65 && u >= BASE * W(NumDigits(v))
  {
    WidthDigits(v);
    WidthBounds(u);
    var w, k := Width(v), Bits(u, v);
    Pow32();
    assert Digitwise(u, v, 0) == u;
    PowAdd(2, 32, w + 32);
    PowMonotone(2, w + 64, Width(u));
  }

  lemma SpoiledCase(u: nat, v: nat)
    requires Odd(v) && Bits(u, v) >= 0 && Spoiled(u, v, Bits(u, v))
    ensures Bdivmod(u, v) < 2 * W(NumDigits(v)) && 3 * Bdivmod(u, v) < 2 * u
  {
    SpoiledWide(u, v);
    WideEnough(u, v);
    hide Spoiled, Width, InPlace, NumDigits, Pow, W;
    SpoiledBound(u, v, Bits(u, v));
  }

  lemma BdivmodBound(u: nat, v: nat)
    requires Odd(v) && Bits(u, v) >= 0
    ensures NumDigits(Bdivmod(u, v)) <= NumDigits(v) + 1
    ensures Width(u) - Width(v) > 10 ==> 3 * Bdivmod(u, v) < 2 * u
  {
    var m, r := NumDigits(v), Bdivmod(u, v);
    NumDigitsBounds(v);
    hide Bdivmod, Spoiled, Reduced, NumDigits, W, Bits;
    if Spoiled(u, v, Bits(u, v)) {
      SpoiledCase(u, v);
    } else {
      BdivmodExact(u, v);
      ReducedBound(u, v);
      if Width(u) - Width(v) > 10 { WidthTriple(u, v); }
    }
    DoubleDigits(r, m);
  }

  lemma DoubleDigits(r: nat, m: nat)
    requires r < 2 * W(m)
    ensures NumDigits(r) <= m + 1
  {
    WNext(m);
    DigitsBelow(r, m + 1);
  }
}
