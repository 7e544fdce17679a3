/** The reduction with two multipliers on digits changed in place. */
module KaryInPlace {
  import opened Arithmetic
  import opened Digits
  import opened Divisors
  import opened Inverses
  import opened Bdivmods
  import opened Karys
  import opened Naturals
  import opened GcdInPlace

  /** The number of the first `i` digits, of which there are `len`. */
  function Upto(s: seq<digit>, len: nat, i: nat): nat
    requires len <= |s|
  {
    Val(s[..if i < len then i else len])
  }

  /** One digit of a product; past the number only the carry is left. */
  method ProductDigit(more: bool, x: digit, m: digit, c: digit) returns (q: digit, c1: digit)
    requires c <= m
    ensures q + c1 * BASE == m * (if more then x else 0) + c && c1 <= m
  {
    if more {
      ProductCarry(m, x, c);
      var p := m * x + c;
      c1 := p / BASE;
      q := p % BASE;
    } else {
      q, c1 := c, 0;
    }
  }

  lemma ProductCarry(m: digit, x: digit, c: digit)
    requires c <= m
    ensures (m * x + c) / BASE <= m
  {
    MulLe(x, BASE - 1, m);
    Distribute(BASE, 1, m);
    assert m * x + c <= BASE * m;
  }

  /** The low digits of the product are one digit more. */
  lemma ProductNext(s: seq<digit>, len: nat, i: nat, m: nat, c: nat, q: nat, c1: nat)
    requires len <= |s| && q + c1 * BASE == m * (if i < len then s[i] else 0) + c
    ensures m * Upto(s, len, i + 1) - c1 * W(i + 1) == m * Upto(s, len, i) - c * W(i) + q * W(i)
  {
    WNext(i);
    var w := W(i);
    var x: digit := if i < len then s[i] else 0;
    if i < len {
      Snoc(s, 0, i);
      assert s[0..i] == s[..i] && s[0..i + 1] == s[..i + 1];
    }
    assert Upto(s, len, i + 1) == Upto(s, len, i) + w * x;
    hide Val, W, Upto;
    ProductSum(Upto(s, len, i), m, w, x, q, c, c1);
  }

  lemma ProductSum(v: nat, m: nat, w: nat, x: nat, q: nat, c: nat, c1: nat)
    requires q + c1 * BASE == m * x + c
    ensures m * (v + w * x) - c1 * (BASE * w) == m * v - c * w + q * w
  {
    assert m * (v + w * x) == m * v + w * (m * x);
    assert w * (q + c1 * BASE) == w * (m * x + c);
    assert w * (c1 * BASE) == c1 * (BASE * w);
    Distribute(q, c1 * BASE, w);
    Distribute(m * x, c, w);
  }

  /** The digits `D` are those of the sum, or of the difference, of the low digits of both products. */
  ghost predicate Combined(D: seq<digit>, p: int, q: int, carry: nat, add: bool) {
    if add then Val(D) + carry * W(|D|) == p + q else Val(D) + q == p + carry * W(|D|)
  }

  /** One digit of the sum or the difference. */
  method Combine(quo_d: digit, quo_v0: digit, carry0: digit, add: bool) returns (r: digit, carry: digit)
    requires carry0 <= 1
    ensures carry <= 1
    ensures if add then r + carry * BASE == quo_d + quo_v0 + carry0 else r + quo_v0 + carry0 == quo_d + carry * BASE
  {
    carry := carry0;
    var quo_v := (quo_v0 + carry) % BASE;
    r := quo_d;
    if quo_v != 0 {
      if add {
        r := (quo_d + quo_v) % BASE;
        carry := if r < quo_d then 1 else 0;
      } else {
        r := (quo_d - quo_v + BASE) % BASE;
        carry := if r > quo_d then 1 else 0;
      }
    }
    if add { CarryStep(quo_d, quo_v0, carry0, r, carry); } else { BorrowStep(quo_d, quo_v0, carry0, r, carry); }
  }

  lemma CombinedNext(D: seq<digit>, p: int, q: int, carry: nat, add: bool, qd: nat, qv: nat, r: digit, carry1: nat)
    requires Combined(D, p, q, carry, add)
    requires if add then r + carry1 * BASE == qd + qv + carry else r + qv + carry == qd + carry1 * BASE
    ensures Combined(D + [r], p + qd * W(|D|), q + qv * W(|D|), carry1, add)
  {
    ValSnoc(D, r);
    WNext(|D|);
    var w := W(|D|);
    hide Val, W;
    assert w * (carry1 * BASE) == carry1 * (BASE * w);
    if add {
      assert w * (r + carry1 * BASE) == w * (qd + qv + carry);
      Distribute(r, carry1 * BASE, w);
      Distribute(qd + qv, carry, w);
      Distribute(qd, qv, w);
    } else {
      assert w * (r + qv + carry) == w * (qd + carry1 * BASE);
      Distribute(r + qv, carry, w);
      Distribute(r, qv, w);
      Distribute(qd, carry1 * BASE, w);
    }
  }

  /** The next digit of both products is combined and written, one place below. */
  method KaryDigit(u: Natural, v: Natural, i: nat, d: digit, n: digit, cd0: digit, cv0: digit, carry0: digit, add: bool,
                   ghost x: seq<digit>, ghost D0: seq<digit>)
    returns (cd: digit, cv: digit, carry: digit, ghost D: seq<digit>)
    requires u.Valid() && v.Valid() && u.digits != v.digits && cd0 <= d && cv0 <= n && carry0 <= 1
    requires |D0| == i <= u.digits.Length && Written(u.digits[..], x, D0, 1)
    requires Combined(D0, d * Upto(x, u.length, i) - cd0 * W(i), n * Upto(v.digits[..], v.length, i) - cv0 * W(i),
      carry0, add)
    modifies u.digits
    ensures cd <= d && cv <= n && carry <= 1 && (i >= u.length ==> cd == 0) && (i >= v.length ==> cv == 0)
    ensures |D| == i + 1 && Written(u.digits[..], x, D, 1)
    ensures Combined(D, d * Upto(x, u.length, i + 1) - cd * W(i + 1),
                     n * Upto(v.digits[..], v.length, i + 1) - cv * W(i + 1), carry, add)
  {
    ghost var y := v.digits[..];
    var quo_d, quo_v, r;
    var ud: digit := if i < u.length then u.digits[i] else 0;
    if i < u.length { UnreadDigit(u, x, D0, i, true); }
    quo_d, cd := ProductDigit(i < u.length, ud, d, cd0);
    ProductNext(x, u.length, i, d, cd0, quo_d, cd);
    var vd: digit := if i < v.length then v.digits[i] else 0;
    quo_v, cv := ProductDigit(i < v.length, vd, n, cv0);
    ProductNext(y, v.length, i, n, cv0, quo_v, cv);
    if i >= u.length { OnlyCarry(d, cd0, quo_d, cd); }
    if i >= v.length { OnlyCarry(n, cv0, quo_v, cv); }
    hide Upto, W, Val, Written;
    r, carry := Combine(quo_d, quo_v, carry0, add);
    ghost var p, q := d * Upto(x, u.length, i) - cd0 * W(i), n * Upto(y, v.length, i) - cv0 * W(i);
    CombinedNext(D0, p, q, carry0, add, quo_d, quo_v, r, carry);
    hide Combined;
    Put(u, i, r, true, x, D0);
    D := D0 + [r];
  }

  lemma OnlyCarry(m: digit, c: digit, q: digit, c1: digit)
    requires q + c1 * BASE == m * 0 + c
    ensures c1 == 0
  {
  }

  /** All digits of both products are combined; one more takes the carries. */
  method KaryDigits(u: Natural, v: Natural, d: digit, n: digit, add: bool) returns (carry: digit, ghost D: seq<digit>)
    requires u.Valid() && v.Valid() && u.digits != v.digits && v.length <= u.digits.Length
    modifies u.digits
    ensures
      var len := Max(u.length, v.length);
      && carry <= 1 && |D| == len + 1 && Written(u.digits[..], old(u.digits[..]), D, 1)
      && Combined(D, d * old(Val(u.digits[..u.length])), n * v.Value(), carry, add)
  {
    ghost var x, y := u.digits[..], v.digits[..];
    var carry_d: digit, carry_v: digit := 0, 0;
    carry, D := 0, [];
    var len := Max(u.length, v.length);
    var i := 0;
    ghost var U, V := Val(x[..u.length]), v.Value();
    assert x[..u.length] == u.digits[..u.length] && y[..v.length] == v.digits[..v.length];
    Nothing(x, u.length, d);
    Nothing(y, v.length, n);
    assert Combined([], 0, 0, 0, add);
    while i < len
      invariant i <= len && |D| == i && carry_d <= d && carry_v <= n && carry <= 1
      invariant v.digits[..] == y && Written(u.digits[..], x, D, 1)
      invariant Combined(D, d * Upto(x, u.length, i) - carry_d * W(i), n * Upto(y, v.length, i) - carry_v * W(i),
        carry, add)
    {
      hide Upto, W, Written, Combined;
      carry_d, carry_v, carry, D := KaryDigit(u, v, i, d, n, carry_d, carry_v, carry, add, x, D);
      i := i + 1;
    }
    Wholes(x, u.length, len + 1);
    Wholes(y, v.length, len + 1);
    hide Upto, W, Written, Combined;
    carry_d, carry_v, carry, D := KaryDigit(u, v, len, d, n, carry_d, carry_v, carry, add, x, D);
    assert d * Upto(x, u.length, len + 1) - 0 * W(len + 1) == d * U;
    assert n * Upto(y, v.length, len + 1) - 0 * W(len + 1) == n * V;
  }

  lemma Nothing(s: seq<digit>, len: nat, m: nat)
    requires len <= |s|
    ensures m * Upto(s, len, 0) - 0 * W(0) == 0
  {
    assert s[..0] == [];
  }

  lemma Wholes(s: seq<digit>, len: nat, i: nat)
    requires len <= |s| && i >= len
    ensures Upto(s, len, i) == Val(s[..len])
  {
  }

  /** Both products are below the weight of the digit above. */
  lemma ProductsBound(U: nat, V: nat, d: nat, n: nat, w: nat)
    requires d <= 0x8000 && n < 0x2_0000 && U < w && V < w
    ensures d * U + n * V < BASE * w && d * U < BASE * w && n * V < BASE * w
  {
    MulLe(d, 0x8000, U);
    MulLe(n, 0x2_0000, V);
  }

  /** Without the low digit, which is zero, and with the sign taken off. */
  lemma KaryValue(D: seq<digit>, U: nat, V: nat, d: nat, n: nat, x: int, carry: nat, add: bool, len: nat)
    requires |D| == len + 1 && Combined(D, d * U, n * V, carry, add) && carry <= 1
    requires d == Abs(x) && d <= 0x8000 && n < 0x2_0000 && U < W(len) && V < W(len) && (add <==> x < 0)
    requires (x * U - n * V) % BASE == 0
    ensures add ==> carry == 0
    ensures
      var z := Val(D[1..]);
      (if carry == 1 then (if z == 0 then 0 else W(len) - z) else z) == Abs(x * U - n * V) / BASE
  {
    ValBound(D);
    ValHead(D);
    WNext(len);
    ProductsBound(U, V, d, n, W(len));
    var p, q := d * U, n * V;
    SignedProduct(x, d, U, V, n);
    var z, w := Val(D[1..]), W(len);
    hide Val, W;
    if x < 0 {
      AddedOut(Val(D), D[0], z, p, q, carry, BASE * w);
    } else {
      ShiftedOut(Val(D), D[0], z, p, q, w, carry == 1);
    }
  }

  lemma SignedProduct(x: int, d: nat, U: nat, V: nat, n: nat)
    requires d == Abs(x)
    ensures d * U >= 0 && n * V >= 0
    ensures x * U - n * V == if x < 0 then 0 - d * U - n * V else d * U - n * V
    ensures x < 0 ==> Abs(x * U - n * V) == d * U + n * V
  {
    MulLe(0, n, V);
    MulLe(0, d, U);
    if x < 0 { assert x * U == 0 - d * U by { Distribute(0, d, U); assert x == 0 - d; } }
  }

  lemma AddedOut(d: nat, low: digit, high: nat, p: int, q: int, carry: nat, w: nat)
    requires p >= 0 && q >= 0
    requires d == low + BASE * high && d + carry * w == p + q && p + q < w && carry <= 1 && (-p - q) % BASE == 0
    ensures carry == 0 && high == (p + q) / BASE
  {
    var k := (-p - q) / BASE;
    assert -p - q == BASE * k;
    if carry == 0 {
      UniqueInt(BASE, d, -k, 0);
      UniqueInt(BASE, d, high, low);
    }
  }

  /** Reduce the odd `u` by the odd `v` with two small multipliers. */
  method NaturalKaryReductionInplace(u: Natural, v: Natural)
    requires u.Trimmed() && v.Trimmed() && u.digits != v.digits && u != v && Odd(u.Value()) && Odd(v.Value())
    requires v.length <= u.digits.Length
    modifies u`length, u.digits
    ensures u.Trimmed() && u.Value() == Kary(old(u.Value()), v.Value()) && u.length <= Max(old(u.length), v.length)
  {
    ghost var U, V := u.Value(), v.Value();
    OddLow(u);
    OddLow(v);
    hide Val;
    var n, d := ReducedRatMod(u.digits[0], v.digits[0]);
    MultipliersLow(U, V);
    MultipliersSmall(U, V);
    ghost var x := Multipliers(U, V).1;
    assert n == Multipliers(U, V).0;
    SignBit(d, x);
    var add := (d / 0x1_0000) % 2 == 1;
    if add { d := (BASE - d) % BASE % 0x1_0000; }
    var count := Max(u.length, v.length);
    KaryIs(U, V, n, x);
    ghost var was := u.digits[..];
    hide Multipliers, Stands, Congruent, Kary, Val, W, Combined, Written, Odd;
    var carry;
    ghost var D;
    LongestBound(u, v, count);
    carry, D := KaryDigits(u, v, d, n, add);
    KaryValue(D, U, V, d, n, x, carry, add, count);
    WrittenVal(u, was, D, true, count);
    if carry == 1 { Negate(u, count); }
    u.length := count;
    ghost var s := u.digits[..count];
    u.Trim();
    ValPad(s, u.length);
    assert s[..u.length] == u.digits[..u.length];
  }

  lemma KaryIs(U: nat, V: nat, n: nat, x: int)
    requires Odd(V) && Multipliers(U, V) == (n, x) && Congruent(x * U, n * V, BASE)
    ensures Kary(U, V) == Abs(x * U - n * V) / BASE && (x * U - n * V) % BASE == 0
  {
    hide Multipliers;
  }

  lemma LongestBound(u: Natural, v: Natural, count: nat)
    requires u.Valid() && v.Valid() && count == Max(u.length, v.length)
    ensures u.Value() < W(count) && v.Value() < W(count)
  {
    ValBound(u.digits[..u.length]);
    ValBound(v.digits[..v.length]);
    PowMonotone(BASE, u.length, count);
    PowMonotone(BASE, v.length, count);
  }
}
