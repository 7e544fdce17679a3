/** The steps of the greatest common divisor on digits changed in place. */
module GcdInPlace {
  import opened Arithmetic
  import opened Digits
  import opened Divisors
  import opened Inverses
  import opened Bdivmods
  import opened Naturals
  import opened LeadingDigits
  import opened NaturalShift

  // ----- shifting right in place -----

  /** Shift `v` right; the digits beyond the result stay as they are. */
  method NaturalRslInplace(v: Natural, shift: nat)
    requires v.Trimmed()
    modifies v`length, v.digits
    ensures v.Trimmed() && v.Value() == old(v.Value()) / Pow(2, shift) && v.length <= old(v.length)
    ensures forall j :: v.length <= j < v.digits.Length ==> v.digits[j] == old(v.digits[j])
  {
    var dshift, bits := shift / 32, shift % 32;
    ghost var t := v.digits[..v.length];
    if v.length <= dshift {
      v.length := 0;
      ShortValue(t, shift);
      return;
    }
    ShiftOf(bits);
    hide *;
    var index := v.length - dshift;
    var length: nat := if v.digits[v.length - 1] / Pow(2, bits) == 0 then index - 1 else index;
    ghost var s := t[dshift..];
    MoveDown(v, dshift, index, length, bits, s);
    v.length := length;
    ShiftedDigits(t, v.digits[..length], shift, Pow(2, bits), Pow(2, 32 - bits), s);
    TrimmedValue(v);
  }

  lemma TrimmedValue(v: Natural)
    requires v.length <= v.digits.Length
    ensures v.Valid() && v.Value() == Val(v.digits[..v.length])
    ensures v.Trimmed() <==> (v.length > 0 ==> v.digits[..v.length][v.length - 1] != 0)
  {
  }

  /** Each digit of the result is written below the digits it is made from. */
  method MoveDown(v: Natural, dshift: nat, index: nat, length: nat, bits: nat, ghost s: seq<digit>)
    requires length <= index && dshift + index <= v.digits.Length && bits < 32 && s == v.digits[dshift..dshift + index]
    requires Pow(2, bits) > 0
    modifies v.digits
    ensures forall j :: 0 <= j < length ==> v.digits[j] == ShiftedRight(s, Pow(2, bits), Pow(2, 32 - bits))[j]
    ensures forall j :: length <= j < v.digits.Length ==> v.digits[j] == old(v.digits[j])
  {
    ghost var p, h, was := Pow(2, bits), Pow(2, 32 - bits), v.digits[..];
    ShiftOf(bits);
    hide Val, W, ShiftedRight, Pow, Shift, RightDigit;
    var i := 0;
    while i < length
      invariant i <= length
      invariant forall j :: 0 <= j < i ==> v.digits[j] == ShiftedRight(s, p, h)[j]
      invariant forall j :: i <= j < v.digits.Length ==> v.digits[j] == was[j]
    {
      ShiftedRightDigit(s, p, h, i);
      var d1 := v.digits[dshift + i];
      var d2: digit := if i + 1 < index then v.digits[dshift + i + 1] else 0;
      assert d1 == s[i] && (i + 1 < |s| ==> d2 == s[i + 1]);
      v.digits[i] := ShiftPair(d1, d2, bits);
      RightDigitIs(s, i, p, h, d1, d2);
      i := i + 1;
    }
  }

  lemma RightDigitIs(s: seq<digit>, i: nat, p: nat, h: nat, d1: digit, d2: digit)
    requires i < |s| && p > 0 && d1 == s[i] && d2 == if i + 1 < |s| then s[i + 1] else 0
    ensures RightDigit(s, i, p, h) == d1 / p + (d2 * h) % BASE
  {
  }

  // ----- writing behind reading -----

  /** The digits `D` have been written over those there were, from the place `s` of `D` on. */
  ghost predicate Written(now: seq<digit>, was: seq<digit>, D: seq<digit>, s: nat) {
    && |now| == |was| && |D| <= |now| + s
    && (forall k :: 0 <= k < |now| && k + s < |D| ==> now[k] == D[k + s])
    && forall k :: 0 <= k < |now| && k + s >= |D| ==> now[k] == was[k]
  }

  function One(shift: bool): nat { if shift then 1 else 0 }

  /** Write the next digit; when shifting, one place below, and not the first. */
  method Put(u: Natural, i: nat, r: digit, shift: bool, ghost was: seq<digit>, ghost D: seq<digit>)
    requires Written(u.digits[..], was, D, One(shift)) && |D| == i < u.digits.Length + One(shift)
    modifies u.digits
    ensures Written(u.digits[..], was, D + [r], One(shift))
  {
    if !shift || i > 0 { u.digits[if shift then i - 1 else i] := r; }
  }

  /** One digit of a difference with a multiple. */
  lemma ScaledStep(d: int, V: int, X: int, w: nat, b: nat, cm: nat, cs: nat, vi: nat, xi: nat, q: nat, ql: nat,
      z: nat, cm1: nat, cs1: nat)
    requires d + b * V == X + (cm + cs) * w
    requires q == b * vi + cm && q == cm1 * BASE + ql && z + ql + cs == xi + cs1 * BASE
    ensures (d + w * z) + b * (V + w * vi) == (X + w * xi) + (cm1 + cs1) * (BASE * w)
  {
    assert w * (z + ql + cs) == w * (xi + cs1 * BASE);
    assert b * (V + w * vi) == b * V + w * (b * vi);
    assert w * (b * vi) + w * cm == w * (cm1 * BASE) + w * ql
      by { Distribute(b * vi, cm, w); Distribute(cm1 * BASE, ql, w); }
    assert w * (cm1 * BASE) == cm1 * (BASE * w) && w * (cs1 * BASE) == cs1 * (BASE * w);
  }

  lemma ScaledDigit(D: seq<digit>, x: seq<digit>, y: seq<digit>, i: nat, b: nat, cm: nat, cs: nat, q: nat, r: digit,
      cm1: nat, cs1: nat)
    requires i == |D| < |x| && i < |y| && Val(D) + b * Val(y[..i]) == Val(x[..i]) + (cm + cs) * W(i)
    requires q == b * y[i] + cm && cm1 == q / BASE && r + q % BASE + cs == x[i] + cs1 * BASE
    ensures Val(D + [r]) + b * Val(y[..i + 1]) == Val(x[..i + 1]) + (cm1 + cs1) * W(i + 1)
  {
    WNext(i);
    hide Val, W;
    ValSnoc(D, r);
    Snoc(x, 0, i);
    Snoc(y, 0, i);
    assert x[0..i] == x[..i] && x[0..i + 1] == x[..i + 1] && y[0..i] == y[..i] && y[0..i + 1] == y[..i + 1];
    ScaledStep(Val(D), Val(y[..i]), Val(x[..i]), W(i), b, cm, cs, y[i], x[i], q, q % BASE, r, cm1, cs1);
  }

  lemma CarryBound(b: digit, x: digit, c: nat)
    requires c <= BASE - 2
    ensures (b * x + c) / BASE <= BASE - 2
  {
    MulLe(b, BASE - 1, x);
    MulLe(x, BASE - 1, BASE - 1);
  }

  /** Subtract `b` times the digits of `v` from as many digits of `u`; return what is owed to the next. */
  method MultiplySubtract(u: Natural, v: Natural, b: digit, shift: bool) returns (carry: digit, ghost D: seq<digit>)
    requires v.Valid() && v.length <= u.digits.Length && u.digits != v.digits
    modifies u.digits
    ensures |D| == v.length && Written(u.digits[..], old(u.digits[..]), D, One(shift))
    ensures Val(D) + b * v.Value() == Val(old(u.digits[..])[..v.length]) + carry * W(v.length)
  {
    var carry_mul: digit, carry_sub: digit := 0, 0;
    D := [];
    ghost var x, y := u.digits[..], v.digits[..];
    var i := 0;
    while i < v.length
      invariant i <= v.length && |D| == i && carry_mul <= BASE - 2 && carry_sub <= 1
      invariant Written(u.digits[..], x, D, One(shift)) && v.digits[..] == y
      invariant Val(D) + b * Val(y[..i]) == Val(x[..i]) + (carry_mul + carry_sub) * W(i)
    {
      CarryBound(b, v.digits[i], carry_mul);
      hide Val, W, Written;
      ghost var cm, cs := carry_mul, carry_sub;
      var quo := b * v.digits[i] + carry_mul;
      carry_mul := quo / BASE;
      var quo_d := (quo % BASE + carry_sub) % BASE;
      UnreadDigit(u, x, D, i, shift);
      var d := u.digits[i];
      var r := d;
      if quo_d != 0 {
        r := (d - quo_d + BASE) % BASE;
        carry_sub := if r > d then 1 else 0;
      }
      BorrowStep(d, quo % BASE, cs, r, carry_sub);
      Put(u, i, r, shift, x, D);
      ScaledDigit(D, x, y, i, b, cm, cs, quo, r, carry_mul, carry_sub);
      D := D + [r];
      i := i + 1;
    }
    carry := carry_sub + carry_mul;
    assert y[..v.length] == v.digits[..v.length];
  }

  lemma UnreadDigit(u: Natural, x: seq<digit>, D: seq<digit>, i: nat, shift: bool)
    requires Written(u.digits[..], x, D, One(shift)) && |D| == i < u.digits.Length
    ensures u.digits[i] == x[i]
  {
    assert u.digits[..][i] == u.digits[i];
  }

  /** Two's complement of the first digits. */
  method Negate(u: Natural, count: nat)
    requires count <= u.digits.Length
    modifies u.digits
    ensures
      var x := old(Val(u.digits[..count]));
      Val(u.digits[..count]) == if x == 0 then 0 else W(count) - x
    ensures forall j :: count <= j < u.digits.Length ==> u.digits[j] == old(u.digits[j])
  {
    var carry := 1;
    var i := 0;
    ghost var x := u.digits[..];
    while i < count
      invariant i <= count && (carry == 0 || carry == 1)
      invariant Val(u.digits[..][..i]) + Val(x[..i]) == (if carry == 1 then 0 else W(i))
      invariant forall j :: i <= j < u.digits.Length ==> u.digits[j] == x[j]
    {
      WNext(i);
      hide Val, W;
      ghost var z, c := u.digits[..], carry;
      var d := u.digits[i];
      u.digits[i] := (BASE - 1 - d + carry) % BASE;
      if d != 0 { carry := 0; }
      assert u.digits[..][..i] == z[..i];
      Snoc(u.digits[..], 0, i);
      Snoc(x, 0, i);
      assert x[0..i] == x[..i] && x[0..i + 1] == x[..i + 1];
      assert u.digits[..][0..i] == z[..i] && u.digits[..][0..i + 1] == u.digits[..][..i + 1];
      NegateStep(Val(z[..i]), Val(x[..i]), W(i), c, carry, d, u.digits[i]);
      i := i + 1;
    }
    assert u.digits[..][..count] == u.digits[..count] && x[..count] == old(u.digits[..count]);
    ValBound(u.digits[..count]);
    ValBound(x[..count]);
  }

  lemma NegateStep(z: nat, x: nat, w: nat, c: nat, c1: nat, d: digit, r: digit)
    requires z + x == (if c == 1 then 0 else w) && c <= 1 && w > 0
    requires r == (BASE - 1 - d + c) % BASE && c1 == (if d != 0 then 0 else c)
    ensures (z + w * r) + (x + w * d) == (if c1 == 1 then 0 else BASE * w)
  {
    Distribute(r, d, w);
    if c1 == 1 { assert r == 0 && d == 0; } else { assert r + d == BASE - 1 + c; Distribute(BASE - 1, c, w); }
  }

  // ----- taking away a multiple -----

  /** Take what is owed from the digits of `u` from `i0` on; the rest is copied. */
  method PassOn(u: Natural, i0: nat, carry0: digit, shift: bool, ghost was: seq<digit>, ghost D0: seq<digit>,
      ghost y: nat)
    returns (carry: digit, ghost D: seq<digit>)
    requires i0 > 0 && u.Valid() && Written(u.digits[..], was, D0, One(shift)) && |D0| == i0 <= u.digits.Length
    requires Val(D0) + y == Val(was[..i0]) + carry0 * W(i0)
    modifies u.digits
    ensures
      var n := if i0 < u.length then u.length else i0;
      |D| == n && Written(u.digits[..], was, D, One(shift)) && Val(D) + y == Val(was[..n]) + carry * W(n)
  {
    var i := i0;
    carry, D := carry0, D0;
    while carry != 0 && i < u.length
      invariant i0 <= i && (i <= u.length || i == i0) && |D| == i
      invariant Written(u.digits[..], was, D, One(shift)) && Val(D) + y == Val(was[..i]) + carry * W(i)
      decreases u.length - i
    {
      hide Val, W, Written;
      ghost var c := carry;
      UnreadDigit(u, was, D, i, shift);
      var d := u.digits[i];
      var r := (d - carry + BASE) % BASE;
      carry := if r > d then 1 else 0;
      Put(u, i, r, shift, was, D);
      PassStep(D, was, i, y, c, r, carry);
      D := D + [r];
      i := i + 1;
    }
    while i < u.length
      invariant i0 <= i && (i <= u.length || i == i0) && |D| == i && (i < u.length ==> carry == 0)
      invariant Written(u.digits[..], was, D, One(shift)) && Val(D) + y == Val(was[..i]) + carry * W(i)
    {
      hide Val, W, Written;
      UnreadDigit(u, was, D, i, shift);
      var r := u.digits[i];
      Put(u, i, r, shift, was, D);
      PassStep(D, was, i, y, 0, r, 0);
      D := D + [r];
      i := i + 1;
    }
  }

  lemma PassStep(D: seq<digit>, was: seq<digit>, i: nat, y: nat, c: digit, r: digit, c1: nat)
    requires |D| == i < |was| && Val(D) + y == Val(was[..i]) + c * W(i) && r + c == was[i] + c1 * BASE
    ensures Val(D + [r]) + y == Val(was[..i + 1]) + c1 * W(i + 1)
  {
    WNext(i);
    ValSnoc(D, r);
    Snoc(was, 0, i);
    assert was[0..i] == was[..i] && was[0..i + 1] == was[..i + 1];
    hide Val, W;
    var w := W(i);
    assert w * (r + c) == w * (was[i] + c1 * BASE);
    Distribute(r, c, w);
    Distribute(was[i], c1 * BASE, w);
    assert w * (c1 * BASE) == c1 * (BASE * w);
  }

  /** How many digits a step writes, for the number `x` that it reads in `n` digits and the multiple `y`. */
  function Count(x: nat, y: nat, n: nat, shift: bool): int {
    n - One(shift) + if x < y then 1 else 0
  }

  /**
   * Subtract `b` times `v` from the digits of `u`, as many as the longer number has; negate a negative result.
   * With `shift` the low digit, then zero, is left out.
   */
  method NaturalBdivmodStepInplace(u: Natural, v: Natural, b: digit, shift: bool)
    requires u.Valid() && v.Valid() && v.length > 0 && u.digits != v.digits && u != v
    requires u.length < u.digits.Length && v.length < u.digits.Length
    requires
      var n := if v.length < u.length then u.length else v.length;
      shift ==> (Val(u.digits[..n]) - b * v.Value()) % BASE == 0
    modifies u`length, u.digits
    ensures u.Trimmed()
    ensures
      var n := if v.length < old(u.length) then old(u.length) else v.length;
      var x, y := old(Val(u.digits[..n])), b * v.Value();
      var count := Count(x, y, n, shift);
      && u.Value() == (if shift then Abs(x - y) / BASE else Abs(x - y))
      && 0 <= count && u.length <= count <= u.digits.Length
      && (forall j :: u.length <= j < count ==> u.digits[j] == 0)
      && forall j :: count <= j < u.digits.Length ==> u.digits[j] == old(u.digits[j])
  {
    ghost var was, V := u.digits[..], v.Value();
    ghost var y: nat := b * V;
    ghost var n := if v.length < u.length then u.length else v.length;
    ghost var x := Val(was[..n]);
    assert was[..n] == u.digits[..n];
    hide Val, W, Written, Abs;
    var carry, D := MultiplySubtract(u, v, b, shift);
    var i := v.length;
    carry, D := PassOn(u, i, carry, shift, was, D, y);
    if i < u.length { i := u.length; }
    var count := if shift then i - 1 else i;
    Owed(D, x, y, n, carry);
    if carry != 0 {
      var r := BASE - carry;
      Put(u, i, r, shift, was, D);
      OwedMore(D, x, y, n, carry, r);
      D := D + [r];
      count := count + 1;
    }
    Settle(u, D, x, y, n, carry != 0, shift, count, was);
  }

  /** Negate a negative result, and leave out leading zeros. */
  method Settle(u: Natural, ghost D: seq<digit>, ghost x: nat, ghost y: nat, ghost n: nat, negative: bool,
      shift: bool, count: nat,
                ghost was: seq<digit>)
    requires Written(u.digits[..], was, D, One(shift)) && count + One(shift) == |D| && count <= u.digits.Length
    requires n > 0 && |D| == if negative then n + 1 else n
    requires Val(D) + y == if negative then x + W(n + 1) else x
    requires (negative <==> x < y) && (negative ==> Val(D) > 0) && (shift ==> (x - y) % BASE == 0)
    modifies u`length, u.digits
    ensures u.Trimmed() && u.length <= count
    ensures u.Value() == if shift then Abs(x - y) / BASE else Abs(x - y)
    ensures forall j :: u.length <= j < count ==> u.digits[j] == 0
    ensures forall j :: count <= j < u.digits.Length ==> u.digits[j] == was[j]
  {
    WrittenVal(u, was, D, shift, count);
    StepValue(D, x, y, n, negative, shift);
    hide Val, W, Written, Abs;
    if negative { Negate(u, count); }
    u.length := count;
    ghost var s := u.digits[..count];
    u.Trim();
    ValPad(s, u.length);
    assert s[..u.length] == u.digits[..u.length];
  }

  lemma Owed(D: seq<digit>, x: nat, y: nat, n: nat, carry: digit)
    requires |D| == n && Val(D) + y == x + carry * W(n)
    ensures carry > 0 <==> x < y
  {
    ValBound(D);
    if carry > 0 { MulLe(1, carry, W(n)); }
  }

  lemma OwedMore(D: seq<digit>, x: nat, y: nat, n: nat, carry: digit, r: digit)
    requires |D| == n && Val(D) + y == x + carry * W(n) && carry > 0 && r == BASE - carry
    ensures Val(D + [r]) + y == x + W(n + 1) && Val(D + [r]) > 0
  {
    ValSnoc(D, r);
    MulLt(0, r, W(n));
    WNext(n);
    Distribute(r, carry, W(n));
  }

  lemma WrittenVal(u: Natural, was: seq<digit>, D: seq<digit>, shift: bool, count: nat)
    requires Written(u.digits[..], was, D, One(shift)) && count + One(shift) == |D| && count <= u.digits.Length
    ensures u.digits[..count] == D[One(shift)..]
    ensures forall j :: count <= j < u.digits.Length ==> u.digits[j] == was[j]
  {
    forall j | 0 <= j < u.digits.Length ensures u.digits[j] == u.digits[..][j] { }
  }

  /** What the written digits come to. */
  lemma StepValue(D: seq<digit>, x: nat, y: nat, n: nat, negative: bool, shift: bool)
    requires n > 0 && |D| == if negative then n + 1 else n
    requires Val(D) + y == if negative then x + W(n + 1) else x
    requires (negative <==> x < y) && (negative ==> Val(D) > 0)
    requires shift ==> (x - y) % BASE == 0
    ensures
      var z := Val(D[One(shift)..]);
      var w := W(|D| - One(shift));
      (if negative then (if z == 0 then 0 else w - z) else z) == if shift then Abs(x - y) / BASE else Abs(x - y)
  {
    ValBound(D);
    if shift {
      ValHead(D);
      WNext(|D| - 1);
      WNext(n);
      ShiftedOut(Val(D), D[0], Val(D[1..]), x, y, W(|D| - 1), negative);
    } else {
      assert D[One(shift)..] == D;
    }
  }

  lemma ShiftedOut(d: nat, low: digit, high: nat, x: nat, y: nat, w: nat, negative: bool)
    requires d == low + BASE * high && (x - y) % BASE == 0 && w > 0 && d < BASE * w
    requires d + y == if negative then x + BASE * w else x
    requires (negative <==> x < y) && (negative ==> d > 0)
    ensures (if negative then (if high == 0 then 0 else w - high) else high) == Abs(x - y) / BASE
  {
    var k := (x - y) / BASE;
    assert x - y == BASE * k;
    if negative {
      UniqueInt(BASE, d, k + w, 0);
      UniqueInt(BASE, d, high, low);
      Distribute(k, w, BASE);
      assert Abs(x - y) == BASE * (-k);
      UniqueInt(BASE, Abs(x - y), -k, 0);
    } else {
      UniqueInt(BASE, d, k, 0);
      UniqueInt(BASE, d, high, low);
    }
  }

  // ----- reducing by one number -----

  ghost predicate Trim0(s: seq<digit>, len: nat) {
    len <= |s| && (len > 0 ==> s[len - 1] != 0)
  }

  /** What the digits hold: the number of the first `len`, and what a step reads that goes over `m` at least. */
  ghost function HeldIn(s: seq<digit>, len: nat, m: nat): Held
    requires len <= |s| && m <= |s|
  {
    Held(Val(s[..len]), Val(s[..Max(len, m)]))
  }

  lemma ZerosAbove(s: seq<digit>, len: nat, n: nat)
    requires len <= n <= |s| && forall j :: len <= j < n ==> s[j] == 0
    ensures Val(s[..n]) == Val(s[..len])
  {
    ValPad(s[..n], len);
    assert s[..n][..len] == s[..len];
  }

  /** The digits after a step hold what the next step is to read. */
  lemma StepHeld(was: seq<digit>, now: seq<digit>, len: nat, len1: nat, m: nat, V: nat, q: nat)
    requires |was| == |now| && len < |was| && 0 < m == NumDigits(V) < |was| && Trim0(was, len) && Odd(V)
    requires
      var n := Max(len, m);
      var x := Val(was[..n]);
      var count := Count(x, q * V, n, true);
      && q == Quot(x, V, 32) && q != 0
      && len1 <= count <= |now| && Val(now[..len1]) == Abs(x - q * V) / BASE
      && (forall j :: len1 <= j < count ==> now[j] == 0) && forall j :: count <= j < |now| ==> now[j] == was[j]
    ensures HeldIn(now, len1, m) == NextDigit(HeldIn(was, len, m), V)
  {
    var n := Max(len, m);
    var x, y, z := Val(was[..n]), q * V, Val(now[..len1]);
    NextIs(Val(was[..len]), x, V, m, q, z);
    ReadLong(was, len, m);
    hide Quot, Abs, Val, W, NumDigits, NextDigit, Stale, Odd;
    if y <= x < W(m) {
      TopStays(was, now, len1, m);
    } else {
      ZerosAbove(now, len1, Max(len1, m));
    }
  }

  lemma NextIs(value: nat, x: nat, V: nat, m: nat, q: nat, z: nat)
    requires Odd(V) && 0 < m == NumDigits(V) && q == Quot(x, V, 32) && q != 0 && z == Abs(x - q * V) / BASE
    ensures NextDigit(Held(value, x), V) == Held(z, if q * V <= x < W(m) then Stale(z, x, m - 1) else z)
  {
  }

  lemma TopStays(was: seq<digit>, now: seq<digit>, len1: nat, m: nat)
    requires |was| == |now| && 0 < m <= |was| && len1 <= m - 1 && now[m - 1] == was[m - 1]
    requires forall j :: len1 <= j < m - 1 ==> now[j] == 0
    ensures Val(now[..m]) == Stale(Val(now[..len1]), Val(was[..m]), m - 1)
  {
    assert was[..m][m - 1..] == [was[m - 1]];
    assert now[0..m - 1] == now[..m - 1] && now[0..m] == now[..m];
    hide Val, W;
    ZerosAbove(now, len1, m - 1);
    Snoc(now, 0, m - 1);
    ValDiv(was[..m], m - 1);
    ValOne(was[m - 1]);
  }

  /** Longer than `m` digits just if it reaches the weight of the digit at `m`. */
  lemma ReadLong(s: seq<digit>, len: nat, m: nat)
    requires len <= |s| && m <= |s| && Trim0(s, len)
    ensures len > m <==> Val(s[..Max(len, m)]) >= W(m)
  {
    ValBound(s[..Max(len, m)]);
    if len > m {
      ValPositive(s[..len]);
      PowMonotone(BASE, m, len - 1);
    }
  }

  /** The digits after a digit that is zero has been shifted out. */
  lemma ShiftHeld(was: seq<digit>, now: seq<digit>, len: nat, len1: nat, m: nat, V: nat)
    requires |was| == |now| && len < |was| && 0 < m == NumDigits(V) < |was| && Trim0(was, len) && Trim0(now, len1) &&
      Odd(V)
    requires Quot(Val(was[..Max(len, m)]), V, 32) == 0 && was[0] == 0
    requires len1 <= len && Val(now[..len1]) == Val(was[..len]) / BASE
    requires forall j :: len1 <= j < |now| ==> now[j] == was[j]
    ensures HeldIn(now, len1, m) == NextDigit(HeldIn(was, len, m), V)
  {
    ValDigits(was[..len]);
    ValDigits(now[..len1]);
    var x, y := Val(was[..Max(len, m)]), Val(was[..len]);
    NextZero(y, x, V, m, len);
    hide Quot, NextDigit, NumDigits, Odd, W;
    if len == 0 {
      assert now == was;
    } else {
      assert len > 1;
      ShiftedLength(was, now, len, len1);
      if len <= m {
        hide Val, Stale;
        AboveStays(was, now, len1, m);
      }
    }
  }

  lemma NextZero(value: nat, x: nat, V: nat, m: nat, len: nat)
    requires Odd(V) && 0 < m == NumDigits(V) && Quot(x, V, 32) == 0 && len == NumDigits(value)
    ensures NextDigit(Held(value, x), V) ==
      if len == 0 then Held(0, x) else if len > m then Held(value / BASE, value / BASE)
      else Held(value / BASE, Stale(value / BASE, x, len - 1))
  {
  }

  lemma AboveStays(was: seq<digit>, now: seq<digit>, len1: nat, m: nat)
    requires |was| == |now| && len1 <= m <= |was| && forall j :: len1 <= j < m ==> now[j] == was[j]
    ensures Val(now[..m]) == Stale(Val(now[..len1]), Val(was[..m]), len1)
  {
    assert now[..m][len1..] == was[..m][len1..];
    assert now[..m][..len1] == now[..len1];
    ValSplit(now[..m], len1);
    ValDiv(was[..m], len1);
  }

  lemma ShiftedLength(was: seq<digit>, now: seq<digit>, len: nat, len1: nat)
    requires 0 < len <= |was| && len1 <= |now| && NumDigits(Val(was[..len])) == len &&
      NumDigits(Val(now[..len1])) == len1
    requires Val(now[..len1]) == Val(was[..len]) / BASE
    ensures len1 == len - 1
  {
  }

  lemma LowDigit(s: seq<digit>, n: nat)
    requires 0 < n <= |s|
    ensures Val(s[..n]) % BASE == s[0]
  {
    ValHead(s[..n]);
    DivMod(Val(s[..n][1..]), s[0]);
  }

  /** The digit of the quotient modulo 2^s, with the inverse of the low digit. */
  lemma QuotByInverse(u: nat, v: nat, d: digit, e: digit, inv: digit, s: nat)
    requires Odd(v) && s <= 32 && d == u % BASE && e == v % BASE && Congruent(inv * e, 1, BASE)
    ensures Pow(2, s) > 0 && ((d % Pow(2, s)) * inv) % BASE % Pow(2, s) == Quot(u, v, s)
  {
    var m := Pow(2, s);
    var x := d % m;
    var q := (x * inv) % BASE % m;
    hide Quot, Pow;
    // q * v is congruent to x * inv * v
    CongruentMod((x * inv) % BASE, m);
    CongruentMod(x * inv, BASE);
    CongruentLess((x * inv) % BASE, x * inv, s);
    CongruentAdd(q, (x * inv) % BASE, x * inv, m);
    CongruentTimes(q, x * inv, m, v);
    // inv * v is congruent to 1
    CongruentMod(v, BASE);
    CongruentTimes(v, e, BASE, inv);
    CongruentAdd(inv * v, inv * e, 1, BASE);
    CongruentLess(inv * v, 1, s);
    CongruentTimes(inv * v, 1, m, x);
    Assoc(x, inv, v);
    CongruentAdd(q * v, (x * inv) * v, x * 1, m);
    // x is congruent to u
    CongruentMod(d, m);
    CongruentMod(u, BASE);
    CongruentLess(d, u, s);
    CongruentAdd(x, d, u, m);
    CongruentAdd(q * v, x, u, m);
    QuotUnique(u, v, s, q);
  }

  lemma OddLow(v: Natural)
    requires v.Valid() && Odd(v.Value())
    ensures v.length > 0 && Odd(v.digits[0]) && v.digits[0] == v.Value() % BASE
  {
    assert Val([]) == 0;
    LowDigit(v.digits[..], v.length);
    assert v.digits[..][..v.length] == v.digits[..v.length];
  }

  lemma DigitMask(d: digit, inv: digit)
    ensures Pow(2, 32) == BASE && (d % BASE * inv) % BASE % BASE == (d * inv) % BASE
  {
    Pow32();
  }

  /** Clear one digit of `u` and shift it out. */
  method ReduceDigit(u: Natural, v: Natural, inv: digit)
    requires u.Trimmed() && v.Trimmed() && u.digits != v.digits && u != v && Odd(v.Value())
    requires u.length < u.digits.Length && v.length < u.digits.Length
    requires Congruent(inv * (v.Value() % BASE), 1, BASE)
    modifies u`length, u.digits
    ensures u.Trimmed() && u.length < u.digits.Length
    ensures HeldIn(u.digits[..], u.length, v.length) ==
      NextDigit(old(HeldIn(u.digits[..], u.length, v.length)), v.Value())
  {
    ghost var was, len, m, V := u.digits[..], u.length, v.length, v.Value();
    OddLow(v);
    assert NumDigits(V) == m by { ValDigits(v.digits[..m]); }
    var q0 := (u.digits[0] * inv) % BASE;
    ghost var n := Max(len, m);
    ghost var x := Val(was[..n]);
    LowDigit(was, n);
    DigitMask(u.digits[0], inv);
    QuotByInverse(x, V, u.digits[0], V % BASE, inv, 32);
    ReduceSame(x, V, 32);
    assert was[..n] == u.digits[..n] && was[..len] == u.digits[..len];
    hide Quot, Pow, Val, W, NumDigits, NextDigit, Congruent;
    if q0 != 0 {
      LowClear(x, q0, V);
      NaturalBdivmodStepInplace(u, v, q0, true);
      assert u.digits[..u.length] == u.digits[..][..u.length];
      StepHeld(was, u.digits[..], len, u.length, m, V, q0);
    } else {
      ZeroLow(u.digits[0], inv, V % BASE);
      Whole32();
      NaturalRslInplace(u, 32);
      assert u.digits[..u.length] == u.digits[..][..u.length];
      ShiftHeld(was, u.digits[..], len, u.length, m, V);
    }
  }

  lemma Whole32()
    ensures Pow(2, 32) == BASE
  {
    Pow32();
  }

  lemma LowClear(x: nat, q: nat, v: nat)
    requires Odd(v) && q == Quot(x, v, 32)
    ensures (x - q * v) % BASE == 0
  {
    Pow32();
    CongruentSwap(q * v, x, BASE);
  }

  /** An odd number times its inverse: only zero gives zero. */
  lemma ZeroLow(d: digit, inv: digit, e: digit)
    requires Congruent(inv * e, 1, BASE) && (d * inv) % BASE == 0
    ensures d == 0
  {
    CongruentTimes(inv * e, 1, BASE, d);
    Assoc(d, inv, e);
    DivCombine(BASE, d * inv, d * inv, e, 0);
    Commute(d * inv, e);
    DivCombine(BASE, (d * inv) * e, (d * inv) * e - d, 1, 1);
  }

  /** Clear the low bits of `u`, fewer than a digit, and shift them out. */
  method ReduceBits(u: Natural, v: Natural, inv: digit, bits: nat)
    requires u.Trimmed() && v.Trimmed() && u.digits != v.digits && u != v && Odd(v.Value()) && 0 < bits < 32
    requires u.length < u.digits.Length && v.length < u.digits.Length
    requires Congruent(inv * (v.Value() % BASE), 1, BASE)
    modifies u`length, u.digits
    ensures u.Trimmed()
    ensures u.Value() == LastBits(old(HeldIn(u.digits[..], u.length, v.length)), v.Value(), bits)
  {
    ghost var was, len, m, V := u.digits[..], u.length, v.length, v.Value();
    hide Quot, Val, W, Congruent, LastBits, Odd, Pow;
    OddLow(v);
    ghost var n := Max(len, m);
    assert was[..n] == u.digits[..n] && was[..len] == u.digits[..len];
    var q0 := LowQuot(u.digits[0], inv, bits, was, n, V);
    if q0 != 0 { NaturalBdivmodStepInplace(u, v, q0, false); }
    LastIs(HeldIn(was, len, m), V, bits, q0, u.Value());
    NaturalRslInplace(u, bits);
  }

  /** The quotient modulo 2^bits from the low digit and the inverse. */
  method LowQuot(d: digit, inv: digit, bits: nat, ghost s: seq<digit>, ghost n: nat, ghost v: nat) returns (q0: digit)
    requires 0 < n <= |s| && d == s[0] && Odd(v) && bits < 32 && Congruent(inv * (v % BASE), 1, BASE)
    ensures q0 == Quot(Val(s[..n]), v, bits)
  {
    hide Quot, Val, Congruent, Odd;
    var dmask: nat := Pow(2, bits);
    q0 := ((d % dmask) * inv) % BASE % dmask;
    SmallQuot(s, n, v, inv, bits, q0);
  }

  lemma SmallQuot(s: seq<digit>, n: nat, v: nat, inv: digit, bits: nat, q: nat)
    requires 0 < n <= |s| && Odd(v) && bits <= 32 && Congruent(inv * (v % BASE), 1, BASE)
    requires q == ((s[0] % Pow(2, bits)) * inv) % BASE % Pow(2, bits)
    ensures q == Quot(Val(s[..n]), v, bits)
  {
    LowDigit(s, n);
    QuotByInverse(Val(s[..n]), v, s[0], v % BASE, inv, bits);
  }

  lemma LastIs(h: Held, v: nat, bits: nat, q: nat, y: nat)
    requires Odd(v) && q == Quot(h.read, v, bits) && y == if q == 0 then h.value else Abs(h.read - q * v)
    ensures LastBits(h, v, bits) == y / Pow(2, bits)
  {
  }

  /** Reduce `u` by the odd `v`: whole digits, then the bits left. */
  method NaturalBdivmodInplace(u: Natural, v: Natural, bits0: nat)
    requires u.Trimmed() && v.Trimmed() && u.digits != v.digits && u != v && Odd(v.Value())
    requires u.length < u.digits.Length && v.length < u.digits.Length
    modifies u`length, u.digits
    ensures u.Trimmed()
    ensures u.Value() == InPlace(old(HeldIn(u.digits[..], u.length, v.length)), v.Value(), bits0)
  {
    OddLow(v);
    var v0_inv := DigitInverse(v.digits[0]);
    var bits := bits0;
    ghost var h0, V := HeldIn(u.digits[..], u.length, v.length), v.Value();
    ghost var y := v.digits[..];
    hide NextDigit, LastBits, Val, Congruent;
    while bits >= 32
      invariant u.Trimmed() && u.length < u.digits.Length && v.digits[..] == y && v.Value() == V
      invariant InPlace(HeldIn(u.digits[..], u.length, v.length), V, bits) == InPlace(h0, V, bits0)
    {
      ghost var h := HeldIn(u.digits[..], u.length, v.length);
      ReduceDigit(u, v, v0_inv);
      assert InPlace(h, V, bits) == InPlace(NextDigit(h, V), V, bits - 32);
      bits := bits - 32;
      assert v.digits[..v.length] == y[..v.length];
    }
    assert u.digits[..u.length] == u.digits[..][..u.length];
    if bits > 0 { ReduceBits(u, v, v0_inv, bits); }
  }
}
