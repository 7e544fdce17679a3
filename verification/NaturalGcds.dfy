/** The greatest common divisor of two naturals, on digits changed in place. */
module NaturalGcds {
  import opened Arithmetic
  import opened Digits
  import opened Divisors
  import opened Inverses
  import opened Bdivmods
  import opened Gcds
  import opened Naturals
  import LeadingDigits
  import NaturalShift
  import opened GcdInPlace
  import KaryInPlace

  // ----- zeros -----

  /** How many low bits of `u` are zero. */
  method NaturalZeroBits(u: Natural) returns (z: nat)
    requires u.Trimmed()
    ensures z == Zeros(u.Value())
  {
    z := 0;
    ghost var s := u.digits[..u.length];
    if u.length > 0 {
      ValPositive(s);
      var i := 0;
      assert s[0..] == s;
      while u.digits[i] == 0
        invariant i < u.length && z == 32 * i && forall j :: 0 <= j < i ==> s[j] == 0
        decreases u.length - i
      {
        AllZeros(s, i);
        z := z + 32;
        i := i + 1;
      }
      var d, k: nat := u.digits[i], 0;
      assert Pow(2, 0) == 1;
      while d % 2 == 0
        invariant 0 < d && u.digits[i] == Pow(2, k) * d && z == 32 * i + k
        decreases d
      {
        assert d == 2 * (d / 2);
        Halve(Pow(2, k), d);
        d := d / 2;
        z := z + 1;
        k := k + 1;
      }
      ZerosOf(s, i, k, d);
    }
  }

  lemma AllZeros(s: seq<digit>, i: nat)
    requires i < |s| && s[|s| - 1] != 0 && forall j :: 0 <= j <= i ==> s[j] == 0
    ensures i + 1 < |s|
  {
  }

  lemma Halve(p: nat, d: nat)
    requires d % 2 == 0
    ensures (2 * p) * (d / 2) == p * d
  {
    Assoc(p, 2, d / 2);
    Commute(p, 2);
  }

  lemma ZerosOf(s: seq<digit>, i: nat, k: nat, d: nat)
    requires i < |s| && (forall j :: 0 <= j < i ==> s[j] == 0) && s[i] == Pow(2, k) * d && Odd(d)
    ensures Zeros(Val(s)) == 32 * i + k
  {
    var rest := FirstDigit(s, i);
    BelowDigit(k, d);
    hide Val, Zeros;
    var o := OddAbove(k, d, rest);
    hide Pow, Odd;
    PowAdd(2, 32 * i, k);
    Assoc(Pow(2, 32 * i), Pow(2, k), o);
    OddPartIs(32 * i + k, o);
  }

  /** The digits below are zero. */
  lemma FirstDigit(s: seq<digit>, i: nat) returns (rest: nat)
    requires i < |s| && forall j :: 0 <= j < i ==> s[j] == 0
    ensures Val(s) == Pow(2, 32 * i) * (s[i] + BASE * rest)
  {
    ValSplit(s, i);
    ValZeros(s[..i]);
    ValHead(s[i..]);
    NaturalShift.WholeDigits(i);
    rest := Val(s[i..][1..]);
  }

  lemma OddAbove(k: nat, d: nat, rest: nat) returns (o: nat)
    requires k < 32 && Odd(d)
    ensures Odd(o) && Pow(2, k) * o == Pow(2, k) * d + BASE * rest
  {
    Pow32();
    PowAdd(2, k, 32 - k);
    var p, h := Pow(2, k), Pow(2, 32 - k);
    assert h == 2 * Pow(2, 31 - k);
    o := d + h * rest;
    hide Pow;
    Distribute(d, h * rest, p);
    Assoc(p, h, rest);
    OddSum(d, Pow(2, 31 - k), rest);
  }

  lemma BelowDigit(k: nat, d: nat)
    requires Pow(2, k) * d < BASE && d > 0
    ensures k < 32
  {
    Pow32();
    if k >= 32 {
      PowMonotone(2, 32, k);
      MulLe(1, d, Pow(2, k));
    }
  }

  lemma OddSum(d: nat, h: nat, rest: nat)
    requires Odd(d)
    ensures Odd(d + (2 * h) * rest)
  {
    Assoc(2, h, rest);
  }

  lemma ShiftedOut(x: nat)
    ensures x / Pow(2, Zeros(x)) == OddPart(x)
  {
    OddPartFacts(x);
    Divided(OddPart(x), 0, Pow(2, Zeros(x)));
  }

  /** Shift out the low zero bits. */
  method StripZeros(v: Natural)
    requires v.Trimmed()
    modifies v`length, v.digits
    ensures v.Trimmed() && v.Value() == OddPart(old(v.Value())) && v.length <= old(v.length)
  {
    ShiftedOut(v.Value());
    var z := NaturalZeroBits(v);
    if z > 0 { NaturalRslInplace(v, z); } else { assert Pow(2, 0) == 1; Divided(v.Value(), 0, 1); }
  }

  /** A copy shifted right by its low zero bits, with room for two more digits. */
  method NaturalGcdNormalize(u: Natural, shift: nat) returns (r: Natural)
    requires u.Trimmed() && u.Value() > 0 && shift == Zeros(u.Value())
    ensures fresh(r) && fresh(r.digits) && r.Trimmed() && r.Value() == OddPart(u.Value())
    ensures r.length + 2 <= r.digits.Length
  {
    var dshift, bits := shift / 32, shift % 32;
    ghost var t := u.digits[..u.length];
    ShortOdd(t, shift);
    var index := u.length - dshift;
    r := new Natural(index + 2);
    r.length := index;
    NaturalShift.ShiftOf(bits);
    ghost var s := u.digits[dshift..u.length];
    assert s == t[dshift..];
    NaturalShift.ShiftInto(u, r, dshift, bits, s);
    NaturalShift.ShiftedRightVal(s, Pow(2, bits), Pow(2, 32 - bits));
    NaturalShift.RightShift(t, shift);
    assert r.digits[..index] == NaturalShift.ShiftedRight(s, Pow(2, bits), Pow(2, 32 - bits));
    ShiftedOut(Val(t));
    ghost var q := r.digits[..index];
    r.Trim();
    ValPad(q, r.length);
    assert q[..r.length] == r.digits[..r.length];
  }

  lemma ShortOdd(t: seq<digit>, shift: nat)
    requires Val(t) > 0 && shift == Zeros(Val(t))
    ensures shift / 32 < |t|
  {
    OddPartFacts(Val(t));
    ShiftedOut(Val(t));
    if |t| <= shift / 32 { NaturalShift.ShortValue(t, shift); }
  }

  // ----- shifting left -----

  /** `v` shifted left. */
  method NaturalLsl(v: Natural, shift: nat) returns (r: Natural)
    requires v.Trimmed()
    ensures fresh(r) && r.Trimmed() && r.Value() == Pow(2, shift) * v.Value()
  {
    hide Pow, LeadingDigits.Shift, W;
    if v.length == 0 {
      r := new Natural(0);
      assert r.digits[..0] == [] && v.digits[..0] == [];
      return;
    }
    var dshift, bits := shift / 32, shift % 32;
    var length := v.length + dshift;
    var index := v.length;
    var p, h: nat := Pow(2, bits), Pow(2, 32 - bits);
    NaturalShift.ShiftOf(bits);
    var top := v.digits[index - 1];
    var last := bits > 0 && top / h != 0;
    if last { length := length + 1; }
    r := new Natural(length);
    var k := 0;
    while k < dshift
      invariant k <= dshift && r.length == length && forall j :: 0 <= j < k ==> r.digits[j] == 0
    {
      r.digits[k] := 0;
      k := k + 1;
    }
    var i, below := 0, 0;
    ghost var y := v.digits[..];
    hide LeadingDigits.Shift, Pow, Val, W;
    ghost var zeros := r.digits[..dshift];
    assert |zeros| == dshift;
    NothingShifted(zeros, y, p, h);
    assert r.digits[..dshift + i] == zeros;
    while i < index
      invariant i <= index && v.digits[..] == y && fresh(r.digits) && r.length == length &&
        below == if i > 0 then y[i - 1] else 0
      invariant ShiftedUp(r.digits[..dshift + i], y, i, p, h, dshift)
    {
      var d := v.digits[i];
      ghost var was := r.digits[..dshift + i];
      r.digits[dshift + i] := LslDigit(d, below, bits);
      assert r.digits[..dshift + i + 1] == was + [r.digits[dshift + i]];
      OutDigit(y, i, below, p, h, r.digits[dshift + i]);
      NextShifted(was, y, i, p, h, dshift, r.digits[dshift + i]);
      below := d;
      i := i + 1;
    }
    if last { r.digits[length - 1] := top / h % BASE; }
    AllShifted(r, v, shift, p, h, dshift, last);
  }

  lemma NothingShifted(zeros: seq<digit>, y: seq<digit>, p: nat, h: nat)
    requires h > 0 && forall j :: 0 <= j < |zeros| ==> zeros[j] == 0
    ensures ShiftedUp(zeros, y, 0, p, h, |zeros|)
  {
    ValZeros(zeros);
    assert y[..0] == [];
    Divided(0, 0, h);
  }

  /** The low bits of a digit moved up, and the high bits of the one below. */
  method LslDigit(d: digit, below: digit, bits: nat) returns (r: digit)
    requires bits < 32
    ensures Pow(2, 32 - bits) > 0 && r == (d * Pow(2, bits)) % BASE + below / Pow(2, 32 - bits)
  {
    NaturalShift.ShiftOf(bits);
    if bits > 0 {
      LeadingDigits.ShiftDigit(d, below, Pow(2, bits), Pow(2, 32 - bits));
      r := (d * Pow(2, bits)) % BASE + below / Pow(2, 32 - bits);
    } else {
      NaturalShift.NoShift(d, 0);
      Divided(0, below, BASE);
      r := d;
    }
  }

  /** The digits of the number shifted up, up to the bits that the last digit pushes out. */
  ghost predicate ShiftedUp(r: seq<digit>, y: seq<digit>, i: nat, p: nat, h: nat, dshift: nat) {
    h > 0 && i <= |y| && |r| == dshift + i &&
    Val(r) + Out(y, i, h) * W(dshift + i) == p * (W(dshift) * Val(y[..i]))
  }

  /** What the digit below `i` pushes out. */
  ghost function Out(y: seq<digit>, i: nat, h: nat): nat
    requires h > 0 && i <= |y|
  {
    if i > 0 then y[i - 1] / h else 0
  }

  lemma NextShifted(r: seq<digit>, y: seq<digit>, i: nat, p: nat, h: nat, dshift: nat, d: digit)
    requires i < |y| && ShiftedUp(r, y, i, p, h, dshift) && y[i] * p + Out(y, i, h) == BASE * Out(y, i + 1, h) + d
    ensures ShiftedUp(r + [d], y, i + 1, p, h, dshift)
  {
    hide Val, W, Pow, Out;
    ValSnoc(r, d);
    WNext(dshift + i);
    Snoc(y, 0, i);
    assert y[0..i] == y[..i] && y[0..i + 1] == y[..i + 1];
    WeightAdd(dshift, i);
    LslStep(Val(r), Val(y[..i]), y[i], d, Out(y, i, h), Out(y, i + 1, h), p, W(dshift), W(i), W(dshift + i));
  }

  lemma OutDigit(y: seq<digit>, i: nat, below: digit, p: nat, h: nat, d: digit)
    requires LeadingDigits.Shift(p, h) && i < |y| && below == (if i > 0 then y[i - 1] else 0)
    requires d == (y[i] * p) % BASE + below / h
    ensures y[i] * p + Out(y, i, h) == BASE * Out(y, i + 1, h) + d
  {
    LeadingDigits.ShiftDigit(y[i], below, p, h);
    Divided(0, 0, h);
  }

  lemma WeightAdd(i: nat, j: nat)
    ensures W(i + j) == W(i) * W(j)
  {
    PowAdd(BASE, i, j);
  }

  lemma LslStep(r: nat, x: nat, y: nat, d: nat, out0: nat, out1: nat, p: nat, wd: nat, wi: nat, w: nat)
    requires w == wd * wi && r + out0 * w == p * (wd * x) && y * p + out0 == BASE * out1 + d
    ensures (r + w * d) + out1 * (BASE * w) == p * (wd * (x + wi * y))
  {
    assert p * (wd * (x + wi * y)) == p * (wd * x) + w * (y * p) by {
      Distribute(x, wi * y, wd);
      Assoc(wd, wi, y);
      Distribute(wd * x, w * y, p);
      Swap(p, w, y);
      Assoc(w, y, p);
      Commute(p, w * y);
    }
    assert w * (y * p + out0) == w * (BASE * out1 + d);
    Distribute(y * p, out0, w);
    Distribute(BASE * out1, d, w);
    assert w * (BASE * out1) == out1 * (BASE * w);
  }

  lemma AllShifted(r: Natural, v: Natural, shift: nat, p: nat, h: nat, dshift: nat, last: bool)
    requires v.Trimmed() && v.length > 0 && r.Valid() && dshift == shift / 32
    requires p == Pow(2, shift % 32) && h == Pow(2, 32 - shift % 32) && LeadingDigits.Shift(p, h)
    requires last == (shift % 32 > 0 && v.digits[v.length - 1] / h != 0)
    requires r.length == v.length + dshift + (if last then 1 else 0)
    requires ShiftedUp(r.digits[..v.length + dshift], v.digits[..], v.length, p, h, dshift)
    requires last ==> r.digits[r.length - 1] == v.digits[v.length - 1] / h % BASE
    ensures r.Trimmed() && r.Value() == Pow(2, shift) * v.Value()
  {
    var n := v.length + dshift;
    var top := v.digits[v.length - 1];
    var out := top / h;
    assert v.digits[..][..v.length] == v.digits[..v.length];
    NaturalShift.SplitShift(shift);
    if shift % 32 == 0 { NaturalShift.Powers(); }
    assert Val(r.digits[..n]) + out * W(n) == p * (W(dshift) * v.Value());
    hide Val, W, Pow, ShiftedUp;
    OutBelow(top, p, h);
    Assoc(p, W(dshift), v.Value());
    LastDigit(r, n, out, last, Pow(2, shift) * v.Value());
    NotShort(r, v, p, dshift, n, last);
  }

  /** The bits that the last digit pushes out are one more digit. */
  lemma LastDigit(r: Natural, n: nat, out: digit, last: bool, x: nat)
    requires r.Valid() && r.length == n + (if last then 1 else 0) && (last ==> r.digits[n] == out)
    requires (!last ==> out == 0) && Val(r.digits[..n]) + out * W(n) == x
    ensures r.Value() == x
  {
    if last {
      hide Val, W;
      Snoc(r.digits[..], 0, n);
      assert r.digits[..][0..n] == r.digits[..n] && r.digits[..][0..n + 1] == r.digits[..r.length];
      Commute(out, W(n));
    }
  }

  lemma OutBelow(top: digit, p: nat, h: nat)
    requires LeadingDigits.Shift(p, h)
    ensures top / h < p && top / h < BASE && (h == BASE ==> top / h == 0)
  {
    LeadingDigits.ShiftDigit(0, top, p, h);
    MulLe(1, h, p);
    if h == BASE { Divided(0, top, h); }
  }

  /** The top digit is not zero, as the number has not become smaller. */
  lemma NotShort(r: Natural, v: Natural, p: nat, dshift: nat, n: nat, last: bool)
    requires v.Trimmed() && v.length > 0 && r.Valid() && p > 0 && n == v.length + dshift
    requires r.length == n + (if last then 1 else 0) && (last ==> r.digits[n] != 0)
    requires r.Value() == p * W(dshift) * v.Value()
    ensures r.Trimmed()
  {
    if !last {
      ValPositive(v.digits[..v.length]);
      PowAdd(BASE, dshift, v.length - 1);
      MulLe(W(v.length - 1), v.Value(), W(dshift));
      MulLe(1, p, W(dshift) * v.Value());
      Assoc(p, W(dshift), v.Value());
      if r.digits[n - 1] == 0 {
        Snoc(r.digits[..], 0, n - 1);
        assert r.digits[..][0..n] == r.digits[..n] && r.digits[..][0..n - 1] == r.digits[..n - 1];
        ValBound(r.digits[..n - 1]);
      }
    }
  }

  // ----- widths -----

  /** `i` is `i0` shifted left so that its top bit is at `S` at least; `w` is what is known of its width. */
  ghost predicate Scaled(i: nat, i0: nat, w: nat, S: nat) {
    w <= S && i == i0 * Pow(2, S - w) && (if i0 > 0 then i >= Pow(2, S) else w == 0)
  }

  /** Look at the high `b` of the bits in question: if there is one the width grows, if not they are shifted out. */
  method HighBits(i0: digit, w0: nat, b: nat, ghost x: nat, ghost S: nat) returns (i: digit, w: nat)
    requires Scaled(i0, x, w0, S) && S + 2 * b == 32
    ensures Scaled(i, x, w, S + b)
  {
    HighStep(i0, x, w0, S, b);
    hide Scaled, Pow;
    i, w := i0, w0;
    if i0 >= Pow(2, 32 - b) { w := w0 + b; } else { i := (i0 * Pow(2, b)) % BASE; }
  }

  lemma HighStep(i: digit, x: nat, w: nat, S: nat, b: nat)
    requires Scaled(i, x, w, S) && S + 2 * b == 32
    ensures i >= Pow(2, S + b) ==> Scaled(i, x, w + b, S + b)
    ensures i < Pow(2, S + b) ==> i * Pow(2, b) < BASE && Scaled(i * Pow(2, b), x, w, S + b)
  {
    Pow32();
    PowAdd(2, S + b, b);
    PowAdd(2, S, b);
    PowAdd(2, S - w, b);
    Assoc(x, Pow(2, S - w), Pow(2, b));
    if i < Pow(2, S + b) { MulLt(i, Pow(2, S + b), Pow(2, b)); }
    if x > 0 { MulLe(Pow(2, S), i, Pow(2, b)); }
  }

  /** The place of the top bit of a digit, halving the bits in question. */
  method DigitWidth(x: digit) returns (w: nat)
    ensures w == Width(x) && w < 32
  {
    w := 0;
    var i := x;
    assert Scaled(i, x, w, 0) by { assert Pow(2, 0) == 1; }
    i, w := HighBits(i, w, 16, x, 0);
    i, w := HighBits(i, w, 8, x, 16);
    i, w := HighBits(i, w, 4, x, 24);
    i, w := HighBits(i, w, 2, x, 28);
    i, w := HighBits(i, w, 1, x, 30);
    ScaledWidth(i, x, w);
  }

  lemma ScaledWidth(i: digit, x: nat, w: nat)
    requires Scaled(i, x, w, 31)
    ensures w == Width(x)
  {
    Pow32();
    if x > 0 {
      var p := Pow(2, 31 - w);
      PowAdd(2, w, 31 - w);
      PowAdd(2, w + 1, 31 - w);
      hide Pow;
      if x < Pow(2, w) { MulLt(x, Pow(2, w), p); }
      if x >= Pow(2, w + 1) { MulLe(Pow(2, w + 1), x, p); }
      WidthIs(x, w);
    }
  }

  /** The place of the top bit. */
  method NaturalWidth(u: Natural) returns (w: nat)
    requires u.Trimmed()
    ensures w == Width(u.Value())
  {
    if u.length == 0 { return 0; }
    w := DigitWidth(u.digits[u.length - 1]);
    TopWidth(u.digits[..u.length], w);
    w := w + (u.length - 1) * 32;
  }

  lemma TopWidth(s: seq<digit>, w: nat)
    requires s != [] && s[|s| - 1] != 0 && w == Width(s[|s| - 1])
    ensures Width(Val(s)) == 32 * (|s| - 1) + w
  {
    var n := |s| - 1;
    var top: nat := s[n];
    WidthBounds(top);
    assert s == s[..n] + [top];
    ValSnoc(s[..n], top);
    ValBound(s[..n]);
    NaturalShift.WholeDigits(n);
    PowAdd(2, 32 * n, w);
    PowAdd(2, 32 * n, w + 1);
    hide Val, Width, Pow;
    MulLe(Pow(2, w), top, W(n));
    MulLe(top + 1, Pow(2, w + 1), W(n));
    Distribute(top, 1, W(n));
    WidthIs(Val(s), 32 * n + w);
  }

  // ----- subtracting -----

  /** Subtract in place; a borrow that falls to a zero digit is lost, and leaves the largest digit there. */
  method Subtract(v: Natural, u: Natural) returns (lost: bool)
    requires v.Trimmed() && u.Trimmed() && v != u && v.digits != u.digits && 0 < u.Value() <= v.Value()
    modifies v`length, v.digits
    ensures v.Trimmed() && lost == BorrowLost(old(v.Value()), u.Value())
    ensures v.Value() == Difference(old(v.Value()), u.Value())
    ensures !lost ==> v.Value() == old(v.Value()) - u.Value()
    ensures v.length <= old(v.length)
  {
    ghost var s, len, m, y := v.digits[..], v.length, u.length, u.Value();
    SubtractFacts(u, v);
    DifferenceKept(v.Value(), u.Value());
    hide *;
    var carry;
    carry, lost := NaturalSubtractOffset(v, u, 0);
    Subtracted(v, u, s, len, lost);
  }

  /** The facts from which the contract of the subtraction is read. */
  lemma SubtractFacts(u: Natural, v: Natural)
    requires v.Trimmed() && u.Trimmed() && 0 < u.Value() <= v.Value()
    ensures u.Valid() && v.Valid() && u.length <= v.length
    ensures u.Value() == Val(u.digits[..u.length]) && v.Value() == Val(v.digits[..][..v.length])
    ensures v.digits[0..u.length] == v.digits[..][..u.length] && NumDigits(u.Value()) == u.length
    ensures
      var s, len, m, y := v.digits[..], v.length, u.length, u.Value();
      && (Val(s[..m]) < y ==> len > m)
      && (BorrowLost(Val(s[..len]), y) <==> Val(s[..m]) < y && len > m && s[m] == 0)
  {
    var s, len, m, y := v.digits[..], v.length, u.length, u.Value();
    ShorterLength(u, v);
    ValDigits(u.digits[..m]);
    assert s[..len] == v.digits[..len];
    hide Val, BorrowLost, NumDigits, W;
    LostBorrow(s, len, m, y);
  }

  lemma DifferenceKept(y: nat, x: nat)
    requires x <= y
    ensures !BorrowLost(y, x) ==> Difference(y, x) == y - x
  {
  }

  /** What the subtraction has left, in terms of the digits there were. */
  lemma Subtracted(v: Natural, u: Natural, s: seq<digit>, len: nat, lost: bool)
    requires v.Trimmed() && u.Valid() && |s| == v.digits.Length && v.length <= len && u.length <= len <= |s|
    requires Val(u.digits[..u.length]) <= Val(s[..len]) && NumDigits(Val(u.digits[..u.length])) == u.length
    requires lost == BorrowLost(Val(s[..len]), Val(u.digits[..u.length]))
    requires
      var m := u.length;
      var x, y := Val(s[..m]), Val(u.digits[..m]);
      && (x < y ==> len > m) && lost == (x < y && s[m] == 0)
      && Val(v.digits[0..m]) == x - y + (if x < y then W(m) else 0)
      && (x < y ==> v.digits[m] == (s[m] - 1) % BASE)
      && (forall j :: 0 <= j < |s| && !(0 <= j < m) && !(x < y && j == m) ==> v.digits[j] == s[j])
      && forall j :: v.length <= j < len ==> v.digits[j] == 0
    ensures v.Value() == Difference(Val(s[..len]), Val(u.digits[..u.length]))
  {
    var t, m := v.digits[..], u.length;
    assert t[..m] == v.digits[0..m] && t[..v.length] == v.digits[..v.length];
    hide Val, W, NumDigits, BorrowLost;
    DifferenceOf(s, t, len, v.length, m, Val(u.digits[..m]));
  }

  lemma ShorterLength(u: Natural, v: Natural)
    requires v.Trimmed() && u.Trimmed() && u.Value() <= v.Value()
    ensures u.length <= v.length
  {
    ValDigits(u.digits[..u.length]);
    ValDigits(v.digits[..v.length]);
    DigitsMonotone(u.Value(), v.Value());
  }

  /** A borrow is lost just if the low digits are below and the next digit is zero. */
  lemma LostBorrow(s: seq<digit>, len: nat, m: nat, y: nat)
    requires m <= len <= |s| && 0 < y <= Val(s[..len]) && NumDigits(y) == m
    ensures Val(s[..m]) < y ==> len > m
    ensures BorrowLost(Val(s[..len]), y) <==> Val(s[..m]) < y && len > m && s[m] == 0
  {
    ValDiv(s[..len], m);
    assert s[..len][..m] == s[..m];
    if len > m {
      ValHead(s[..len][m..]);
      DivMod(Val(s[..len][m..][1..]), s[m]);
    }
  }

  /** A digit less one, and the largest digit in place of a zero. */
  lemma OneTaken(a: seq<digit>, b: seq<digit>, w: nat)
    requires a != [] && b != [] && a[1..] == b[1..] && b[0] == (a[0] - 1) % BASE
    ensures w * Val(b) == w * Val(a) - w + if a[0] == 0 then BASE * w else 0
  {
    ValHead(a);
    ValHead(b);
    hide Val;
    Times(w, Val(a), Val(b), if a[0] == 0 then BASE - 1 else -1);
  }

  lemma Times(w: nat, a: nat, b: nat, c: int)
    requires b == a + c
    ensures w * b == w * a + c * w
  {
    Distribute(a, c, w);
  }

  lemma DifferenceOf(s: seq<digit>, t: seq<digit>, len: nat, len1: nat, m: nat, y: nat)
    requires |s| == |t| && m <= len <= |s| && len1 <= len && y <= Val(s[..len])
    requires Val(t[..m]) == Val(s[..m]) - y + (if Val(s[..m]) < y then W(m) else 0)
    requires Val(s[..m]) < y ==> len > m && t[m] == (s[m] - 1) % BASE
    requires forall j :: m <= j < |t| && !(Val(s[..m]) < y && j == m) ==> t[j] == s[j]
    requires forall j :: len1 <= j < len ==> t[j] == 0
    ensures Val(t[..len1]) == Val(s[..len]) - y + if Val(s[..m]) < y && s[m] == 0 then W(m + 1) else 0
  {
    ZerosAbove(t, len1, len);
    var a, b := s[m..len], t[m..len];
    assert s[..len][m..] == a && t[..len][m..] == b && s[..len][..m] == s[..m] && t[..len][..m] == t[..m];
    ValSplit(s[..len], m);
    ValSplit(t[..len], m);
    WNext(m);
    hide Val, W;
    if Val(s[..m]) < y {
      assert a[1..] == b[1..] && a[0] == s[m] && b[0] == t[m];
      OneTaken(a, b, W(m));
    } else {
      assert a == b;
    }
  }

  /** One round of the binary algorithm in place. */
  method BinaryRound(u0: Natural, v0: Natural) returns (u: Natural, v: Natural, lost: bool)
    requires u0.Trimmed() && v0.Trimmed() && u0 != v0 && u0.digits != v0.digits && u0.Value() > 0 && v0.length > 0
    modifies u0`length, u0.digits, v0`length, v0.digits
    ensures (u == u0 && v == v0) || (u == v0 && v == u0)
    ensures u.Trimmed() && v.Trimmed() && old(v0.Value()) > 0
    ensures Pair(u.Value(), v.Value()) == Round(old(Pair(u0.Value(), v0.Value())))
    ensures var p := old(Pair(u0.Value(), v0.Value())); lost == BorrowLost(Larger(p), Smaller(p))
  {
    hide BorrowLost, Difference, Odd, OddPart, Pow, Zeros, Val;
    u, v := u0, v0;
    Positive(v);
    OddPartFacts(v.Value());
    StripZeros(v);
    var less := NaturalLess(v, u);
    if less { u, v := v, u; }
    lost := Subtract(v, u);
  }

  /** The binary algorithm in place. */
  method BinaryGcd(u0: Natural, v0: Natural) returns (u: Natural, lost: bool)
    requires u0.Trimmed() && v0.Trimmed() && u0 != v0 && u0.digits != v0.digits && u0.Value() > 0
    modifies u0`length, u0.digits, v0`length, v0.digits
    ensures u == u0 || u == v0
    ensures lost <==> old(Binary(u0.Value(), v0.Value())).Lost?
    ensures !lost ==> u.Trimmed() && u.Value() == old(Binary(u0.Value(), v0.Value())).value
  {
    hide Binary, BorrowLost, Larger, Round, Smaller, Val;
    u := u0;
    var v := v0;
    ghost var r := Binary(u.Value(), v.Value());
    while v.length > 0
      invariant (u == u0 && v == v0) || (u == v0 && v == u0)
      invariant u.Trimmed() && v.Trimmed() && u.Value() > 0 && Binary(u.Value(), v.Value()) == r
      decreases u.Value() + v.Value()
    {
      Positive(v);
      RoundFinds(Pair(u.Value(), v.Value()));
      u, v, lost := BinaryRound(u, v);
      if lost { return; }
    }
    ZeroLength(v);
    BinaryEnd(u.Value());
    lost := false;
  }

  lemma BinaryEnd(u: nat)
    requires u > 0
    ensures Binary(u, 0) == Found(u)
  {
  }

  lemma Positive(v: Natural)
    requires v.Trimmed() && v.length > 0
    ensures v.Value() > 0
  {
    ValPositive(v.digits[..v.length]);
  }

  lemma ZeroLength(v: Natural)
    requires v.Valid() && v.length == 0
    ensures v.Value() == 0
  {
    assert v.digits[..0] == [];
  }

  // ----- reducing a copy -----

  /** A copy with room for two more digits. */
  method CopyWithRoom(a: Natural) returns (r: Natural)
    requires a.Trimmed()
    ensures fresh(r) && fresh(r.digits) && r.Trimmed() && r.Value() == a.Value()
    ensures r.length == a.length && r.digits.Length == a.length + 2
  {
    r := new Natural(a.length + 2);
    var i := 0;
    while i < a.length
      invariant i <= a.length && r.digits[..i] == a.digits[..i]
    {
      r.digits[i] := a.digits[i];
      i := i + 1;
    }
    r.length := a.length;
    assert r.digits[..a.length] == a.digits[..a.length];
  }

  /** The lengths that go with widths. */
  lemma WidthLength(v: Natural)
    requires v.Trimmed() && v.length > 0
    ensures 32 * (v.length - 1) <= Width(v.Value()) < 32 * v.length
  {
    var top := v.digits[v.length - 1];
    WidthBounds(top);
    Pow32();
    if Width(top) >= 32 { PowMonotone(2, 32, Width(top)); }
    TopWidth(v.digits[..v.length], Width(top));
  }

  lemma LengthBits(u: Natural, v: Natural)
    requires u.Trimmed() && v.Trimmed() && u.Value() > 0 && v.Value() > 0
    ensures Bits(u.Value(), v.Value()) > 0 ==> v.length <= u.length
    ensures Bits(u.Value(), v.Value()) >= 0 ==> v.length <= u.length + 1
  {
    NonZeroLength(u);
    NonZeroLength(v);
    WidthLength(u);
    WidthLength(v);
  }

  lemma NonZeroLength(v: Natural)
    requires v.Valid() && v.Value() > 0
    ensures v.length > 0
  {
    if v.length == 0 { ZeroLength(v); }
  }

  /** Reduce `u` by `v` until it is about as wide. */
  method ReduceInPlace(u: Natural, v: Natural, bits: nat)
    requires u.Trimmed() && v.Trimmed() && u.digits != v.digits && u != v && Odd(v.Value()) && u.Value() > 0
    requires bits == Bits(u.Value(), v.Value())
    requires u.length < u.digits.Length && v.length < u.digits.Length
    modifies u`length, u.digits
    ensures u.Trimmed() && u.Value() == Bdivmod(old(u.Value()), v.Value())
  {
    LengthBits(u, v);
    NothingRead(u, v, bits);
    NaturalBdivmodInplace(u, v, bits);
  }

  lemma NothingRead(u: Natural, v: Natural, bits: nat)
    requires u.Trimmed() && v.Trimmed() && Odd(v.Value()) && bits == Bits(u.Value(), v.Value())
    requires u.length < u.digits.Length && v.length < u.digits.Length
    requires bits > 0 ==> v.length <= u.length
    ensures InPlace(HeldIn(u.digits[..], u.length, v.length), v.Value(), bits) == Bdivmod(u.Value(), v.Value())
  {
    assert u.digits[..][..u.length] == u.digits[..u.length];
  }

  /** One pass: take the factors that do not divide `x` out of `g0`. */
  method FixPass(x: Natural, g0: Natural) returns (g: Natural, lost: bool)
    requires x.Trimmed() && g0.Trimmed() && x != g0 && x.digits != g0.digits && x.Value() > 0 && Odd(g0.Value())
    modifies g0`length, g0.digits
    ensures g == g0 || (fresh(g) && fresh(g.digits))
    ensures lost <==> old(Fix(x.Value(), g0.Value())).Lost?
    ensures !lost ==> g.Trimmed() && g.Value() == old(Fix(x.Value(), g0.Value())).value
  {
    g := g0;
    var w := NaturalWidth(x);
    var w1 := NaturalWidth(g0);
    var bits: int := w as int - w1 as int + 1;
    if bits < 0 { return g0, true; }   // a shift by a negative count is undefined
    LengthBits(x, g0);
    var u := CopyWithRoom(x);
    ReduceInPlace(u, g0, bits);
    if u.length == 0 {
      ZeroLength(u);
      return g0, false;
    }
    Positive(u);
    g, lost := BinaryGcd(u, g0);
  }

  // ----- the whole -----

  /** One reduction, and its zeros shifted out. */
  method WeberStep(u: Natural, v: Natural)
    requires u.Trimmed() && v.Trimmed() && u.digits != v.digits && u != v && Odd(u.Value()) && Odd(v.Value())
    requires u.length < u.digits.Length && v.length < u.digits.Length
    modifies u`length, u.digits
    ensures u.Trimmed() && u.Value() == OddPart(Next(old(u.Value()), v.Value()))
  {
    hide Val, Odd, Bdivmod;
    OddLow(u);
    var wu := NaturalWidth(u);
    var wv := NaturalWidth(v);
    var diff: int := wu as int - wv as int;
    Positive(u);
    if diff > 10 {
      ReduceInPlace(u, v, diff + 1);
    } else {
      KaryInPlace.NaturalKaryReductionInplace(u, v);
    }
    StripZeros(u);
  }

  /** The result is short enough for the digits of either number. */
  lemma StepLength(u: nat, v: nat, r: nat, K: nat)
    requires Odd(u) && Odd(v) && r == OddPart(Next(u, v))
    requires NumDigits(v) <= K && (NumDigits(u) > K ==> NumDigits(v) < K)
    ensures NumDigits(r) <= K
  {
    NextBound(u, v);
    OddPartFacts(Next(u, v));
    hide Next, OddPart, Zeros, Pow;
    DigitsMonotone(r, Next(u, v));
    if u < v { DigitsMonotone(r, v); } else { DigitsMonotone(r, u); }
  }

  lemma LengthIs(v: Natural)
    requires v.Trimmed()
    ensures v.length == NumDigits(v.Value())
  {
    ValDigits(v.digits[..v.length]);
  }

  /** Reduce in turn until one number is zero. */
  method WeberLoop(u0: Natural, v0: Natural) returns (u: Natural)
    requires u0.Trimmed() && v0.Trimmed() && u0.digits != v0.digits && u0 != v0 && Odd(u0.Value()) && Odd(v0.Value())
    requires v0.length <= u0.length && u0.length + 2 <= u0.digits.Length && v0.length + 2 <= v0.digits.Length
    modifies u0`length, u0.digits, v0`length, v0.digits
    ensures (u == u0 || u == v0) && u.Trimmed() && u.Value() == old(Weber(u0.Value(), v0.Value()))
  {
    u := u0;
    var v := v0;
    ghost var w, K := Weber(u.Value(), v.Value()), v0.length + 1;
    LengthIs(u);
    LengthIs(v);
    hide Val, Odd, NumDigits, OddPart, Next;
    while v.length > 0
      invariant (u == u0 && v == v0) || (u == v0 && v == u0)
      invariant u.Trimmed() && v.Trimmed() && Odd(u.Value()) && (v.Value() == 0 || Odd(v.Value()))
      invariant Weber(u.Value(), v.Value()) == w
      invariant v.length <= K && K < v.digits.Length && K < u.digits.Length && u.length < u.digits.Length
      invariant u.length > K ==> v.length < K
      decreases Measure(u.Value(), v.Value())
    {
      Positive(v);
      ghost var x, y := u.Value(), v.Value();
      LengthIs(u);
      LengthIs(v);
      NextSmaller(x, y);
      WeberStep(u, v);
      StepLength(x, y, u.Value(), K);
      LengthIs(u);
      u, v := v, u;
    }
    ZeroLength(v);
  }

  /** The binary algorithm on numbers of at most two digits. */
  method DoubleDigitGcd(u0: nat, v0: nat) returns (u: nat)
    requires 0 < u0 < BASE * BASE && v0 < BASE * BASE
    ensures Binary(u0, v0) == Found(u) && 0 < u < BASE * BASE
  {
    u := u0;
    var v := v0;
    while v > 0
      invariant 0 < u < BASE * BASE && 0 <= v < BASE * BASE && Binary(u, v) == Binary(u0, v0)
      decreases u + v
    {
      ghost var was := v;
      OddPartFacts(v);
      while v % 2 == 0
        invariant 0 < v <= was && OddPart(v) == OddPart(was)
        decreases v
      {
        v := v / 2;
      }
      if v < u { u, v := v, u; }
      BorrowKept(v, u);
      v := v - u;
    }
  }

  /** Both numbers have at most two digits: the result goes where there are two. */
  method SmallGcd(u0: Natural, v0: Natural) returns (u: Natural)
    requires u0.Trimmed() && v0.Trimmed() && u0.digits != v0.digits && u0 != v0
    requires 0 < u0.length <= 2 && 0 < v0.length <= 2 && u0.digits.Length > 2 && v0.digits.Length > 2 && u0.Value() > 0
    modifies u0`length, u0.digits, v0`length, v0.digits
    ensures (u == u0 || u == v0) && u.Trimmed() && Found(u.Value()) == old(Binary(u0.Value(), v0.Value()))
  {
    Positive(u0);
    var ud := TwoDigits(u0);
    var vd := TwoDigits(v0);
    var g := DoubleDigitGcd(ud, vd);
    u := u0;
    var td: digit := g / BASE;
    if td != 0 {
      if u.length != 2 { u := v0; }
      u.digits[1] := td;
      u.length := 2;
    } else {
      u.length := 1;
    }
    u.digits[0] := g % BASE;
    DigitsTwo(u.digits[..u.length], g);
  }

  method TwoDigits(u: Natural) returns (x: nat)
    requires u.Valid() && 0 < u.length <= 2
    ensures x == u.Value() && x < BASE * BASE
  {
    x := u.digits[0];
    if u.length == 2 { x := x + BASE * u.digits[1]; }
    DigitsTwo(u.digits[..u.length], x);
  }

  lemma DigitsTwo(s: seq<digit>, x: nat)
    requires (|s| == 1 && x == s[0]) || (|s| == 2 && x == s[0] + BASE * s[1])
    ensures Val(s) == x < BASE * BASE
  {
    if |s| == 1 {
      assert s == [s[0]];
      ValOne(s[0]);
    } else {
      ValHead(s);
      assert s[1..] == [s[1]];
      ValOne(s[1]);
    }
  }

  lemma AtMostTwo(u: Natural)
    requires u.Trimmed()
    ensures u.length <= 2 <==> u.Value() < BASE * BASE
  {
    LengthIs(u);
    DigitsBelow(u.Value(), 2);
    assert W(2) == BASE * W(1) && W(1) == BASE * W(0);
  }

  /** Both passes, one with each of the numbers given. */
  method FixPasses(u0: Natural, v0: Natural, w: Natural) returns (g: Natural, lost: bool)
    requires u0.Trimmed() && v0.Trimmed() && u0.Value() > 0 && v0.Value() > 0 && w.Trimmed() && Odd(w.Value())
    requires u0 != w && v0 != w && u0.digits != w.digits && v0.digits != w.digits
    modifies w`length, w.digits
    ensures lost <==> old(Fixed(u0.Value(), v0.Value(), w.Value())).Lost?
    ensures !lost ==> g.Trimmed() && g.Value() == old(Fixed(u0.Value(), v0.Value(), w.Value())).value
  {
    hide Val, Odd, Fix;
    ghost var x := w.Value();
    if Fix(u0.Value(), x).Found? { FixOdd(u0.Value(), x); }
    g, lost := FixPass(u0, w);
    if lost { return; }
    g, lost := FixPass(v0, g);
  }

  /** The greatest common divisor without the zeros, of the odd `u` and `v`, v <= u, which come from `u0` and `v0`. */
  method OddGcdInPlace(u0: Natural, v0: Natural, u: Natural, v: Natural) returns (g: Natural, lost: bool)
    requires u0.Trimmed() && v0.Trimmed() && u0.Value() > 0 && v0.Value() > 0
    requires u.Trimmed() && v.Trimmed() && u.digits != v.digits && u != v && Odd(u.Value()) && Odd(v.Value())
    requires u.Value() >= v.Value() && u.length + 2 <= u.digits.Length && v.length + 2 <= v.digits.Length
    requires u0 != u && u0 != v && v0 != u && v0 != v
    requires u0.digits != u.digits && u0.digits != v.digits && v0.digits != u.digits && v0.digits != v.digits
    modifies u`length, u.digits, v`length, v.digits
    ensures lost <==> old(OddGcd(u0.Value(), v0.Value(), u.Value(), v.Value())).Lost?
    ensures !lost ==> g.Trimmed() && g.Value() == old(OddGcd(u0.Value(), v0.Value(), u.Value(), v.Value())).value
  {
    LengthIs(u);
    LengthIs(v);
    DigitsMonotone(v.Value(), u.Value());
    OddLow(u);
    OddLow(v);
    AtMostTwo(u);
    hide Val, Odd, NumDigits, Weber, Binary, Fixed;
    if u.length <= 2 && v.length <= 2 {
      Positive(u);
      g := SmallGcd(u, v);
      return g, false;
    }
    WeberOdd(u.Value(), v.Value());
    g := WeberLoop(u, v);
    g, lost := FixPasses(u0, v0, g);
  }

  /** The greatest common divisor of two numbers that are not zero. */
  method PositiveGcd(u0: Natural, v0: Natural) returns (r: Natural, lost: bool)
    requires u0.Trimmed() && v0.Trimmed() && u0.length > 0 && v0.length > 0
    ensures lost <==> Gcd(u0.Value(), v0.Value()).Lost?
    ensures !lost ==> r.Trimmed() && r.Value() == Gcd(u0.Value(), v0.Value()).value
  {
    hide BorrowLost, Gcd, IsGcd, Odd, OddGcd, OddPart, Pow, Val, W, Zeros;
    Positive(u0);
    Positive(v0);
    ghost var a, b := u0.Value(), v0.Value();
    OddPartFacts(a);
    OddPartFacts(b);
    GcdByOdd(a, b);
    var u_zeros := NaturalZeroBits(u0);
    var v_zeros := NaturalZeroBits(v0);
    var normal := u_zeros;
    if u_zeros > v_zeros { normal := v_zeros; }
    var u := NaturalGcdNormalize(u0, u_zeros);
    var v := NaturalGcdNormalize(v0, v_zeros);
    var less := NaturalLess(u, v);
    if less { u, v := v, u; }
    r, lost := OddGcdInPlace(u0, v0, u, v);
    if lost { return; }
    r := NaturalLsl(r, normal);
  }

  /** The greatest common divisor, or nothing where a borrow is lost or a shift undefined. */
  method NaturalGcd(u0: Natural, v0: Natural) returns (r: Natural, lost: bool)
    requires u0.Trimmed() && v0.Trimmed()
    ensures lost <==> Gcd(u0.Value(), v0.Value()).Lost?
    ensures !lost ==> r.Trimmed() && r.Value() == Gcd(u0.Value(), v0.Value()).value
    ensures u0.Value() == 0 || v0.Value() == 0 ==> !lost && r.Value() == 0
  {
    if u0.length > 0 && v0.length > 0 {
      Positive(u0);
      Positive(v0);
      r, lost := PositiveGcd(u0, v0);
    } else {
      if u0.length == 0 { ZeroLength(u0); } else { ZeroLength(v0); }
      r := new Natural(0);
      lost := false;
      ZeroLength(r);
    }
  }
}
