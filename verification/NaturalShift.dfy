/** Shifting naturals right and masking their low bits: division by powers of two. */
module NaturalShift {
  import opened Arithmetic
  import opened Digits
  import opened LeadingDigits
  import opened Naturals

  // ----- powers of two -----

  lemma Powers()
    ensures Pow(2, 32) == BASE && Pow(2, 31) == BASE / 2
  {
    assert Pow(2, 8) == 256 by {
      assert Pow(2, 2) == 4; assert Pow(2, 4) == 16;
    }
    PowAdd(2, 8, 8);
    PowAdd(2, 16, 16);
    assert Pow(2, 32) == 2 * Pow(2, 31);
  }

  /** Shifting left by less than a digit, and its counterpart. */
  lemma ShiftOf(n: nat)
    requires n < 32
    ensures Shift(Pow(2, n), Pow(2, 32 - n)) && Pow(2, 32 - n) >= 2
  {
    Powers();
    PowAdd(2, n, 32 - n);
  }

  lemma {:induction false} WholeDigits(e: nat)
    ensures Pow(2, 32 * e) == W(e)
  {
    if e > 0 {
      WholeDigits(e - 1);
      Powers();
      PowAdd(2, 32, 32 * (e - 1));
    }
  }

  lemma SplitShift(shift: nat)
    ensures Pow(2, shift) == Pow(2, shift % 32) * W(shift / 32)
  {
    WholeDigits(shift / 32);
    PowAdd(2, shift % 32, 32 * (shift / 32));
  }

  /** Dividing by a product is dividing twice. */
  lemma DivDiv(x: nat, p: nat, w: nat)
    requires p > 0 && w > 0
    ensures p * w > 0 && x / (p * w) == x / w / p
    ensures x % (p * w) == (x / w % p) * w + x % w
  {
    MulLt(0, p, w);
    var y, q := x / w, x / w / p;
    var r, s := x % w, y % p;
    assert x == w * y + r && y == p * q + s;
    assert w * y == (p * w) * q + s * w by { Distribute(p * q, s, w); Swap(p, q, w); Commute(w, y); }
    MulLe(s + 1, p, w);
    Distribute(s, 1, w);
    Divided(q, s * w + r, p * w);
  }

  // ----- shifting right -----

  /** The digits shifted right by less than a digit: `p` is the power of two, `h` its counterpart. */
  function ShiftedRight(s: seq<digit>, p: nat, h: nat): (r: seq<digit>)
    requires p > 0
    ensures |r| == |s|
  {
    if s == [] then []
    else
      var next := if |s| > 1 then s[1] else 0;
      [(s[0] / p + (next * h) % BASE) % BASE] + ShiftedRight(s[1..], p, h)
  }

  function RightDigit(s: seq<digit>, i: nat, p: nat, h: nat): nat
    requires i < |s| && p > 0
  {
    s[i] / p + ((if i + 1 < |s| then s[i + 1] else 0) * h) % BASE
  }

  lemma {:induction false} ShiftedRightVal(s: seq<digit>, p: nat, h: nat)
    requires Shift(p, h)
    ensures Val(ShiftedRight(s, p, h)) == Val(s) / p
    decreases |s|
  {
    if s == [] {
      Divided(0, 0, p);
    } else {
      ShiftedRightVal(s[1..], p, h);
      var next: digit := if |s| > 1 then s[1] else 0;
      var more := if |s| > 1 then Val(s[1..][1..]) else 0;
      OneRight(s[0], next, Val(s[1..]), more, p, h);
      ValHead(s);
      ShiftedHead(s, p, h);
      ValHead(ShiftedRight(s, p, h));
      hide ShiftedRight, Val, Shift;
    }
  }

  lemma ShiftedHead(s: seq<digit>, p: nat, h: nat)
    requires s != [] && p > 0
    ensures ShiftedRight(s, p, h)[0] == RightDigit(s, 0, p, h) % BASE
    ensures ShiftedRight(s, p, h)[1..] == ShiftedRight(s[1..], p, h)
  {
  }

  lemma {:induction false} ShiftedRightDigit(s: seq<digit>, p: nat, h: nat, i: nat)
    requires Shift(p, h) && i < |s|
    ensures ShiftedRight(s, p, h)[i] == RightDigit(s, i, p, h)
    decreases |s|
  {
    ShiftedHead(s, p, h);
    if i > 0 {
      ShiftedRightDigit(s[1..], p, h, i - 1);
      assert RightDigit(s, i, p, h) == RightDigit(s[1..], i - 1, p, h);
      hide ShiftedRight, RightDigit;
      assert ShiftedRight(s, p, h)[i] == ShiftedRight(s, p, h)[1..][i - 1];
    } else {
      var next: digit := if |s| > 1 then s[1] else 0;
      OneRight(s[0], next, next, 0, p, h);
    }
  }

  /** One digit shifted right takes in the low bits of the next. */
  lemma OneRight(x: digit, next: digit, rest: nat, more: nat, p: nat, h: nat)
    requires Shift(p, h) && rest == next + BASE * more
    ensures x / p + (next * h) % BASE < BASE
    ensures (x + BASE * rest) / p == (x / p + (next * h) % BASE) + BASE * (rest / p)
  {
    LowBits(next, more, p, h);
    LowShift(next, p, h);
    var q, r := rest / p, rest % p;
    var xq, xr := x / p, x % p;
    assert rest == p * q + r && x == p * xq + xr;
    RightRoom(xq, xr, r, p, h);
    RightParts(x, rest, xq, xr, q, r, p, h);
    Divided(xq + (BASE * q + r * h), xr, p);
  }

  lemma RightRoom(xq: nat, xr: nat, r: nat, p: nat, h: nat)
    requires Shift(p, h) && p * xq + xr < BASE && r < p
    ensures xq + r * h < BASE
  {
    if xq >= h { MulLe(h, xq, p); Commute(p, h); Commute(p, xq); }
    MulLe(r + 1, p, h);
    Distribute(r, 1, h);
  }

  lemma RightParts(x: nat, rest: nat, xq: nat, xr: nat, q: nat, r: nat, p: nat, h: nat)
    requires Shift(p, h) && x == p * xq + xr && rest == p * q + r
    ensures x + BASE * rest == p * (xq + (BASE * q + r * h)) + xr
  {
    Distribute(xq, BASE * q + r * h, p);
    Distribute(BASE * q, r * h, p);
    assert p * (BASE * q) == BASE * (p * q);
    assert p * (r * h) == (p * h) * r;
  }

  lemma LowBits(next: nat, more: nat, p: nat, h: nat)
    requires Shift(p, h)
    ensures (next + BASE * more) % p == next % p
  {
    var q, r := next / p, next % p;
    assert next == p * q + r;
    assert (p * h) * more == p * (h * more);
    Distribute(q, h * more, p);
    Divided(q + h * more, r, p);
  }

  lemma LowShift(x: nat, p: nat, h: nat)
    requires Shift(p, h)
    ensures (x * h) % BASE == (x % p) * h
  {
    var q, r := x / p, x % p;
    assert x == p * q + r;
    Distribute(p * q, r, h);
    assert (p * q) * h == BASE * q by { Swap(p, q, h); }
    MulLe(r + 1, p, h);
    Distribute(r, 1, h);
    Divided(q, r * h, BASE);
  }

  /** `v` shifted right by `shift` bits. */
  method NaturalRsl(v: Natural, shift: nat) returns (r: Natural)
    requires v.Trimmed()
    ensures fresh(r) && r.Trimmed() && r.Value() == v.Value() / Pow(2, shift)
  {
    var dshift, bits := shift / 32, shift % 32;
    var p, h := Pow(2, bits), Pow(2, 32 - bits);
    ShiftOf(bits);
    if v.length <= dshift {
      r := new Natural(0);
      ShortValue(v.digits[..v.length], shift);
      return;
    }
    hide Val, W, ShiftedRight, Pow, Shift;
    var index := v.length - dshift;
    ghost var s := v.digits[dshift..v.length];
    var length: nat := index;
    var top := v.digits[v.length - 1];
    if top / p == 0 { length := index - 1; }
    r := new Natural(length);
    ShiftInto(v, r, dshift, bits, s);
    ShiftedValue(v, r, shift, p, h, s);
  }

  lemma ShiftedValue(v: Natural, r: Natural, shift: nat, p: nat, h: nat, s: seq<digit>)
    requires v.Trimmed() && v.length > shift / 32 && s == v.digits[shift / 32..v.length]
    requires p == Pow(2, shift % 32) && Shift(p, h) && r.Valid()
    requires r.length == if v.digits[v.length - 1] / p == 0 then |s| - 1 else |s|
    requires forall j :: 0 <= j < r.length ==> r.digits[j] == ShiftedRight(s, p, h)[j]
    ensures r.Trimmed() && r.Value() == v.Value() / Pow(2, shift)
  {
    var t := v.digits[..v.length];
    assert t[shift / 32..] == s && t[|t| - 1] == v.digits[v.length - 1];
    ShiftedDigits(t, r.digits[..r.length], shift, p, h, s);
  }

  /** Digits shifted right, without a top digit that becomes zero. */
  lemma ShiftedDigits(t: seq<digit>, r: seq<digit>, shift: nat, p: nat, h: nat, s: seq<digit>)
    requires shift / 32 < |t| && t[|t| - 1] != 0 && s == t[shift / 32..]
    requires p == Pow(2, shift % 32) && Shift(p, h)
    requires |r| == if t[|t| - 1] / p == 0 then |s| - 1 else |s|
    requires forall j :: 0 <= j < |r| ==> r[j] == ShiftedRight(s, p, h)[j]
    ensures Val(r) == Val(t) / Pow(2, shift) && (r != [] ==> r[|r| - 1] != 0)
  {
    hide Val, W, ShiftedRight, Pow, Shift;
    ShiftedRightVal(s, p, h);
    RightShift(t, shift);
    RightTop(s, p, h, |r|, t[|t| - 1]);
    assert r == ShiftedRight(s, p, h)[..|r|];
  }

  /** The digits of `v` from `dshift` on, shifted right by `bits`, as many as `r` takes. */
  method ShiftInto(v: Natural, r: Natural, dshift: nat, bits: nat, ghost s: seq<digit>)
    requires v.Valid() && r.Valid() && v.digits != r.digits && bits < 32 && dshift + r.length <= v.length
    requires s == v.digits[dshift..v.length] && Pow(2, bits) > 0
    modifies r.digits
    ensures forall j :: 0 <= j < r.length ==> r.digits[j] == ShiftedRight(s, Pow(2, bits), Pow(2, 32 - bits))[j]
  {
    var index := v.length - dshift;
    ghost var p, h := Pow(2, bits), Pow(2, 32 - bits);
    ShiftOf(bits);
    hide Val, W, ShiftedRight, Shift, Pow;
    var i := 0;
    while i < r.length
      invariant i <= r.length && v.digits[dshift..v.length] == s
      invariant forall j :: 0 <= j < i ==> r.digits[j] == ShiftedRight(s, p, h)[j]
    {
      ShiftedRightDigit(s, p, h, i);
      var d1 := v.digits[dshift + i];
      var d2: digit := if i + 1 < index then v.digits[dshift + i + 1] else 0;
      assert d1 == s[i] && (i + 1 < |s| ==> d2 == s[i + 1]);
      r.digits[i] := ShiftPair(d1, d2, bits);
      assert r.digits[i] == RightDigit(s, i, p, h) % BASE;
      i := i + 1;
    }
  }

  /** One digit of the result: the high bits of a digit, and the low bits of the next. */
  method ShiftPair(d1: digit, d2: digit, bits: nat) returns (d: digit)
    requires bits < 32
    ensures d == (d1 / Pow(2, bits) + (d2 * Pow(2, 32 - bits)) % BASE) % BASE
  {
    if bits > 0 {
      d := (d1 / Pow(2, bits) + (d2 * Pow(2, 32 - bits)) % BASE) % BASE;
    } else {
      NoShift(d1, d2);
      d := d1;
    }
  }

  lemma NoShift(d1: digit, d2: digit)
    ensures Pow(2, 0) == 1 && Pow(2, 32) == BASE && d1 / 1 + (d2 * BASE) % BASE == d1
  {
    Powers();
    assert Pow(2, 0) == 1;
    Divided(d2, 0, BASE);
  }

  lemma TopKept(top: digit, p: nat, h: nat)
    requires Shift(p, h) && top > 0 && top / p == 0
    ensures (top * h) % BASE > 0
  {
    LowShift(top, p, h);
    assert top == p * (top / p) + top % p;
    assert top % p == top;
    MulLe(1, top, h);
  }

  lemma LastDigits(s: seq<digit>, p: nat, h: nat)
    requires s != [] && Shift(p, h) && s[|s| - 1] != 0
    ensures RightDigit(s, |s| - 1, p, h) == s[|s| - 1] / p
    ensures |s| > 1 && s[|s| - 1] / p == 0 ==> RightDigit(s, |s| - 2, p, h) > 0
  {
    Divided(0, 0, BASE);
    if |s| > 1 && s[|s| - 1] / p == 0 { TopKept(s[|s| - 1], p, h); }
  }

  /** The top digit of the shifted number is zero exactly if it is left out. */
  lemma RightTop(s: seq<digit>, p: nat, h: nat, length: nat, top: digit)
    requires s != [] && Shift(p, h) && top == s[|s| - 1] != 0
    requires length == if top / p == 0 then |s| - 1 else |s|
    ensures Val(ShiftedRight(s, p, h)) == Val(ShiftedRight(s, p, h)[..length])
    ensures length > 0 ==> ShiftedRight(s, p, h)[length - 1] != 0
  {
    assert p > 0;
    hide Val, ShiftedRight, Shift, W, RightDigit;
    var r := ShiftedRight(s, p, h);
    var n := |s| - 1;
    LastDigits(s, p, h);
    ShiftedRightDigit(s, p, h, n);
    if n > 0 { ShiftedRightDigit(s, p, h, n - 1); }
    assert r[n] == RightDigit(s, n, p, h);
    ValPad(r, length);
    if length == n && n > 0 { assert r[n - 1] == RightDigit(s, n - 1, p, h); }
  }

  lemma RightShift(t: seq<digit>, shift: nat)
    requires shift / 32 <= |t|
    ensures Val(t) / Pow(2, shift) == Val(t[shift / 32..]) / Pow(2, shift % 32)
  {
    ValDiv(t, shift / 32);
    SplitShift(shift);
    DivDiv(Val(t), Pow(2, shift % 32), W(shift / 32));
  }

  lemma ShortValue(t: seq<digit>, shift: nat)
    requires |t| <= shift / 32
    ensures Val(t) / Pow(2, shift) == 0
  {
    ValBound(t);
    PowMonotone(BASE, |t|, shift / 32);
    SplitShift(shift);
    MulLe(1, Pow(2, shift % 32), W(shift / 32));
    Divided(0, Val(t), Pow(2, shift));
  }

  // ----- masking -----

  /** The low `bits` bits of `v`. */
  method NaturalMask(v: Natural, bits: nat) returns (r: Natural)
    requires v.Trimmed()
    ensures fresh(r) && r.Trimmed() && r.Value() == v.Value() % Pow(2, bits)
  {
    var length: nat := bits / 32 + 1;
    var mask: nat := Pow(2, bits % 32);   // keeps the bits below it
    ghost var s, t: seq<digit> := v.digits[..v.length], [];
    hide Val, W, Shift;
    ShiftOf(bits % 32);
    if length > v.length {
      length := v.length;
      mask := BASE;
      t := s;
      ShortMask(v, bits);
    } else {
      t := s[..bits / 32] + [s[bits / 32] % mask];
      MaskedVal(s, bits);
    }
    assert Val(t) == v.Value() % Pow(2, bits);
    hide Val, W, Pow, Shift;
    length, mask := TrimMasked(v, length, mask, t);
    r := new Natural(length);
    if length > 0 {
      var i := 0;
      while i < length - 1
        invariant i <= length - 1 && fresh(r.digits) && r.length == length
        invariant forall j :: 0 <= j < i ==> r.digits[j] == v.digits[j]
      {
        r.digits[i] := v.digits[i];
        i := i + 1;
      }
      r.digits[i] := v.digits[i] % mask;
    }
    assert r.digits[..r.length] == t[..length];
  }

  /** Leave out leading digits of which the mask leaves nothing; only the first is masked. */
  method TrimMasked(v: Natural, length0: nat, mask0: nat, ghost t: seq<digit>) returns (length: nat, mask: nat)
    requires v.Valid() && |t| == length0 <= v.length && 0 < mask0 <= BASE
    requires forall j :: 0 <= j < length0 ==> t[j] == if j == length0 - 1 then v.digits[j] % mask0 else v.digits[j]
    ensures length <= length0 && 0 < mask <= BASE && Val(t[..length]) == Val(t)
    ensures forall j :: 0 <= j < length ==> t[j] == if j == length - 1 then v.digits[j] % mask else v.digits[j]
    ensures length > 0 ==> v.digits[length - 1] % mask != 0
  {
    length, mask := length0, mask0;
    assert t[..length] == t;
    while length > 0 && v.digits[length - 1] % mask == 0
      invariant length <= length0 && 0 < mask <= BASE
      invariant Val(t[..length]) == Val(t)
      invariant forall j :: 0 <= j < length ==> t[j] == if j == length - 1 then v.digits[j] % mask else v.digits[j]
    {
      assert t[..length] == t[..length - 1] + [t[length - 1]];
      ValSnoc(t[..length - 1], t[length - 1]);
      length := length - 1;
      mask := BASE;
    }
  }

  lemma ShortMask(v: Natural, bits: nat)
    requires v.Valid() && v.length <= bits / 32
    ensures v.Value() % Pow(2, bits) == v.Value() && Val(v.digits[..v.length]) == v.Value()
  {
    ValBound(v.digits[..v.length]);
    PowMonotone(BASE, v.length, bits / 32);
    SplitShift(bits);
    MulLe(1, Pow(2, bits % 32), W(bits / 32));
    Divided(0, v.Value(), Pow(2, bits));
  }

  lemma MaskedParts(x: nat, w: nat, p: nat, high: nat, low: nat, m: nat)
    requires p > 0 && w > 0 && x / w == high && x % w == low && high % p == m
    ensures p * w > 0 && x % (p * w) == m * w + low
  {
    DivDiv(x, p, w);
  }

  lemma MaskedVal(s: seq<digit>, bits: nat)
    requires bits / 32 < |s|
    ensures Pow(2, bits % 32) > 0
    ensures Val(s[..bits / 32] + [s[bits / 32] % Pow(2, bits % 32)]) == Val(s) % Pow(2, bits)
  {
    hide Val, W, Pow, Shift;
    var n, p, h := bits / 32, Pow(2, bits % 32), Pow(2, 32 - bits % 32);
    ShiftOf(bits % 32);
    SplitShift(bits);
    ValDiv(s, n);
    ValHead(s[n..]);
    LowBits(s[n], Val(s[n..][1..]), p, h);
    MaskedParts(Val(s), W(n), p, Val(s[n..]), Val(s[..n]), s[n] % p);
    ValSnoc(s[..n], s[n] % p);
    Commute(s[n] % p, W(n));
  }

  // ----- powers of two -----

  /** The exponent if `v` is a power of two. */
  method NaturalPowerOfTwo(v: Natural) returns (bit: int)
    requires v.Trimmed()
    ensures bit >= 0 ==> v.Value() == Pow(2, bit)
    ensures bit < 0 ==> forall e: nat :: v.Value() != Pow(2, e)
  {
    hide NumDigits;
    if v.length == 0 { return -1; }
    ghost var s := v.digits[..v.length];
    var l, i := v.length - 1, 0;
    while i < l
      invariant i <= l && forall j :: 0 <= j < i ==> v.digits[j] == 0
    {
      if v.digits[i] != 0 {
        NonZeroLow(s, i);
        return -1;
      }
      i := i + 1;
    }
    var last := v.digits[l];
    bit := l * 32;
    ghost var n: nat := 0;
    assert Pow(2, 0) == 1;
    hide Val, Pow, W;
    while last % 2 == 0
      invariant last > 0 && v.digits[l] == Pow(2, n) * last && bit == l * 32 + n
      decreases last
    {
      Halved(n, last);
      bit := bit + 1;
      n := n + 1;
      last := last / 2;
    }
    OnlyTop(s, l, n, last);
    if last != 1 {
      OddFactor(v.Value(), Pow(2, l * 32 + n), last, l * 32 + n);
      return -1;
    }
  }

  lemma Halved(n: nat, x: nat)
    requires x % 2 == 0
    ensures Pow(2, n + 1) * (x / 2) == Pow(2, n) * x
  {
    Assoc(Pow(2, n), 2, x / 2);
    Commute(2, Pow(2, n));
  }

  /** All digits but the top one are zero. */
  lemma OnlyTop(s: seq<digit>, l: nat, n: nat, odd: nat)
    requires |s| == l + 1 && (forall j :: 0 <= j < l ==> s[j] == 0) && s[l] == Pow(2, n) * odd
    ensures Val(s) == Pow(2, l * 32 + n) * odd
  {
    assert s == s[..l] + [s[l]];
    ValSnoc(s[..l], s[l]);
    ValZeros(s[..l]);
    WholeDigits(l);
    PowAdd(2, l * 32, n);
    Assoc(W(l), Pow(2, n), odd);
  }

  /** A number with an odd factor above one is no power of two. */
  lemma OddFactor(x: nat, w: nat, odd: nat, m: nat)
    requires w == Pow(2, m) && x == w * odd && odd % 2 == 1 && odd > 1
    ensures forall e: nat :: x != Pow(2, e)
  {
    forall e: nat ensures x != Pow(2, e) {
      if x == Pow(2, e) {
        if e <= m {
          PowMonotone(2, e, m);
          MulLt(1, odd, w);
        } else {
          PowAdd(2, m, e - m);
          Commute(w, odd);
          Commute(w, Pow(2, e - m));
          if odd < Pow(2, e - m) { MulLt(odd, Pow(2, e - m), w); }
            else if odd > Pow(2, e - m) { MulLt(Pow(2, e - m), odd, w); }
          assert Pow(2, e - m) == 2 * Pow(2, e - m - 1);
        }
      }
    }
  }

  /** A number with a digit that is not zero below its top digit is no power of two. */
  lemma NonZeroLow(s: seq<digit>, i: nat)
    requires i < |s| - 1 && s[i] != 0 && s[|s| - 1] != 0 && forall j :: 0 <= j < i ==> s[j] == 0
    ensures forall e: nat :: Val(s) != Pow(2, e)
  {
    var n := |s| - 1;
    forall e: nat ensures Val(s) != Pow(2, e) {
      if Val(s) == Pow(2, e) {
        ValPositive(s);
        // the digit at i and those below are a positive remainder modulo a power of two
        ValDiv(s, i + 1);
        WholeDigits(i + 1);
        assert s[..i + 1] == s[..i] + [s[i]];
        ValSnoc(s[..i], s[i]);
        MulLe(1, s[i], W(i));
        PowMonotone(BASE, i + 1, n);
        if e < 32 * (i + 1) {
          LessPower(e, 32 * (i + 1));
        } else {
          PowAdd(2, 32 * (i + 1), e - 32 * (i + 1));
          Divided(Pow(2, e - 32 * (i + 1)), 0, W(i + 1));
        }
      }
    }
  }

  lemma LessPower(e: nat, m: nat)
    requires e < m
    ensures Pow(2, e) < Pow(2, m)
  {
    PowMonotone(2, e + 1, m);
  }
}
