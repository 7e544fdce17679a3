/** Naturals as arrays of digits changed in place. */
module Naturals {
  import opened Digits
  import opened Arithmetic

  /** The first `length` digits count. */
  class Natural {
    var length: nat
    const digits: array<digit>

    ghost predicate Valid()
      reads this
    {
      length <= digits.Length
    }

    /** The top digit is not zero. */
    ghost predicate Trimmed()
      reads this, digits
    {
      Valid() && (length > 0 ==> digits[length - 1] != 0)
    }

    ghost function Value(): nat
      requires Valid()
      reads this, digits
    {
      Val(digits[..length])
    }

    constructor (size: nat)
      ensures Valid() && length == size == digits.Length && fresh(digits)
    {
      length := size;
      digits := new digit[size](_ => 0);
    }

    /** Leave out leading zeros. */
    method Trim()
      requires Valid()
      modifies this`length
      ensures Trimmed() && length <= old(length)
      ensures forall j :: length <= j < old(length) ==> digits[j] == 0
    {
      while length > 0 && digits[length - 1] == 0
        invariant length <= old(length)
        invariant forall j :: length <= j < old(length) ==> digits[j] == 0
      {
        length := length - 1;
      }
    }
  }

  /** One digit of a subtraction. */
  lemma BorrowStep(x: digit, y: digit, c: digit, z: digit, c1: digit)
    requires c <= 1
    requires
      var v := (y + c) % BASE;
      if v == 0 then z == x && c1 == c
      else z == (x - v + BASE) % BASE && c1 == if z > x then 1 else 0
    ensures z + y + c == x + c1 * BASE && c1 <= 1
  {
  }

  /** One digit of an addition. */
  lemma CarryStep(x: digit, y: digit, c: digit, z: digit, c1: digit)
    requires c <= 1
    requires
      var v := (y + c) % BASE;
      if v == 0 then z == x && c1 == c
      else z == (x + v) % BASE && c1 == if z < x then 1 else 0
    ensures z + c1 * BASE == x + y + c && c1 <= 1
  {
  }

  lemma Snoc(s: seq<digit>, lo: nat, hi: nat)
    requires lo <= hi < |s|
    ensures Val(s[lo..hi + 1]) == Val(s[lo..hi]) + W(hi - lo) * s[hi]
  {
    assert s[lo..hi + 1] == s[lo..hi] + [s[hi]];
    ValSnoc(s[lo..hi], s[hi]);
  }

  /** The lower digits of a difference, one digit longer. */
  lemma BorrowOne(z: int, x: int, y: int, w: nat, c: digit, c1: digit, zd: digit, xd: digit, yd: digit)
    requires z + y == x + c * w && zd + yd + c == xd + c1 * BASE
    ensures (z + w * zd) + (y + w * yd) == (x + w * xd) + c1 * (BASE * w)
  {
    assert w * zd + w * yd + w * c == w * (zd + yd + c);
    assert w * (xd + c1 * BASE) == w * xd + c1 * (BASE * w);
  }

  lemma CarryOne(z: int, x: int, y: int, w: nat, c: digit, c1: digit, zd: digit, xd: digit, yd: digit)
    requires z + c * w == x + y && zd + c1 * BASE == xd + yd + c
    ensures (z + w * zd) + c1 * (BASE * w) == (x + w * xd) + (y + w * yd)
  {
    assert w * xd + w * yd + w * c == w * (xd + yd + c);
    assert w * (zd + c1 * BASE) == w * zd + c1 * (BASE * w);
  }

  /** The digits of `b` are subtracted from those of `a` at `offset`, as many as both have. */
  method SubtractDigits(a: Natural, b: Natural, offset: nat, count: nat) returns (carry: digit)
    requires a.Valid() && b.Valid() && a.digits != b.digits
    requires offset + count <= a.length && count <= b.length
    modifies a.digits
    ensures carry == if old(Val(a.digits[offset..offset + count])) < Val(b.digits[..count]) then 1 else 0
    ensures Val(a.digits[offset..offset + count]) ==
      old(Val(a.digits[offset..offset + count])) - Val(b.digits[..count]) + carry * W(count)
    ensures forall j :: 0 <= j < a.digits.Length && !(offset <= j < offset + count) ==> a.digits[j] == old(a.digits[j])
  {
    carry := 0;
    var i := 0;
    ghost var x, y := a.digits[..], b.digits[..];
    assert Val([]) == 0;
    hide Val, W;
    while i < count
      invariant i <= count && carry <= 1
      invariant Val(a.digits[..][offset..offset + i]) + Val(y[..i]) == Val(x[offset..offset + i]) + carry * W(i)
      invariant forall j :: 0 <= j < a.digits.Length && !(offset <= j < offset + i) ==> a.digits[j] == x[j]
      invariant b.digits[..] == y
    {
      ghost var c, z := carry, a.digits[..];
      var av := a.digits[offset + i];
      var bv := (b.digits[i] + carry) % BASE;
      if bv != 0 {
        carry := 0;
        a.digits[offset + i] := (av - bv + BASE) % BASE;
        if a.digits[offset + i] > av { carry := 1; }
      }
      BorrowStep(av, y[i], c, a.digits[offset + i], carry);
      BorrowDigit(z, a.digits[..], x, y, offset, i, c, carry);
      i := i + 1;
    }
    assert a.digits[..][offset..offset + count] == a.digits[offset..offset + count];
    assert x[offset..offset + count] == old(a.digits[offset..offset + count]);
    assert y[..count] == b.digits[..count];
    BorrowTells(a.digits[offset..offset + count], Val(x[offset..offset + count]), Val(y[..count]), carry);
  }

  lemma BorrowTells(r: seq<digit>, x: nat, y: nat, c: digit)
    requires c <= 1 && Val(r) + y == x + c * W(|r|)
    ensures c == if x < y then 1 else 0
  {
    ValBound(r);
  }

  lemma BorrowDigit(z: seq<digit>, r: seq<digit>, x: seq<digit>, y: seq<digit>, offset: nat, i: nat, c: digit,
      c1: digit)
    requires offset + i < |x| == |z| == |r| && i < |y| && r == z[offset + i := r[offset + i]]
    requires r[offset + i] + y[i] + c == x[offset + i] + c1 * BASE
    requires Val(z[offset..offset + i]) + Val(y[..i]) == Val(x[offset..offset + i]) + c * W(i)
    ensures Val(r[offset..offset + i + 1]) + Val(y[..i + 1]) == Val(x[offset..offset + i + 1]) + c1 * W(i + 1)
  {
    var m := offset + i;
    WNext(i);
    hide Val, W;
    assert r[offset..m] == z[offset..m] && y[0..i] == y[..i] && y[0..i + 1] == y[..i + 1];
    Snoc(r, offset, m);
    Snoc(x, offset, m);
    Snoc(y, 0, i);
    BorrowOne(Val(z[offset..m]), Val(x[offset..m]), Val(y[..i]), W(i), c, c1, r[m], x[m], y[i]);
  }

  /**
   * Subtract `b` from `a` with `offset` implied zeros to the right of `b`, but no digit of `b` beyond
   * the length of `a`; return whether a borrow is left.  `wrapped` tells that the borrow was taken from
   * a digit that was zero.
   */
  method NaturalSubtractOffset(a: Natural, b: Natural, offset: nat) returns (carry: digit, wrapped: bool)
    requires a.Valid() && b.Valid() && a.digits != b.digits && a != b && offset <= a.length
    modifies a`length, a.digits
    ensures a.Trimmed() && a.length <= old(a.length)
    ensures forall j :: a.length <= j < old(a.length) ==> a.digits[j] == 0
    ensures
      var len := old(a.length);
      var w := if len - offset > b.length then b.length else len - offset;
      var x, y := old(Val(a.digits[offset..offset + w])), Val(b.digits[..w]);
      var absorbed := x < y && len > b.length + offset;
      && carry == (if x < y && !absorbed then 1 else 0)
      && wrapped == (absorbed && old(a.digits[offset + w]) == 0)
      && Val(a.digits[offset..offset + w]) == x - y + (if x < y then W(w) else 0)
      && (absorbed ==> a.digits[offset + w] == (old(a.digits[offset + w]) - 1) % BASE)
      && forall j :: 0 <= j < a.digits.Length && !(offset <= j < offset + w) && !(absorbed && j == offset + w) ==>
           a.digits[j] == old(a.digits[j])
  {
    wrapped := false;
    var index := a.length - offset;
    if index > b.length { index := b.length; }
    carry := SubtractDigits(a, b, offset, index);
    if carry == 1 && a.length > b.length + offset {
      wrapped := a.digits[offset + index] == 0;
      ghost var z := a.digits[..];
      a.digits[offset + index] := (a.digits[offset + index] - carry) % BASE;
      assert a.digits[offset..offset + index] == z[offset..offset + index];
      carry := 0;
    }
    a.Trim();
  }

  /** The digits of `b` are added to those of `a` at `offset`. */
  method AddDigits(a: Natural, b: Natural, offset: nat) returns (carry: digit)
    requires a.Valid() && b.Valid() && a.digits != b.digits && offset + b.length <= a.digits.Length
    modifies a.digits
    ensures carry <= 1
    ensures Val(a.digits[..][offset..offset + b.length]) + carry * W(b.length) ==
      Val(old(a.digits[..])[offset..offset + b.length]) + Val(b.digits[..][..b.length])
    ensures forall j :: 0 <= j < a.digits.Length && !(offset <= j < offset + b.length) ==>
      a.digits[j] == old(a.digits[j])
  {
    hide W;
    carry := 0;
    var i := 0;
    ghost var x, y := a.digits[..], b.digits[..];
    while i < b.length
      invariant i <= b.length && carry <= 1
      invariant Val(a.digits[..][offset..offset + i]) + carry * W(i) == Val(x[offset..offset + i]) + Val(y[..i])
      invariant forall j :: 0 <= j < a.digits.Length && !(offset <= j < offset + i) ==> a.digits[j] == x[j]
      invariant b.digits[..] == y
    {
      WNext(i);
      hide Val, W;
      ghost var c, z := carry, a.digits[..];
      var bv := (b.digits[i] + carry) % BASE;
      var av := a.digits[offset + i];
      if bv != 0 {
        carry := 0;
        a.digits[offset + i] := (av + bv) % BASE;
        if a.digits[offset + i] < av { carry := 1; }
      }
      CarryStep(av, y[i], c, a.digits[offset + i], carry);
      assert a.digits[..][offset..offset + i] == z[offset..offset + i];
      Snoc(a.digits[..], offset, offset + i);
      Snoc(x, offset, offset + i);
      Snoc(y, 0, i);
      assert y[0..i] == y[..i] && y[0..i + 1] == y[..i + 1];
      CarryOne(Val(z[offset..offset + i]), Val(x[offset..offset + i]), Val(y[..i]), W(i), c, carry,
               a.digits[offset + i], x[offset + i], y[i]);
      i := i + 1;
    }
  }

  /** Add `b` to `a` with `offset` implied zeros to the right of `b`; only a top digit that becomes zero is trimmed. */
  method NaturalAddOffset(a: Natural, b: Natural, offset: nat)
    requires a.Valid() && b.Valid() && a.digits != b.digits && a != b
    requires offset + b.length < a.digits.Length
    modifies a`length, a.digits
    ensures
      var top := offset + b.length + 1;
      && Val(a.digits[offset..top]) == (old(Val(a.digits[offset..top])) + b.Value()) % W(b.length + 1)
      && (forall j :: 0 <= j < a.digits.Length && !(offset <= j < top) ==> a.digits[j] == old(a.digits[j]))
      && (if old(a.length) == top then
            a.Trimmed() && a.length <= old(a.length) && forall j :: a.length <= j < old(a.length) ==> a.digits[j] == 0
          else a.length == old(a.length))
  {
    var n := b.length;
    ghost var x, y := a.digits[..], b.digits[..];
    var carry := AddDigits(a, b, offset);
    var at := offset + n;
    ghost var z := a.digits[..];
    if carry == 1 {
      a.digits[at] := (a.digits[at] + carry) % BASE;
    }
    CarryOut(x, a.digits[..], z, y, offset, n, carry);
    assert a.digits[..][offset..at + 1] == a.digits[offset..at + 1];
    assert y[..n] == b.digits[..n];
    if at == a.length - 1 {
      a.Trim();
    }
  }

  /** The last carry of an addition, added modulo the base. */
  lemma CarryOut(x: seq<digit>, r: seq<digit>, z: seq<digit>, y: seq<digit>, offset: nat, n: nat, carry: nat)
    requires offset + n < |x| == |z| == |r| && n <= |y| && carry <= 1
    requires Val(z[offset..offset + n]) + carry * W(n) == Val(x[offset..offset + n]) + Val(y[..n])
    requires z[offset + n] == x[offset + n] && r == z[offset + n := (x[offset + n] + carry) % BASE]
    ensures Val(r[offset..offset + n + 1]) == (Val(x[offset..offset + n + 1]) + Val(y[..n])) % W(n + 1)
  {
    hide *;
    var m, xd, rd := offset + n, x[offset + n], r[offset + n];
    WNext(n);
    ValBound(r[offset..m + 1]);
    assert |r[offset..m + 1]| == n + 1;
    Snoc(x, offset, m);
    Snoc(r, offset, m);
    assert r[offset..m] == z[offset..m];
    CarryOutSum(Val(z[offset..m]), Val(x[offset..m]), Val(y[..n]), W(n), carry, xd, rd, Val(r[offset..m + 1]));
  }

  lemma CarryOutSum(z: int, x: int, y: int, w: nat, carry: nat, xd: digit, rd: digit, v: nat)
    requires carry <= 1 && z + carry * w == x + y && rd == (xd + carry) % BASE
    requires v == z + w * rd && v < BASE * w
    ensures v == ((x + w * xd) + y) % (BASE * w)
  {
    var over := if xd + carry == BASE then 1 else 0;
    Distribute(xd, carry, w);
    Commute(carry, w);
    Distribute(rd, over * BASE, w);
    assert w * (over * BASE) == over * (BASE * w);
    Commute(over, BASE * w);
    Divided(over, v, BASE * w);
  }

  /** The lower digits of a product with one digit, and the carry out of them. */
  method MultiplyDigits(a: Natural, d: digit, result: Natural) returns (carry: digit)
    requires a.Valid() && result.digits.Length > a.length && result.digits != a.digits
    modifies result.digits
    ensures Val(result.digits[..][..a.length]) + carry * W(a.length) == d * Val(a.digits[..][..a.length])
    ensures d > 0 && a.Trimmed() && a.length > 0 ==> carry > 0 || result.digits[a.length - 1] != 0
  {
    hide W;
    carry := 0;
    var i := 0;
    ghost var x := a.digits[..];
    while i < a.length
      invariant i <= a.length && carry < BASE - 1
      invariant Val(result.digits[..][..i]) + carry * W(i) == d * Val(x[..i])
      invariant a.digits[..] == x
      invariant i > 0 && d > 0 && x[i - 1] != 0 ==> carry > 0 || result.digits[i - 1] != 0
    {
      hide Val, W;
      ghost var c, z := carry, result.digits[..];
      var q := d * a.digits[i] + carry;
      ProductBound(d, a.digits[i], carry);
      carry := q / BASE;
      result.digits[i] := q % BASE;
      MultiplyStep(z, result.digits[..], x, d, i, c, carry);
      if d > 0 && x[i] != 0 { ProductPositive(d, x[i]); }
      i := i + 1;
    }
  }

  /** Multiply by one digit; a product with zero keeps its zeros. */
  method NaturalDigitMultiply(a: Natural, d: digit, result: Natural)
    requires a.Valid() && result.digits.Length > a.length && result.digits != a.digits && result != a
    modifies result`length, result.digits
    ensures result.Valid() && result.Value() == d * a.Value()
    ensures result.length == a.length || (result.length == a.length + 1 && result.Trimmed())
    ensures d > 0 && a.Trimmed() && a.length > 0 ==> result.Trimmed()
  {
    hide Val, W;
    var i := a.length;
    var carry := MultiplyDigits(a, d, result);
    ghost var z := result.digits[..];
    assert a.digits[..][..i] == a.digits[..i] && z[..i] == result.digits[..i];
    result.length := i;
    if carry > 0 {
      result.digits[i] := carry;
      result.length := i + 1;
      assert result.digits[..i + 1] == z[..i] + [carry];
      ValSnoc(z[..i], carry);
      Commute(W(i), carry);
    }
  }

  lemma MultiplyStep(z: seq<digit>, r: seq<digit>, x: seq<digit>, d: digit, i: nat, c: digit, c1: digit)
    requires i < |x| && i < |z| == |r| && r == z[i := r[i]] && r[i] + c1 * BASE == d * x[i] + c
    requires Val(z[..i]) + c * W(i) == d * Val(x[..i])
    ensures Val(r[..i + 1]) + c1 * W(i + 1) == d * Val(x[..i + 1])
  {
    WNext(i);
    hide Val, W;
    assert r[..i] == z[..i];
    Snoc(r, 0, i);
    Snoc(x, 0, i);
    assert x[0..i] == x[..i] && x[0..i + 1] == x[..i + 1] && r[0..i] == r[..i] && r[0..i + 1] == r[..i + 1];
    ProductOne(Val(z[..i]), Val(x[..i]), d, W(i), c, c1, r[i], x[i]);
  }

  lemma ProductBound(d: digit, x: digit, c: digit)
    requires c < BASE - 1
    ensures (d * x + c) / BASE < BASE - 1
  {
    var m := BASE - 1;
    MulLe(d, m, x);
    MulLe(x, m, m);
  }

  lemma ProductPositive(d: digit, x: digit)
    requires d > 0 && x > 0
    ensures d * x > 0
  {
  }

  lemma ProductOne(z: int, x: int, d: nat, w: nat, c: digit, c1: digit, zd: digit, xd: digit)
    requires z + c * w == d * x && zd + c1 * BASE == d * xd + c
    ensures (z + w * zd) + c1 * (BASE * w) == d * (x + w * xd)
  {
    assert w * (zd + c1 * BASE) == w * zd + c1 * (BASE * w);
    assert w * (d * xd + c) == d * (w * xd) + c * w;
  }

  /** Compare naturals: first their lengths, then their digits from the top. */
  method NaturalLess(a: Natural, b: Natural) returns (less: bool)
    requires a.Trimmed() && b.Trimmed()
    ensures less == (a.Value() < b.Value())
  {
    ghost var s, t := a.digits[..a.length], b.digits[..b.length];
    if a.length < b.length { Shorter(s, t); return true; }
    if b.length < a.length { Shorter(t, s); return false; }
    var i := a.length;
    while i > 0
      invariant 0 <= i <= a.length == b.length && s[i..] == t[i..]
    {
      i := i - 1;
      if a.digits[i] != b.digits[i] {
        FirstDifference(s, t, i);
        return a.digits[i] < b.digits[i];
      }
      assert s[i..] == [s[i]] + s[i + 1..] && t[i..] == [t[i]] + t[i + 1..];
    }
    assert s == s[0..] && t == t[0..];
    return false;
  }

  lemma Shorter(s: seq<digit>, t: seq<digit>)
    requires |s| < |t| && t[|t| - 1] != 0
    ensures Val(s) < Val(t)
  {
    ValBound(s);
    ValPositive(t);
    PowMonotone(BASE, |s|, |t| - 1);
  }

  lemma FirstDifference(s: seq<digit>, t: seq<digit>, i: nat)
    requires i < |s| == |t| && s[i] != t[i] && s[i + 1..] == t[i + 1..]
    ensures Val(s) < Val(t) <==> s[i] < t[i]
  {
    var s1, t1 := s[..i + 1], t[..i + 1];
    assert s1 == s[..i] + [s[i]] && t1 == t[..i] + [t[i]];
    ValSnoc(s[..i], s[i]);
    ValSnoc(t[..i], t[i]);
    ValSplit(s, i + 1);
    ValSplit(t, i + 1);
    ValBound(s[..i]);
    ValBound(t[..i]);
    if s[i] < t[i] { Apart(s[i], t[i], W(i)); } else { Apart(t[i], s[i], W(i)); }
  }
}
