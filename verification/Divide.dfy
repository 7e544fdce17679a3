/** Division of naturals, digit by digit in place. */
module Divide {
  import opened Options
  import opened Arithmetic
  import opened Digits
  import opened LeadingDigits
  import opened Naturals
  import opened NaturalShift
  import opened Division

  // ----- the shift -----

  /** The shift that brings a digit to at least half of the base. */
  method Normalize(d: digit) returns (n: nat)
    requires d > 0
    ensures n < 32 && Pow(2, n) == Scale(d)
  {
    n := 0;
    var x := d;
    Powers();
    while x < BASE / 2
      invariant 0 < x < BASE && x == d * Pow(2, n)
      invariant Pow(2, n) * Scale(x) == Scale(d)
      decreases BASE - x
    {
      NormalizeStep(d, n, x);
      hide Pow, Scale;
      n := n + 1;
      x := (x * 2) % BASE;
    }
    MulLe(1, d, Pow(2, n));
    if n >= 32 { PowMonotone(2, 32, n); }
  }

  lemma NormalizeStep(d: nat, n: nat, x: nat)
    requires 0 < x < BASE / 2 && x == d * Pow(2, n)
    ensures 2 * x == d * Pow(2, n + 1) && Pow(2, n + 1) * Scale(2 * x) == Pow(2, n) * Scale(x)
  {
    Double(d, Pow(2, n));
    Swap(Pow(2, n), 2, Scale(2 * x));
  }

  // ----- one digit of the quotient -----

  /**
   * Guess a digit of the quotient from four digits of the dividend and two of the divisor, then correct
   * it.  The arithmetic is that of double digits, but nothing overflows.
   */
  method GuessDigit(e1: digit, e2: digit, e3: digit, e4: digit, normal: nat, c: digit, c2: digit)
      returns (first: digit, d: digit)
    requires normal < 32 && BASE <= 2 * c
    requires Shifted(Four(e1, e2, e3, e4), Pow(2, normal)) < (c * BASE + c2 + 1) * BASE
    ensures
      var t := Shifted(Four(e1, e2, e3, e4), Pow(2, normal));
      d == Fitting(t, c * BASE + c2) && (first == 0 <==> t / BASE < c) && (first == 0 ==> d == 0)
  {
    ghost var t := Shifted(Four(e1, e2, e3, e4), Pow(2, normal));
    var temp, temp2 := ShiftDigits(e1, e2, e3, e4, normal, c, c2);
    hide Shifted, Four;
    TwoDigits(t, c, c2);
    if temp / BASE == c {
      d := BASE - 1;
      BigQuotient(temp, c);
    } else {
      d := (temp / c) % BASE;
      SmallQuotient(temp, c, d);
    }
    first := d;
    if d != 0 {
      d := CorrectDigit(temp - d * c, temp2, d, c, c2, t, temp);
    } else {
      TooLarge(temp, temp2, 1, c, c2);
    }
    Corrected(t, c * BASE + c2, d);
  }

  /** The first two digits of the shifted dividend, and the third. */
  method ShiftDigits(e1: digit, e2: digit, e3: digit, e4: digit, normal: nat, ghost c: digit, ghost c2: digit)
    returns (temp: nat, temp2: digit)
    requires normal < 32
    requires Shifted(Four(e1, e2, e3, e4), Pow(2, normal)) < (c * BASE + c2 + 1) * BASE
    ensures var t := Shifted(Four(e1, e2, e3, e4), Pow(2, normal)); temp == t / BASE && temp2 == t % BASE
  {
    var p, h := Pow(2, normal), Pow(2, 32 - normal);
    ghost var t := Shifted(Four(e1, e2, e3, e4), p);
    ShiftOf(normal);
    ShiftTwo(e1 * BASE + e2, e3, e4, p, h);
    ShiftDigit(e3, e4, p, h);
    ShiftDigit(e4, 0, p, h);
    hide Shifted, Shift, Pow;
    temp, temp2 := e1 * BASE + e2, e3;
    Unfolded(t, temp * p, e3 / h, Low(e3, e4, p, h), c, c2);
    if normal > 0 {
      temp := (temp * p) % (BASE * BASE) + e3 / h;
      temp2 := (e3 * p) % BASE + e4 / h;
    } else {
      assert p == 1 && h == BASE by { Powers(); assert Pow(2, 0) == 1; }
    }
  }

  lemma Unfolded(t: nat, x: nat, y: nat, z: digit, c: digit, c2: digit)
    requires t == (x + y) * BASE + z && t < (c * BASE + c2 + 1) * BASE
    ensures t / BASE == x + y < BASE * BASE && t % BASE == z
  {
    Divided(x + y, z, BASE);
    TwoDigits(t, c, c2);
  }

  lemma TwoDigits(t: nat, c: digit, c2: digit)
    requires t < (c * BASE + c2 + 1) * BASE
    ensures t / BASE < BASE * BASE && t / BASE / BASE <= c
  {
    assert t / BASE <= c * BASE + c2;
  }

  /** The first guess takes no more than there is, and is not too small. */
  lemma BigQuotient(temp: nat, c: digit)
    requires c > 0 && temp / BASE == c
    ensures (BASE - 1) * c <= temp && c <= temp
  {
    assert temp == BASE * c + temp % BASE;
  }

  lemma SmallQuotient(temp: nat, c: digit, d: digit)
    requires c > 0 && temp / BASE < c && d == (temp / c) % BASE
    ensures d * c <= temp < (d + 1) * c && (d == 0 <==> temp < c)
  {
    FloorBounds(temp, c);
    SameQuotient(temp, c, temp / c, d);
  }

  lemma SameQuotient(temp: nat, c: digit, q: nat, d: digit)
    requires c > 0 && temp / BASE < c && d == q % BASE && q * c <= temp < (q + 1) * c
    ensures d * c <= temp < (d + 1) * c && (d == 0 <==> temp < c)
  {
    BelowBase(q, temp, c);
    if q >= 1 { MulLe(1, q, c); }
  }

  lemma FloorBounds(x: nat, c: nat)
    requires c > 0
    ensures 0 <= x / c && (x / c) * c <= x < (x / c + 1) * c
  {
    var q := x / c;
    assert x == c * q + x % c;
    Commute(c, q);
    Distribute(q, 1, c);
  }

  lemma BelowBase(q: nat, x: nat, c: nat)
    requires q * c <= x && x / BASE < c
    ensures q < BASE
  {
    if q >= BASE { MulLe(BASE, q, c); }
  }

  lemma Corrected(t: nat, C: nat, d: digit)
    requires C > 0 && d * C <= t && (d == BASE - 1 || (d + 1) * C > t)
    ensures d == Fitting(t, C)
  {
    var q := t / C;
    assert t == C * q + t % C;
    if d > q { MulLe(q + 1, d, C); Distribute(q, 1, C); }
    if d < q { MulLe(d + 1, q, C); }
  }

  /** Lower the guess until two digits of the divisor fit into three of the dividend. */
  method CorrectDigit(temp0: nat, temp2: digit, d0: digit, c: digit, c2: digit, ghost t: nat, ghost total: nat)
    returns (d: digit)
    requires c > 0 && t == total * BASE + temp2 && total == temp0 + d0 * c
    requires d0 == BASE - 1 || (d0 + 1) * c > total
    ensures d * (c * BASE + c2) <= t && (d == BASE - 1 || (d + 1) * (c * BASE + c2) > t)
  {
    d := d0;
    var temp := temp0;
    if d0 < BASE - 1 { TooLarge(total, temp2, d0 + 1, c, c2); }
    while temp < BASE && c2 * d > temp * BASE + temp2
      invariant total == temp + d * c
      invariant d == BASE - 1 || (d + 1) * (c * BASE + c2) > t
      decreases d
    {
      Product(d, c, c2, temp, temp2, total);
      d := d - 1;
      temp := temp + c;
      Distribute(d, 1, c);
    }
    if temp >= BASE { LargeRest(d, c2, temp); }
    Product(d, c, c2, temp, temp2, total);
  }

  lemma LargeRest(d: digit, c2: digit, temp: nat)
    requires temp >= BASE
    ensures c2 * d <= temp * BASE
  {
    MulLe(d, BASE - 1, c2);
    MulLe(c2, BASE - 1, BASE - 1);
    MulLe(BASE, temp, BASE);
  }

  /** Whether the guess is too large, in terms of what is left of the dividend. */
  lemma Product(d: nat, c: nat, c2: nat, temp: nat, temp2: nat, total: nat)
    requires total == temp + d * c
    ensures d * (c * BASE + c2) <= total * BASE + temp2 <==> c2 * d <= temp * BASE + temp2
  {
    assert d * (c * BASE + c2) == (d * c) * BASE + c2 * d by { Distribute(c * BASE, c2, d); Assoc(d, c, BASE); }
  }

  lemma TooLarge(temp: nat, temp2: digit, d: nat, c: nat, c2: nat)
    requires d * c > temp
    ensures d * (c * BASE + c2) > temp * BASE + temp2
  {
    assert d * (c * BASE + c2) == (d * c) * BASE + d * c2 by { Distribute(c * BASE, c2, d); Assoc(d, c, BASE); }
    MulLe(temp + 1, d * c, BASE);
  }

  // ----- the remainder in place -----

  /** The digits of `rem` below `m` hold the value `T`; those from its length on are zero. */
  ghost predicate Held(rem: Natural, T: nat, m: nat)
    reads rem, rem.digits
  {
    && m <= rem.digits.Length && rem.length <= m
    && Val(rem.digits[..m]) == T
    && forall j :: rem.length <= j < m ==> rem.digits[j] == 0
  }

  lemma SplitAt(s: seq<digit>, k: nat, m: nat)
    requires k + m <= |s|
    ensures Val(s[..k + m]) == Val(s[..k]) + W(k) * Val(s[k..k + m]) && Val(s[..k]) < W(k)
  {
    var t := s[..k + m];
    ValSplit(t, k);
    ValBound(t[..k]);
    assert t[..k] == s[..k] && t[k..] == s[k..k + m];
  }

  /** A difference of the lower `w` digits, as a difference of all digits. */
  lemma Difference(s: seq<digit>, t: seq<digit>, w: nat, P: nat, absorbed: bool)
    requires |s| == |t| && w <= |s|
    requires Val(t[..w]) == Val(s[..w]) - P + (if Val(s[..w]) < P then W(w) else 0)
    requires absorbed ==> Val(s[..w]) < P && w < |s| && s[w] > 0 && t[w] == s[w] - 1 && t[w + 1..] == s[w + 1..]
    requires !absorbed ==> t[w..] == s[w..]
    ensures Val(t) == Val(s) - P + (if Val(s[..w]) < P && !absorbed then W(w) else 0)
  {
    ValSplit(s, w);
    ValSplit(t, w);
    if absorbed {
      assert s[w..][1..] == s[w + 1..] && t[w..][1..] == t[w + 1..];
      assert Val(s[w..]) == Val(t[w..]) + 1;
      Distribute(Val(t[w..]), 1, W(w));
    }
  }

  /** `P` does not exceed the whole number if it does not exceed its lower digits or a digit above them is not zero. */
  lemma NotBelowLower(s: seq<digit>, w: nat, P: nat)
    requires w <= |s| && P < W(w)
    ensures Val(s) < P <==> Val(s[..w]) < P && Val(s[w..]) == 0
  {
    ValSplit(s, w);
    if Val(s[w..]) > 0 { MulLe(1, Val(s[w..]), W(w)); }
  }

  /** Subtract `taken` at digit `k`; `lost` tells that the borrow this should have left is not noticed. */
  method TakeAway(rem: Natural, taken: Natural, k: nat, n: nat, ghost T: nat) returns (carry: digit, lost: bool)
    requires taken.Valid() && rem != taken && rem.digits != taken.digits
    requires n <= taken.length <= n + 1 && (taken.length == n + 1 ==> taken.Trimmed())
    requires Held(rem, T, k + n + 1) && k + n <= rem.length && taken.Value() < Val(rem.digits[k..k + n + 1]) + W(n)
    modifies rem`length, rem.digits
    ensures rem.Valid()
    ensures
      var x, P, len := old(Val(rem.digits[k..k + n + 1])), taken.Value(), old(rem.length);
      && lost == (x < P && taken.length + k != len)
      && carry == (if x < P && taken.length + k == len then 1 else 0)
      && (!lost ==>
          && Val(rem.digits[k..k + n + 1]) == x - P + carry * W(taken.length)
          && rem.Trimmed() && Held(rem, Val(rem.digits[..k + n + 1]), k + n + 1) && rem.length <= len
          && rem.digits[..k] == old(rem.digits[..k]))
  {
    hide Val, W;
    ghost var s := rem.digits[k..k + n + 1];
    ghost var was := rem.digits[..];
    var wrapped;
    if taken.length > rem.length - k {
      // only as many digits as the remainder has are subtracted, and they leave no borrow
      assert rem.length == k + n && s[n] == rem.digits[k + n] == 0;
      ghost var p := taken.digits[..taken.length];
      Truncated(s, p, n);
      assert was[k..k + n] == s[..n] && rem.digits[k..k + n] == s[..n] && p[..n] == taken.digits[..n];
      carry, wrapped := NaturalSubtractOffset(rem, taken, k);
      lost := true;
      return;
    }
    var w := taken.length;
    ghost var len := rem.length;
    carry, wrapped := NaturalSubtractOffset(rem, taken, k);
    lost := wrapped;
    ghost var t := rem.digits[k..k + n + 1];
    ghost var P := taken.Value();
    assert was[k..k + w] == s[..w] && rem.digits[k..k + w] == t[..w];
    ValBound(taken.digits[..w]);
    NotBelowLower(s, w, P);
    ghost var absorbed := Val(s[..w]) < P && len > w + k;
    if absorbed {
      assert w == n && s[w..] == [s[w]];
      ValOne(s[w]);
    } else {
      if Val(s[..w]) < P { ValZeros(s[w..]); }
      assert t[w..] == s[w..];
    }
    if !wrapped { Difference(s, t, w, P, absorbed); }
  }

  /** A product with more digits than the remainder has exceeds it, but its lower digits do not. */
  lemma Truncated(s: seq<digit>, p: seq<digit>, n: nat)
    requires |s| == n + 1 && |p| == n + 1 && p[n] != 0 && s[n] == 0 && Val(p) < Val(s) + W(n)
    ensures Val(s) < Val(p) && Val(p[..n]) <= Val(s[..n])
  {
    assert s == s[..n] + [0] && p == p[..n] + [p[n]];
    ValSnoc(s[..n], 0);
    ValSnoc(p[..n], p[n]);
    ValBound(s[..n]);
    ValPositive(p);
    MulLe(1, p[n], W(n));
  }

  /** Add the divisor back: what the product took too much is put right, the borrow and the carry cancel. */
  method AddBack(rem: Natural, b: Natural, k: nat, w: nat, ghost r: nat)
    requires b.Valid() && rem != b && rem.digits != b.digits && b.length >= 1
    requires w == b.length || w == b.length + 1
    requires k + b.length + 1 <= rem.digits.Length
    requires Held(rem, Val(rem.digits[..k + b.length + 1]), k + b.length + 1) && rem.length == k + w
    requires r < b.Value() && Val(rem.digits[k..k + b.length + 1]) + b.Value() == r + W(w)
    modifies rem`length, rem.digits
    ensures Held(rem, Val(old(rem.digits[..k])) + W(k) * r, k + b.length)
    ensures if w == b.length then rem.length == k + w else rem.Trimmed()
  {
    hide Val, W;
    var n := b.length;
    ghost var low, was := rem.digits[..k], rem.digits[..];
    ValBound(b.digits[..n]);
    NaturalAddOffset(rem, b, k);
    ghost var now := rem.digits[..];
    assert now[..k] == low;
    assert now[k..k + n + 1] == rem.digits[k..k + n + 1];
    SumWindow(now[k..k + n + 1], n, w, r);
    assert now[k..k + n + 1][..n] == now[k..k + n];
    SplitAt(now, k, n);
    assert now[..k + n] == rem.digits[..k + n];
    if w == n + 1 {
      assert now[k..k + n + 1][n] == now[k + n];
    }
  }

  /** The sum taken modulo the weight above its top digit. */
  lemma SumWindow(s: seq<digit>, n: nat, w: nat, r: nat)
    requires |s| == n + 1 && (w == n || w == n + 1) && r < W(n)
    requires Val(s) == (r + W(w)) % W(n + 1)
    ensures Val(s[..n]) == r && (w == n + 1 ==> s[n] == 0)
  {
    WNext(n);
    ValSplit(s, n);
    ValBound(s[..n]);
    assert s[n..] == [s[n]];
    ValOne(s[n]);
    if w == n {
      Divided(0, r + W(n), W(n + 1));
      Unique(s[n], Val(s[..n]), 1, r, W(n));
    } else {
      Divided(1, r, W(n + 1));
      Unique(s[n], Val(s[..n]), 0, r, W(n));
    }
  }

  // ----- one step -----

  /** A digit that is right, and one that is one too large. */
  lemma DigitOrMore(w0: nat, b: nat, d: nat)
    requires b > 0 && (d == w0 / b || d == w0 / b + 1)
    ensures w0 < d * b <==> d == w0 / b + 1
    ensures w0 - d * b + (if d == w0 / b then 0 else b) == w0 % b
  {
    var q := w0 / b;
    assert w0 == b * q + w0 % b;
    Commute(b, q);
    Distribute(q, 1, b);
  }

  /** After a guess the remainder reaches at least the top digit of the divisor. */
  lemma GuessedLength(v: Divisor, T: nat, k: nat, h: nat)
    requires IsDivisor(v) && v.b > 0 && Shift(v.p, h) && h >= 2 && Guessed(v, T, k)
    ensures NumDigits(T) >= k + v.n
  {
    HeadBounds(v);
    if T < W(k + v.n - 1) {
      CutBounds(T, v.p, k + v.n);
      WNext(k + v.n - 1);
      SmallGuess(Cut(T, v.p, k + v.n), T, W(k + v.n - 1), v.p, h);
    }
    DigitsBelow(T, k + v.n - 1);
  }

  lemma SmallGuess(t: nat, T: nat, m: nat, p: nat, h: nat)
    requires T < m && t * (BASE * m) <= T * ((p * BASE) * BASE) && Shift(p, h) && h >= 2
    ensures t / BASE < p && 2 * p <= BASE
  {
    // t * BASE * m <= T * p * BASE * BASE < m * p * BASE * BASE
    Assoc3(T, p);
    MulLt(T, m, p);
    Assoc(t, BASE, m);
    Swap(t, BASE, m);
    assert (t * m) * BASE < ((m * p) * BASE) * BASE;
    assert t * m < (m * p) * BASE;
    Commute(m, p);
    Swap(p, m, BASE);
    Cancel(t, p * BASE, m);
    MulLe(2, h, p);
  }

  /** The remainder with the borrow still to be cancelled has as many digits as before. */
  lemma BorrowedLength(v: Divisor, T: nat, k: nat, d: nat, w: nat, T1: int)
    requires v.b > 0 && v.n >= 1 && v.p >= 1 && w >= v.n && d * At(v, k) > T
    requires (d * At(v, k) - T) * (v.p * BASE) < W(k + v.n)
    requires T1 == T - d * At(v, k) + W(k + w)
    ensures T1 >= 0 && NumDigits(T1) == k + w
  {
    var e, m := d * At(v, k) - T, W(k + v.n - 1);
    WNext(k + v.n - 1);
    MulLe(1, v.p, BASE);
    MulLe(BASE, v.p * BASE, e);
    Commute(BASE, m);
    Cancel(e, m, BASE);
    PowMonotone(BASE, k + v.n - 1, k + w - 1);
    WNext(k + w - 1);
    DigitsBelow(T1, k + w);
    DigitsBelow(T1, k + w - 1);
  }

  /** A trimmed remainder has as many digits as its value. */
  lemma TrimmedLength(rem: Natural, T: nat, m: nat)
    requires Held(rem, T, m)
    ensures Val(rem.digits[..rem.length]) == T && NumDigits(T) <= rem.length
    ensures rem.Trimmed() ==> rem.length == NumDigits(T)
    ensures forall j :: rem.length <= j <= m ==> Held(rem, T, j)
  {
    var s := rem.digits[..m];
    forall j | rem.length <= j <= m ensures Held(rem, T, j) {
      assert s[..j] == rem.digits[..j];
      ValPad(s, j);
    }
    assert Held(rem, T, rem.length);
    ValBound(rem.digits[..rem.length]);
    DigitsBelow(T, rem.length);
    if rem.Trimmed() { ValDigits(rem.digits[..rem.length]); }
  }

  /** Subtract the product of the divisor with the estimated digit, and put it right if that was too much. */
  method SubtractProduct(rem: Natural, b: Natural, partial: Natural, k: nat, estimate: digit, ghost v: Divisor,
      ghost T: nat,
                         ghost h: nat)
    returns (d: digit, lost: bool)
    requires b.Trimmed() && v.n == b.length >= 1 && v.b == b.Value() && IsDivisor(v) && Shift(v.p, h) && h >= 2
    requires rem != b && rem != partial && b != partial && rem.digits != b.digits
    requires rem.digits != partial.digits && b.digits != partial.digits && partial.digits.Length > b.length
    requires Held(rem, T, k + v.n + 1) && v.b > 0 && Head(v) > 0 && State(v, T, rem.length, k)
    requires Guessed(v, T, k) && estimate == Estimate(v, T, k)
    modifies rem`length, rem.digits, partial`length, partial.digits
    ensures rem.Valid() && lost == Next(v, T, old(rem.length), k).None?
    ensures if lost then d == T / At(v, k) + 1
            else
              && d == T / At(v, k) && Held(rem, T % At(v, k), k + v.n)
              && rem.length == Next(v, T, old(rem.length), k).value
  {
    hide Estimate, Guessed, Head, Val, W, NumDigits, At, Shift, IsDivisor;
    d := estimate;
    StepFacts(v, T, k);
    GuessedLength(v, T, k, h);
    TrimmedLength(rem, T, k + v.n + 1);
    ghost var low, w0 := WindowFacts(rem, v, T, k);
    DigitOrMore(w0, v.b, d);
    assert v.p >= 1 by { ScaleAtLeastOne(v); }
    hide State;
    var taken := ProductOf(b, partial, d);
    LittleMore(w0, v, d);
    var carry;
    carry, lost := TakeAway(rem, taken, k, b.length, T);
    if lost { return; }
    assert rem.digits[..][..k] == rem.digits[..k];
    if carry != 0 {
      PutRight(rem, b, k, taken.length, v, T, d, low, w0);
      d := d - 1;
    } else {
      NothingOwed(rem, v, T, k, low, w0 % v.b);
    }
  }

  /** The product exceeds the digits it is taken from by no more than the divisor. */
  lemma LittleMore(w0: nat, v: Divisor, d: nat)
    requires IsDivisor(v) && v.b > 0 && d <= w0 / v.b + 1
    ensures d * v.b < w0 + W(v.n)
  {
    var q := w0 / v.b;
    assert w0 == v.b * q + w0 % v.b;
    Commute(v.b, q);
    Distribute(q, 1, v.b);
    MulLe(d, q + 1, v.b);
  }

  lemma ScaleAtLeastOne(v: Divisor)
    requires IsDivisor(v)
    ensures v.p >= 1
  {
  }

  /** Nothing was taken too much. */
  lemma NothingOwed(rem: Natural, v: Divisor, T: nat, k: nat, low: nat, r: nat)
    requires IsDivisor(v) && v.b > 0 && rem.Trimmed() && k + v.n + 1 <= rem.digits.Length
    requires Held(rem, Val(rem.digits[..k + v.n + 1]), k + v.n + 1)
    requires low == Val(rem.digits[..k]) && Val(rem.digits[k..k + v.n + 1]) == r && T % At(v, k) == low + W(k) * r
    ensures Held(rem, T % At(v, k), k + v.n) && rem.length == NumDigits(T % At(v, k))
  {
    var T1 := Val(rem.digits[..k + v.n + 1]);
    var low1, w1 := WindowFacts(rem, v, T1, k);
    hide At, W, Val, NumDigits, IsDivisor;
    assert T1 == T % At(v, k);
    TrimmedLength(rem, T1, k + v.n + 1);
    Below(v, T1, k);
    assert Held(rem, T1, k + v.n);
  }

  /** The product was taken once too often, and the borrow this left is cancelled by adding the divisor back. */
  method PutRight(rem: Natural, b: Natural, k: nat, w: nat, ghost v: Divisor, ghost T: nat, ghost d: nat,
      ghost low: nat, ghost w0: nat)
    requires b.Valid() && v.n == b.length >= 1 && v.b == b.Value() && v.b > 0 && v.p >= 1
    requires rem != b && rem.digits != b.digits && (w == v.n || w == v.n + 1)
    requires k + v.n + 1 <= rem.digits.Length && rem.Trimmed()
    requires Held(rem, Val(rem.digits[..k + v.n + 1]), k + v.n + 1)
    requires low == Val(rem.digits[..k]) && Val(rem.digits[k..k + v.n + 1]) == w0 - d * v.b + W(w)
    requires T == low + W(k) * w0 && low < W(k) && d * v.b > w0 && w0 - d * v.b + v.b == w0 % v.b
    requires T % At(v, k) == low + W(k) * (w0 % v.b)
    requires (d * At(v, k) - T) * (v.p * BASE) < W(k + v.n)
    modifies rem`length, rem.digits
    ensures Held(rem, T % At(v, k), k + v.n)
    ensures rem.length == if w == v.n + 1 then NumDigits(T % At(v, k)) else k + w
  {
    ghost var T1 := Val(rem.digits[..k + v.n + 1]);
    ghost var low1, w1 := WindowFacts(rem, v, T1, k);
    Borrowed(v, T, low, w0, d, k, w, w1, T1);
    hide At, W, Val, NumDigits;
    TrimmedLength(rem, T1, k + v.n + 1);
    AddBack(rem, b, k, w, w0 % v.b);
    TrimmedLength(rem, T % At(v, k), k + v.n);
  }

  /** The remainder seen from digit `k`: what lies below, and the digits from there on. */
  lemma WindowFacts(rem: Natural, v: Divisor, T: nat, k: nat) returns (low: nat, w0: nat)
    requires v.b > 0 && k + v.n + 1 <= rem.digits.Length && Val(rem.digits[..k + v.n + 1]) == T
    ensures low == Val(rem.digits[..k]) < W(k) && w0 == Val(rem.digits[k..k + v.n + 1])
    ensures T == low + W(k) * w0 && T / At(v, k) == w0 / v.b && T % At(v, k) == low + W(k) * (w0 % v.b)
  {
    var s := rem.digits[..];
    low, w0 := Val(rem.digits[..k]), Val(rem.digits[k..k + v.n + 1]);
    SplitAt(s, k, v.n + 1);
    assert s[..k + v.n + 1] == rem.digits[..k + v.n + 1] && s[k..k + v.n + 1] == rem.digits[k..k + v.n + 1];
    assert s[..k] == rem.digits[..k];
    WindowQuotient(T, low, w0, v.b, W(k));
  }

  /** The product with one digit, in `partial` unless it is the divisor itself. */
  method ProductOf(b: Natural, partial: Natural, d: digit) returns (taken: Natural)
    requires b.Trimmed() && b.length >= 1 && b != partial && b.digits != partial.digits &&
      partial.digits.Length > b.length
    modifies partial`length, partial.digits
    ensures taken == b || taken == partial
    ensures taken.Valid() && taken.Value() == d * b.Value()
    ensures b.length <= taken.length <= b.length + 1 && (taken.length == b.length + 1 ==> taken.Trimmed())
    ensures d > 0 ==> taken.Trimmed() && taken.length == NumDigits(d * b.Value())
  {
    taken := b;
    if d != 1 {
      NaturalDigitMultiply(b, d, partial);
      taken := partial;
    }
    if d > 0 { ValDigits(taken.digits[..taken.length]); }
  }

  lemma Borrowed(v: Divisor, T: nat, low: nat, w0: nat, d: nat, k: nat, w: nat, w1: nat, T1: nat)
    requires v.b > 0 && v.n >= 1 && v.p >= 1 && w >= v.n
    requires T == low + W(k) * w0 && low < W(k) && d * v.b > w0
    requires (d * At(v, k) - T) * (v.p * BASE) < W(k + v.n)
    requires w1 == w0 - d * v.b + W(w) && T1 == low + W(k) * w1
    ensures NumDigits(T1) == k + w
  {
    PowAdd(BASE, k, w);
    Assoc(d, v.b, W(k));
    Distribute(w0 - d * v.b, W(w), W(k));
    Distribute(w0, d * v.b, W(k));
    MulLe(w0 + 1, d * v.b, W(k));
    Distribute(w0, 1, W(k));
    BorrowedLength(v, T, k, d, w, T1);
  }

  /** One digit of the quotient: estimated from leading digits, and taken away from the remainder. */
  method DivideStep(rem: Natural, b: Natural, partial: Natural, k: nat, normal: nat, c: digit, c2: digit,
                    ghost v: Divisor, ghost T: nat)
    returns (d: digit, lost: bool)
    requires b.Trimmed() && v.n == b.length >= 1 && v.b == b.Value() && IsDivisor(v) && v.b > 0
    requires normal < 32 && v.p == Pow(2, normal) && Head(v) == c * BASE + c2 && BASE <= 2 * c
    requires rem != b && rem != partial && b != partial && rem.digits != b.digits
    requires rem.digits != partial.digits && b.digits != partial.digits && partial.digits.Length > b.length
    requires Held(rem, T, k + v.n + 1) && State(v, T, rem.length, k)
    modifies rem`length, rem.digits, partial`length, partial.digits
    ensures rem.Valid() && lost == Next(v, T, old(rem.length), k).None?
    ensures if lost then d == T / At(v, k) + 1
            else
              && d == T / At(v, k) && Held(rem, T % At(v, k), k + v.n)
              && rem.length == Next(v, T, old(rem.length), k).value
  {
    hide Estimate, Val, W, NumDigits, At, IsDivisor, Pow, Fitting;
    lost := false;
    var index := k + b.length;
    var e1, e2 := rem.digits[index], rem.digits[index - 1];
    var e3: digit, e4: digit := 0, 0;
    if index > 1 {
      e3 := rem.digits[index - 2];
      if index > 2 { e4 := rem.digits[index - 3]; }
    }
    ghost var s := rem.digits[..index + 1];
    ShiftOf(normal);
    CutDigits(s, v.p, Pow(2, 32 - normal), Four(e1, e2, e3, e4));
    LeadingBound(v, T, k);
    Divided(c, c2, BASE);
    hide Four, Cut, Shifted;
    var first;
    first, d := GuessDigit(e1, e2, e3, e4, normal, c, c2);
    assert d == Estimate(v, T, k) by { EstimateFits(v, T, k); }
    if first != 0 {
      d, lost := SubtractProduct(rem, b, partial, k, d, v, T, Pow(2, 32 - normal));
    } else {
      NotGuessed(v, T, k);
      Divided(0, T, At(v, k));
      UnchangedState(v, T, rem.length, k);
      TrimmedLength(rem, T, k + v.n + 1);
    }
  }

  lemma EstimateFits(v: Divisor, T: nat, k: nat)
    requires Head(v) > 0
    ensures Estimate(v, T, k) == Fitting(Cut(T, v.p, k + v.n), Head(v))
  {
  }

  lemma UnchangedState(v: Divisor, T: nat, len: nat, k: nat)
    requires IsDivisor(v) && v.b > 0 && Head(v) > 0 && State(v, T, len, k) && !Guessed(v, T, k)
    ensures len <= k + v.n && Next(v, T, len, k) == Some(len)
  {
    StateNext(v, T, len, k);
  }

  // ----- the whole division -----

  /** The digits of the quotient from `k` on and the remainder make up the dividend. */
  ghost predicate Divides(a: nat, q: nat, v: Divisor, T: nat, k: nat)
    requires v.b > 0
  {
    a == q * At(v, k) + T
  }

  lemma DividesAtFirst(a: nat, v: Divisor, k: nat)
    requires v.b > 0
    ensures Divides(a, 0, v, a, k)
  {
  }

  lemma NextDigit(a: nat, q: nat, v: Divisor, T: nat, k: nat)
    requires v.b > 0 && Divides(a, q, v, T, k + 1)
    ensures Divides(a, T / At(v, k) + BASE * q, v, T % At(v, k), k)
    ensures (T / At(v, k) + 1 + BASE * q) * At(v, k) > a
  {
    var D := At(v, k);
    WNext(k);
    Assoc(v.b, BASE, W(k));
    Commute(v.b, BASE);
    Assoc(BASE, v.b, W(k));
    assert At(v, k + 1) == BASE * D;
    assert T == D * (T / D) + T % D;
    Commute(D, T / D);
    Assoc(q, BASE, D);
    Commute(q, BASE);
    Distribute(T / D, BASE * q, D);
    Distribute(T / D + 1, BASE * q, D);
    Distribute(T / D, 1, D);
  }

  /** Whatever digits follow below `k`, a quotient with the digits `top` from there on is too large. */
  ghost predicate NeverRight(a: nat, b: nat, top: nat, k: nat)
    requires b > 0
  {
    forall q: nat :: q / W(k) == top ==> q > a / b
  }

  lemma AllTooLarge(a: nat, b: nat, v: Divisor, top: nat, k: nat)
    requires v.b == b > 0 && top * At(v, k) > a
    ensures NeverRight(a, b, top, k)
  {
    forall q: nat | q / W(k) == top ensures q > a / b { NoRecovery(a, b, v, top, k, q); }
  }

  /** Whatever digits follow below `k`, a quotient whose digits from `k` on are too large is wrong. */
  lemma NoRecovery(a: nat, b: nat, v: Divisor, top: nat, k: nat, q: nat)
    requires v.b == b > 0 && top * At(v, k) > a && q / W(k) == top
    ensures q > a / b
  {
    assert q == W(k) * top + q % W(k);
    Commute(W(k), top);
    MulLe(top * W(k), q, b);
    Swap(top, W(k), b);
    Assoc(top, b, W(k));
    assert q * b > a;
    var x := a / b;
    assert a == b * x + a % b;
    Commute(b, x);
    if q <= x { MulLe(q, x, b); }
  }

  /** The shifted leading digits of the divisor. */
  method DivisorDigits(b: Natural, normal: nat, ghost v: Divisor) returns (c: digit, c2: digit)
    requires b.Trimmed() && b.length >= 1 && normal < 32 && v == Divisor(b.Value(), b.length, Pow(2, normal))
    requires b.digits[b.length - 1] * Pow(2, normal) < BASE
    ensures Head(v) == c * BASE + c2
  {
    var p, h := Pow(2, normal), Pow(2, 32 - normal);
    var n := b.length;
    var d1: digit, d2: digit, d3: digit := b.digits[n - 1], 0, 0;
    if n > 1 {
      d2 := b.digits[n - 2];
      if n > 2 { d3 := b.digits[n - 3]; }
    }
    ghost var s := b.digits[..n];
    ShiftOf(normal);
    HeadDigits(s, p, h, (d1 * BASE + d2) * BASE + d3);
    ShiftTwo(d1, d2, d3, p, h);
    ShiftDigit(d2, d3, p, h);
    ShiftDigit(d3, 0, p, h);
    ShiftDigit(d1, d2, p, h);
    hide Val, W, Cut, Shifted, Shift, Pow;
    assert Head(v) == (d1 * p + d2 / h) * BASE + Low(d2, d3, p, h);
    NoSpill(d1, p, h, d2);
    if normal > 0 {
      c := (d1 * p) % BASE + d2 / h;
      c2 := (d2 * p) % BASE + d3 / h;
    } else {
      assert p == 1 && h == BASE by { Powers(); assert Pow(2, 0) == 1; }
      c, c2 := d1, d2;
    }
  }

  /** Bits shifted in from the next digit do not spill over. */
  lemma NoSpill(x: digit, p: nat, h: nat, y: digit)
    requires Shift(p, h) && x * p < BASE && y / h < p
    ensures x * p + y / h < BASE
  {
    if x >= h { MulLe(h, x, p); Commute(p, h); }
    MulLe(x + 1, h, p);
    Distribute(x, 1, p);
    Commute(p, h);
  }

  /** The divisor `b` with its shift. */
  ghost function DivisorOf(b: Natural): Divisor
    requires b.Trimmed() && b.length >= 1
    reads b, b.digits
  {
    Divisor(b.Value(), b.length, Scale(b.digits[b.length - 1]))
  }

  lemma DivisorFits(b: Natural)
    requires b.Trimmed() && b.length >= 1
    ensures IsDivisor(DivisorOf(b)) && b.Value() > 0
  {
    var n := b.length - 1;
    var s, d, p := b.digits[..b.length], b.digits[b.length - 1], Scale(b.digits[b.length - 1]);
    assert s == s[..n] + [d];
    ValSnoc(s[..n], d);
    ValBound(s[..n]);
    ValBound(s);
    ValPositive(s);
    WNext(n);
    var e := ScalePower(d);
    ShiftOf(e);
    ScaleRoom(d, p, Pow(2, 32 - e));
    ScaledBounds(Val(s), W(n), d, p, Val(s[..n]));
    Assoc1(Val(s), p);
  }

  lemma ScaledBounds(b: nat, w: nat, d: digit, p: nat, low: nat)
    requires b == low + w * d && low < w && p >= 1 && BASE <= 2 * (d * p) && d * p + p <= BASE
    ensures BASE * w <= 2 * (b * p) && b * p < BASE * w
  {
    Distribute(low, w * d, p);
    Assoc(w, d, p);
    MulLe(BASE, 2 * (d * p), w);
    MulLe(0, low, p);
    // low * p + w * (d * p) < w * (d * p + p) <= w * BASE
    MulLe(d * p + p, BASE, w);
    MulLt(low, w, p);
    Distribute(d * p, p, w);
  }

  /** The bits below those of the top digit have room. */
  lemma ScaleRoom(d: digit, p: nat, h: nat)
    requires Shift(p, h) && d * p < BASE
    ensures d * p + p <= BASE
  {
    if d >= h { MulLe(h, d, p); Commute(p, h); }
    MulLe(d + 1, h, p);
    Distribute(d, 1, p);
    Commute(p, h);
  }

  lemma {:induction false} ScalePower(d: nat) returns (n: nat)
    requires 0 < d < BASE
    ensures Scale(d) == Pow(2, n) && n < 32
    decreases BASE - d
  {
    if 2 * d >= BASE {
      n := 0;
    } else {
      var m := ScalePower(2 * d);
      n := m + 1;
    }
    Powers();
    MulLe(1, d, Pow(2, n));
    if n >= 32 { PowMonotone(2, 32, n); }
  }

  /** Copy the digits of `a`; one more digit is zero. */
  method NaturalCopy(a: Natural) returns (rem: Natural)
    requires a.Valid()
    ensures fresh(rem) && fresh(rem.digits) && rem.Valid() && rem.digits.Length == a.length + 1 &&
      rem.length == a.length
    ensures rem.digits[..a.length] == a.digits[..a.length] && rem.digits[a.length] == 0
  {
    rem := new Natural(a.length + 1);
    var i := 0;
    while i < a.length
      invariant i <= a.length && rem.digits.Length == a.length + 1 && rem.length == a.length + 1
      invariant rem.digits[..i] == a.digits[..i]
      invariant fresh(rem) && fresh(rem.digits)
    {
      rem.digits[i] := a.digits[i];
      i := i + 1;
    }
    rem.length := a.length;
    rem.digits[a.length] := 0;
    assert rem.digits[..a.length] == a.digits[..a.length];
  }

  /** One step of the division, with its digit stored in the quotient. */
  method QuotientDigit(quo: Natural, rem: Natural, b: Natural, partial: Natural, k: nat, normal: nat, c: digit,
      c2: digit,
                       ghost v: Divisor, ghost T: nat, ghost a: nat)
    returns (lost: bool)
    requires b.Trimmed() && v.n == b.length >= 1 && v.b == b.Value() && IsDivisor(v) && v.b > 0
    requires normal < 32 && v.p == Pow(2, normal) && Head(v) == c * BASE + c2 && BASE <= 2 * c
    requires rem != b && rem != partial && b != partial && rem.digits != b.digits
    requires rem.digits != partial.digits && b.digits != partial.digits && partial.digits.Length > b.length
    requires quo.digits != rem.digits && quo.digits != b.digits && quo.digits != partial.digits
    requires k < quo.digits.Length && Divides(a, Val(quo.digits[k + 1..]), v, T, k + 1)
    requires Held(rem, T, k + v.n + 1) && State(v, T, rem.length, k)
    modifies rem`length, rem.digits, partial`length, partial.digits, quo.digits
    ensures rem.Valid() && lost == Next(v, T, old(rem.length), k).None?
    ensures lost ==> Val(quo.digits[k..]) * At(v, k) > a
    ensures !lost ==>
      && Held(rem, T % At(v, k), k + v.n) && State(v, T % At(v, k), rem.length, k - 1)
      && rem.length == Next(v, T, old(rem.length), k).value
      && Divides(a, Val(quo.digits[k..]), v, T % At(v, k), k)
  {
    hide IsDivisor, Pow, Next, State, Held, Divides, Head;
    ghost var rest, len := quo.digits[k + 1..], rem.length;
    var d;
    d, lost := DivideStep(rem, b, partial, k, normal, c, c2, v, T);
    NextDigit(a, Val(rest), v, T, k);
    if !lost { StateNext(v, T, len, k); }
    quo.digits[k] := d;
    assert quo.digits[k..][1..] == rest;
  }

  /** Once all digits are found, the quotient is trimmed. */
  method FinishQuotient(quo: Natural, rem: Natural, ghost v: Divisor, ghost a: nat, ghost len: nat)
    requires quo != rem && quo.length == quo.digits.Length && rem.Valid()
    requires IsDivisor(v) && v.b > 0 && Head(v) > 0 && len >= v.n && State(v, a, len, len - v.n)
    requires NoneLost(v, a, len, len - v.n) && rem.length == FinalLength(v, a, len, len - v.n)
    requires a == Val(quo.digits[..]) * v.b + rem.Value() && rem.Value() < v.b
    modifies quo`length
    ensures quo.Trimmed() && a == quo.Value() * v.b + rem.Value()
    ensures rem.Trimmed() <==> !KeepsZero(v, a)
  {
    hide *;
    QuotientIs(a, Val(quo.digits[..]), v.b, rem.Value());
    KeptDigits(rem, v, a, len);
    TrimQuotient(quo);
  }

  /** How far the divisor has to be shifted, and its two leading digits when it is. */
  method NormalDigits(b: Natural, ghost v: Divisor) returns (normal: nat, c: digit, c2: digit)
    requires b.Trimmed() && b.length >= 1 && v == DivisorOf(b)
    ensures normal < 32 && v.p == Pow(2, normal) && Head(v) == c * BASE + c2 && BASE <= 2 * c && Head(v) > 0
  {
    hide Head, IsDivisor, NumDigits, Pow, Scale, W;
    DivisorFits(b);
    HeadBounds(v);
    hide Val;
    normal := Normalize(b.digits[b.length - 1]);
    c, c2 := DivisorDigits(b, normal, v);
    Divided(c, c2, BASE);
  }

  /**
   * Long division in place.  If no borrow is lost, quotient and remainder are exact; otherwise the division
   * stops at the first borrow lost, when the digits of the quotient found so far are already too large.
   */
  method DivideLong(a: Natural, b: Natural) returns (quo: Natural, rem: Natural, lost: bool)
    requires a.Trimmed() && b.Trimmed() && 1 <= b.length <= a.length && b.Value() <= a.Value()
    ensures fresh(quo) && fresh(rem) && quo.Valid() && rem.Valid()
    ensures b.Value() > 0 && Head(DivisorOf(b)) > 0
    ensures lost == !NoneLost(DivisorOf(b), a.Value(), a.length, a.length - b.length)
    ensures !lost ==> rem.length == FinalLength(DivisorOf(b), a.Value(), a.length, a.length - b.length)
    ensures !lost ==> (rem.Trimmed() <==> !KeepsZero(DivisorOf(b), a.Value()))
    ensures !lost ==> quo.Trimmed() && a.Value() == quo.Value() * b.Value() + rem.Value() && rem.Value() < b.Value()
    ensures lost ==> exists k :: 0 <= k < quo.length && NeverRight(a.Value(), b.Value(), Val(quo.digits[k..]), k)
  {
    hide At, Cut, Divides, Head, IsDivisor, Next, NoneLost, NumDigits, Pow, Scale, W, KeepsZero, FinalLength,
      NeverRight, State, Val, Held;
    ghost var v, av := DivisorOf(b), a.Value();
    DivisorFits(b);
    var normal, c, c2 := NormalDigits(b, v);
    var n := b.length;
    quo := new Natural(a.length - n + 1);
    var partial := new Natural(n + 1);
    rem := NaturalCopy(a);
    StartState(a, rem, v);
    DividesAtFirst(av, v, a.length - n + 1);
    lost := QuotientDigits(quo, rem, b, partial, a.length, normal, c, c2, v, av);
    if !lost {
      FinishQuotient(quo, rem, v, av, a.length);
    }
    assert DivisorOf(b) == v && b.Value() == v.b && a.Value() == av;
  }

  /** Leave out leading zeros of a quotient that fills its array. */
  method TrimQuotient(quo: Natural)
    requires quo.length == quo.digits.Length
    modifies quo`length
    ensures quo.Trimmed() && quo.Value() == Val(quo.digits[..])
  {
    quo.Trim();
    ValPad(quo.digits[..], quo.length);
    assert quo.digits[..][..quo.length] == quo.digits[..quo.length];
  }

  /** Whether the remainder is trimmed, told from its length. */
  lemma KeptDigits(rem: Natural, v: Divisor, a: nat, len: nat)
    requires rem.Valid() && IsDivisor(v) && v.b > 0 && Head(v) > 0 && len >= v.n && State(v, a, len, len - v.n)
    requires NoneLost(v, a, len, len - v.n) && rem.length == FinalLength(v, a, len, len - v.n)
    requires rem.Value() == a % v.b
    ensures rem.Trimmed() <==> !KeepsZero(v, a)
  {
    Divided(0, a, At(v, len - v.n + 1));
    FinalTrimmed(v, a, a, len, len - v.n);
    TrimmedOrShort(rem);
  }

  lemma TrimmedOrShort(r: Natural)
    requires r.Valid()
    ensures r.Trimmed() <==> r.length == NumDigits(r.Value())
  {
    var s := r.digits[..r.length];
    if r.Trimmed() {
      ValDigits(s);
    } else {
      Snoc(r.digits[..], 0, r.length - 1);
      assert r.digits[..][0..r.length] == s && r.digits[..][0..r.length - 1] == r.digits[..r.length - 1];
      ValBound(r.digits[..r.length - 1]);
      DigitsBelow(Val(s), r.length - 1);
    }
  }

  lemma QuotientIs(a: nat, q: nat, b: nat, r: nat)
    requires b > 0 && a == q * b + r && r < b
    ensures a % b == r
  {
    Commute(q, b);
    Divided(q, r, b);
  }

  /** The digits of the quotient, from the top; those not reached because nothing remains are zero. */
  method QuotientDigits(quo: Natural, rem: Natural, b: Natural, partial: Natural, top: nat, normal: nat, c: digit,
      c2: digit, ghost v: Divisor, ghost a: nat)
    returns (lost: bool)
    requires b.Trimmed() && v.n == b.length >= 1 && v.b == b.Value() && IsDivisor(v) && v.b > 0
    requires normal < 32 && v.p == Pow(2, normal) && Head(v) == c * BASE + c2 && BASE <= 2 * c && Head(v) > 0
    requires rem != b && rem != partial && b != partial && rem.digits != b.digits
    requires rem.digits != partial.digits && b.digits != partial.digits && partial.digits.Length > b.length
    requires quo.digits != rem.digits && quo.digits != b.digits && quo.digits != partial.digits
    requires top >= v.n && quo.digits.Length == top - v.n + 1 && Divides(a, 0, v, a, top - v.n + 1)
    requires Held(rem, a, top + 1) && State(v, a, rem.length, top - v.n)
    modifies rem`length, rem.digits, partial`length, partial.digits, quo.digits
    ensures rem.Valid() && lost == !NoneLost(v, a, old(rem.length), top - v.n)
    ensures lost ==> exists k :: 0 <= k < quo.digits.Length && NeverRight(a, v.b, Val(quo.digits[k..]), k)
    ensures !lost ==> a == Val(quo.digits[..]) * v.b + rem.Value() && rem.Value() < v.b
    ensures !lost ==> NoneLost(v, a, old(rem.length), top - v.n)
    ensures !lost ==> rem.length == FinalLength(v, a, old(rem.length), top - v.n)
  {
    hide IsDivisor, Pow, Val, W, NumDigits, Next, Head, State, Divides, NoneLost, At, FinalLength;
    var n := b.length;
    lost := false;
    var index: nat := top;
    ghost var T: nat := a;
    assert Val(quo.digits[top - n + 1..]) == 0 by { ValZeros(quo.digits[top - n + 1..]); }
    while rem.length > 0 && index >= n
      invariant n - 1 <= index <= top && !lost
      invariant Held(rem, T, index + 1) && State(v, T, rem.length, index - n)
      invariant NoneLost(v, a, old(rem.length), top - n) == NoneLost(v, T, rem.length, index - n)
      invariant NoneLost(v, a, old(rem.length), top - n) ==>
        FinalLength(v, a, old(rem.length), top - n) == FinalLength(v, T, rem.length, index - n)
      invariant Divides(a, Val(quo.digits[index - n + 1..]), v, T, index - n + 1)
      invariant b.digits[..] == old(b.digits[..])
      decreases index
    {
      NoneLostStep(v, T, rem.length, index - n);
      lost := QuotientDigit(quo, rem, b, partial, index - n, normal, c, c2, v, T, a);
      if lost {
        AllTooLarge(a, v.b, v, Val(quo.digits[index - n..]), index - n);
        return;
      }
      T := T % At(v, index - n);
      index := index - 1;
    }
    ghost var k := index - n + 1;
    Ending(rem, v, T, index - n);
    ghost var found := quo.digits[k..];
    ZeroDigits(quo, index - n + 1);
    assert quo.digits[..][k..] == found;
    assert rem.digits[..rem.length] == rem.digits[..][..rem.length];
    Quotient(quo.digits[..], k, a, v, T);
  }

  lemma NoneLostStep(v: Divisor, T: nat, len: nat, k: nat)
    requires v.b > 0 && Head(v) > 0
    ensures
      var next := Next(v, T, len, k);
      NoneLost(v, T, len, k) == (next.Some? && NoneLost(v, T % At(v, k), next.value, k - 1))
    ensures NoneLost(v, T, len, k) ==>
      FinalLength(v, T, len, k) == FinalLength(v, T % At(v, k), Next(v, T, len, k).value, k - 1)
  {
  }

  /** All digits of the quotient are found, or nothing remains to be divided. */
  lemma Ending(rem: Natural, v: Divisor, T: nat, k: int)
    requires IsDivisor(v) && v.b > 0 && Head(v) > 0 && k >= -1 && Held(rem, T, k + v.n + 1) &&
      State(v, T, rem.length, k)
    requires rem.length == 0 || k == -1
    ensures NoneLost(v, T, rem.length, k) && T < At(v, k + 1) && (k == -1 || T == 0)
    ensures rem.Valid() && rem.Value() == T && FinalLength(v, T, rem.length, k) == rem.length
  {
    TrimmedLength(rem, T, k + v.n + 1);
    if k >= 0 { NothingKept(v, k); }
  }

  /** The digits of the quotient that were not reached are zero. */
  method ZeroDigits(quo: Natural, count: nat)
    requires count <= quo.digits.Length
    modifies quo.digits
    ensures forall j :: 0 <= j < quo.digits.Length ==> quo.digits[j] == if j < count then 0 else old(quo.digits[j])
  {
    var offset := count;
    while offset > 0
      invariant offset <= count
      invariant forall j :: 0 <= j < quo.digits.Length ==>
        quo.digits[j] == if offset <= j < count then 0 else old(quo.digits[j])
    {
      offset := offset - 1;
      quo.digits[offset] := 0;
    }
  }

  lemma Quotient(s: seq<digit>, k: nat, a: nat, v: Divisor, T: nat)
    requires v.b > 0 && k <= |s| && (forall j :: 0 <= j < k ==> s[j] == 0)
    requires Divides(a, Val(s[k..]), v, T, k) && T < At(v, k) && (k == 0 || T == 0)
    ensures a == Val(s) * v.b + T && T < v.b
  {
    ValSplit(s, k);
    ValZeros(s[..k]);
    Commute(W(k), Val(s[k..]));
    Assoc(Val(s[k..]), W(k), v.b);
    Commute(W(k), v.b);
    assert W(0) == 1;
  }

  /** The dividend, copied, as the remainder in front of the first step. */
  lemma StartState(a: Natural, rem: Natural, v: Divisor)
    requires a.Trimmed() && IsDivisor(v) && v.b > 0 && v.n <= a.length
    requires rem.Valid() && rem.digits.Length == a.length + 1 && rem.length == a.length
    requires rem.digits[..a.length] == a.digits[..a.length] && rem.digits[a.length] == 0
    ensures Held(rem, a.Value(), a.length + 1) && State(v, a.Value(), rem.length, a.length - v.n)
  {
    var s, k := a.digits[..a.length], a.length - v.n;
    assert rem.digits[..a.length + 1] == s + [0];
    ValSnoc(s, 0);
    ValDigits(s);
    ValBound(s);
    PowAdd(BASE, v.n - 1, k + 1);
    MulLe(W(v.n - 1), v.b, W(k + 1));
  }

  // ----- all cases -----

  /** The divisor of value `b` with its shift. */
  function DivisorFor(b: nat): Divisor
    requires b > 0
  {
    var n := NumDigits(b);
    TopDigit(b);
    Divisor(b, n, Scale(b / W(n - 1)))
  }

  lemma TopDigit(b: nat)
    requires b > 0
    ensures NumDigits(b) >= 1 && 0 < b / W(NumDigits(b) - 1) < BASE
  {
    var n := NumDigits(b) - 1;
    DigitsBelow(b, n);
    DigitsBelow(b, n + 1);
    WNext(n);
    var q := b / W(n);
    assert b == W(n) * q + b % W(n);
    if q >= BASE { MulLe(BASE, q, W(n)); Commute(W(n), q); }
  }

  lemma DivisorForIs(b: Natural)
    requires b.Trimmed() && b.length >= 1
    ensures b.Value() > 0 && DivisorFor(b.Value()) == DivisorOf(b)
  {
    var s, n := b.digits[..b.length], b.length - 1;
    DivisorFits(b);
    ValDigits(s);
    ValDiv(s, n);
    assert s[n..] == [s[n]];
    ValOne(s[n]);
  }

  /** Dividing `a` by `b` goes through long division without losing a borrow, or does not need it. */
  ghost predicate Divisible(a: nat, b: nat)
    requires b > 0
  {
    a < b || (exists e: nat :: b == Pow(2, e)) ||
    (Head(DivisorFor(b)) > 0 && NoneLost(DivisorFor(b), a, NumDigits(a), NumDigits(a) - NumDigits(b)))
  }

  /** The operands go through long division. */
  ghost predicate Long(a: nat, b: nat) {
    a >= b && forall e: nat :: b != Pow(2, e)
  }

  /** The remainder is left with a zero digit at its top. */
  ghost predicate NotTrimmed(a: nat, b: nat)
    requires b > 0
  {
    Long(a, b) && Head(DivisorFor(b)) > 0 && KeepsZero(DivisorFor(b), a)
  }

  /**
   * Division with remainder.  It is exact precisely if no borrow is lost, which can be told from the operands;
   * otherwise the quotient would be too large.
   */
  method NaturalDivide(a: Natural, b: Natural) returns (quo: Natural, rem: Natural, lost: bool)
    requires a.Trimmed() && b.Trimmed() && b.length > 0
    ensures b.Value() > 0 && quo.Valid() && rem.Valid()
    ensures !lost <==> Divisible(a.Value(), b.Value())
    ensures !lost ==> quo.Trimmed() && a.Value() == quo.Value() * b.Value() + rem.Value() && rem.Value() < b.Value()
    ensures !lost ==> (rem.Trimmed() <==> !NotTrimmed(a.Value(), b.Value()))
    ensures lost ==> exists k :: 0 <= k < quo.length && NeverRight(a.Value(), b.Value(), Val(quo.digits[k..]), k)
  {
    hide At, Divisible, FinalLength, Head, KeepsZero, NeverRight, NoneLost, NotTrimmed, Pow, Scale, W;
    DivisorForIs(b);
    ValDigits(a.digits[..a.length]);
    ValDigits(b.digits[..b.length]);
    hide DivisorFor, NumDigits, Val;
    lost := false;
    var less := NaturalLess(a, b);
    if less {
      quo, rem := DivideNone(a, b);
      return;
    }
    var shift := NaturalPowerOfTwo(b);
    if shift >= 0 {
      quo, rem := DividePower(a, b, shift);
    } else {
      assert a.length >= b.length by { DigitsMonotone(b.Value(), a.Value()); }
      LongDivisible(a.Value(), b.Value());
      quo, rem, lost := DivideLong(a, b);
    }
  }

  /** Dividing by a larger number. */
  method DivideNone(a: Natural, b: Natural) returns (quo: Natural, rem: Natural)
    requires a.Trimmed() && b.Trimmed() && a.Value() < b.Value()
    ensures quo.Trimmed() && rem.Trimmed() && quo.Value() == 0 && rem == a
    ensures a.Value() == quo.Value() * b.Value() + rem.Value()
    ensures Divisible(a.Value(), b.Value()) && !NotTrimmed(a.Value(), b.Value())
  {
    quo := new Natural(0);
    rem := a;
    SmallDivisible(a.Value(), b.Value());
    assert quo.digits[..0] == [];
    ValZeros([]);
  }

  /** Dividing by a power of two, and by one in particular. */
  method DividePower(a: Natural, b: Natural, shift: nat) returns (quo: Natural, rem: Natural)
    requires a.Trimmed() && b.Trimmed() && b.Value() == Pow(2, shift)
    ensures quo.Trimmed() && rem.Trimmed() && b.Value() > 0
    ensures a.Value() == quo.Value() * b.Value() + rem.Value() && rem.Value() < b.Value()
    ensures Divisible(a.Value(), b.Value()) && !NotTrimmed(a.Value(), b.Value())
  {
    PowerDivisible(a.Value(), b.Value(), shift);
    hide Divisible, NotTrimmed, Pow, Val;
    if b.length == 1 && b.digits[0] == 1 {
      quo := a;
      rem := new Natural(0);
      assert rem.digits[..0] == [] && b.digits[..1] == [1];
      ValZeros([]);
      ValOne(1);
    } else {
      quo := NaturalRsl(a, shift);
      rem := NaturalMask(a, shift);
      Remainder(a.Value(), b.Value());
    }
  }

  lemma SmallDivisible(a: nat, b: nat)
    requires 0 < b && a < b
    ensures Divisible(a, b) && !NotTrimmed(a, b)
  {
  }

  lemma PowerDivisible(a: nat, b: nat, e: nat)
    requires b > 0 && b == Pow(2, e)
    ensures Divisible(a, b) && !NotTrimmed(a, b)
  {
  }

  lemma LongDivisible(a: nat, b: nat)
    requires b > 0 && a >= b && forall e: nat :: b != Pow(2, e)
    ensures Head(DivisorFor(b)) > 0 ==>
      && (Divisible(a, b) <==> NoneLost(DivisorFor(b), a, NumDigits(a), NumDigits(a) - NumDigits(b)))
      && (NotTrimmed(a, b) <==> KeepsZero(DivisorFor(b), a))
  {
  }

  lemma Remainder(a: nat, b: nat)
    requires b > 0
    ensures a == (a / b) * b + a % b && a % b < b
  {
    Commute(a / b, b);
  }

  /** Division is exact if the divisor has at most two digits, or its top bit is set. */
  lemma ExactWhen(a: nat, b: nat)
    requires b > 0 && (NumDigits(b) <= 2 || W(NumDigits(b)) <= 2 * b)
    ensures Divisible(a, b)
  {
    if a >= b {
      var v := DivisorFor(b);
      DivisorForFits(b);
      HeadBounds(v);
      var k := NumDigits(a) - v.n;
      DigitsMonotone(b, a);
      StartBelow(v, a, k);
      if NumDigits(b) <= 2 {
        ShortDivisor(v, a, NumDigits(a), k);
      } else {
        HalfScale(b);
        TopBitSet(v, a, k);
      }
    }
  }

  lemma HalfScale(b: nat)
    requires b > 0 && W(NumDigits(b)) <= 2 * b
    ensures DivisorFor(b).p == 1
  {
    var n := NumDigits(b) - 1;
    TopDigit(b);
    WNext(n);
    var d := b / W(n);
    assert b == W(n) * d + b % W(n);
    if 2 * d < BASE {
      MulLe(2 * d + 2, BASE, W(n));
      Distribute(2 * d, 2, W(n));
      Assoc(2, d, W(n));
      Commute(d, W(n));
    }
  }

  lemma StartBelow(v: Divisor, a: nat, k: nat)
    requires IsDivisor(v) && v.b > 0 && k + v.n == NumDigits(a)
    ensures a < At(v, k + 1)
  {
    DigitsBelow(a, NumDigits(a));
    PowAdd(BASE, v.n - 1, k + 1);
    MulLe(W(v.n - 1), v.b, W(k + 1));
  }

  lemma DivisorForFits(b: nat)
    requires b > 0
    ensures IsDivisor(DivisorFor(b))
  {
    var n := NumDigits(b) - 1;
    TopDigit(b);
    DigitsBelow(b, n);
    DigitsBelow(b, n + 1);
    WNext(n);
    var w := W(n);
    QuotientAndRest(b, w);
    TopFits(b, n, w, b / w, b % w);
  }

  lemma TopFits(b: nat, n: nat, w: nat, d: digit, low: nat)
    requires 0 < d && w > 0 && w == W(n) && W(n + 1) == BASE * w && w <= b < BASE * w && b == w * d + low && low < w
    ensures IsDivisor(Divisor(b, n + 1, Scale(d)))
  {
    var p := Scale(d);
    var e := ScalePower(d);
    ShiftOf(e);
    ScaleRoom(d, p, Pow(2, 32 - e));
    hide Scale, Pow, W, Shift;
    ScaledBounds(b, w, d, p, low);
    Assoc1(b, p);
  }

  /** Dividing 2^96 - 1 by 0xaaaaaaaaaaaaaaaaf000 loses a borrow. */
  lemma NotDivisible()
    ensures !Divisible(Ones, Unlucky.b)
  {
    Weights();
    assert Pow(2, 12) == 4096 by {
      assert Pow(2, 4) == 16;
      PowAdd(2, 4, 4);
      PowAdd(2, 8, 4);
    }
    OddFactor(Unlucky.b, 4096, Unlucky.b / 4096, 12);
    DigitsBelow(Unlucky.b, 2); DigitsBelow(Unlucky.b, 3);
    DigitsBelow(Ones, 2); DigitsBelow(Ones, 3);
    UnluckyScale();
    OneBorrowLost();
    hide NumDigits, Scale, Pow, W, At, Head;
    assert DivisorFor(Unlucky.b) == Unlucky;
    NoneLostStep(Unlucky, Ones, 3, 0);
  }

  /** Dividing 5 * 2^64 + 2 by 2^64 + 1 leaves a remainder with a zero digit at its top. */
  lemma LeavesZero()
    ensures Divisible(FiveUp, Untrimmed.b) && NotTrimmed(FiveUp, Untrimmed.b)
  {
    Weights();
    OddFactor(Untrimmed.b, 1, Untrimmed.b, 0);
    DigitsBelow(Untrimmed.b, 2); DigitsBelow(Untrimmed.b, 3);
    DigitsBelow(FiveUp, 2); DigitsBelow(FiveUp, 3);
    OneScale();
    RemainderNotTrimmed();
    hide NumDigits, Scale, Pow, W, At, Head, NoneLost, KeepsZero;
    assert DivisorFor(Untrimmed.b) == Untrimmed;
  }

  lemma OneScale()
    ensures Scale(1) == 0x8000_0000 && Pow(2, 0) == 1
  {
    var e := ScalePower(1);
    Powers();
    assert Pow(2, 31) == 2 * Pow(2, 30);
    if e < 31 { PowMonotone(2, e, 30); }
    assert Pow(2, 0) == 1;
  }

  lemma UnluckyScale()
    ensures Scale(0xAAAA) == 0x1_0000
  {
    var e := ScalePower(0xAAAA);
    assert Pow(2, 15) == 0x8000 && Pow(2, 16) == 0x1_0000 && Pow(2, 17) == 0x2_0000 by {
      assert Pow(2, 5) == 32;
      PowAdd(2, 5, 5);
      PowAdd(2, 10, 5);
      assert Pow(2, 17) == 2 * Pow(2, 16) == 4 * Pow(2, 15);
    }
    if e <= 15 { PowMonotone(2, e, 15); }
    if e >= 17 { PowMonotone(2, 17, e); }
  }
}
