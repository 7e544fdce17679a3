/** Numbers as digit sequences, least significant digit first. */
module Digits {
  import opened Arithmetic

  const BASE: nat := 0x1_0000_0000

  type digit = x: nat | x < BASE

  function Pow(b: nat, e: nat): (r: nat)
    ensures b > 0 ==> r > 0
  {
    if e == 0 then 1 else b * Pow(b, e - 1)
  }

  /** The weight of the digit at `e`. */
  function W(e: nat): (r: nat)
    ensures r > 0
  {
    Pow(BASE, e)
  }

  function Val(s: seq<digit>): nat {
    if s == [] then 0 else s[0] + BASE * Val(s[1..])
  }

  /** How many digits a number has. */
  function NumDigits(x: nat): nat {
    if x == 0 then 0 else 1 + NumDigits(x / BASE)
  }

  lemma {:induction false} PowAdd(b: nat, i: nat, j: nat)
    ensures Pow(b, i + j) == Pow(b, i) * Pow(b, j)
    decreases i
  {
    if i > 0 {
      PowAdd(b, i - 1, j);
      Assoc(b, Pow(b, i - 1), Pow(b, j));
    }
  }

  lemma WNext(e: nat)
    ensures W(e + 1) == BASE * W(e)
  {
  }

  lemma {:induction false} PowMonotone(b: nat, i: nat, j: nat)
    requires b > 0 && i <= j
    ensures Pow(b, i) <= Pow(b, j)
    decreases j
  {
    if i < j {
      PowMonotone(b, i, j - 1);
      MulLe(1, b, Pow(b, j - 1));
    }
  }

  lemma {:induction false} ValConcat(a: seq<digit>, b: seq<digit>)
    ensures Val(a + b) == Val(a) + W(|a|) * Val(b)
    decreases |a|
  {
    if a == [] {
      assert a + b == b;
    } else {
      assert (a + b)[1..] == a[1..] + b;
      ValConcat(a[1..], b);
      Assoc(BASE, W(|a| - 1), Val(b));
    }
  }

  lemma ValSplit(s: seq<digit>, i: nat)
    requires i <= |s|
    ensures Val(s) == Val(s[..i]) + W(i) * Val(s[i..])
  {
    assert s == s[..i] + s[i..];
    ValConcat(s[..i], s[i..]);
  }

  lemma {:induction false} ValBound(s: seq<digit>)
    ensures Val(s) < W(|s|)
  {
    if s != [] { ValBound(s[1..]); }
  }

  lemma ValHead(s: seq<digit>)
    requires s != []
    ensures Val(s) == s[0] + BASE * Val(s[1..])
  {
  }

  lemma ValOne(x: digit)
    ensures Val([x]) == x
  {
    assert [x][1..] == [];
  }

  lemma ValSnoc(s: seq<digit>, x: digit)
    ensures Val(s + [x]) == Val(s) + W(|s|) * x
  {
    ValConcat(s, [x]);
    ValOne(x);
  }

  lemma {:induction false} ValZeros(s: seq<digit>)
    requires forall i :: 0 <= i < |s| ==> s[i] == 0
    ensures Val(s) == 0
  {
    if s != [] { ValZeros(s[1..]); }
  }

  /** Leading zeros do not count. */
  lemma ValPad(s: seq<digit>, len: nat)
    requires len <= |s| && forall i :: len <= i < |s| ==> s[i] == 0
    ensures Val(s) == Val(s[..len])
  {
    ValSplit(s, len);
    ValZeros(s[len..]);
  }

  lemma {:induction false} ValDigits(s: seq<digit>)
    requires s != [] ==> s[|s| - 1] != 0
    ensures NumDigits(Val(s)) == |s|
  {
    if s != [] {
      ValDigits(s[1..]);
      DivMod(Val(s[1..]), s[0]);
      if |s| > 1 { ValPositive(s); } else { ValOne(s[0]); assert s == [s[0]]; }
    }
  }

  lemma ValPositive(s: seq<digit>)
    requires s != [] && s[|s| - 1] != 0
    ensures Val(s) >= W(|s| - 1)
  {
    var n := |s| - 1;
    assert s == s[..n] + [s[n]];
    ValSnoc(s[..n], s[n]);
    MulLe(1, s[n], W(n));
  }

  lemma DivMod(q: nat, r: digit)
    ensures (r + BASE * q) / BASE == q && (r + BASE * q) % BASE == r
  {
  }

  /** A number has at most `n` digits exactly if it is below the weight of the digit at `n`. */
  lemma {:induction false} DigitsBelow(x: nat, n: nat)
    ensures NumDigits(x) <= n <==> x < W(n)
    decreases n
  {
    if n > 0 && x > 0 {
      DigitsBelow(x / BASE, n - 1);
    }
  }

  lemma DigitsMonotone(x: nat, y: nat)
    requires x <= y
    ensures NumDigits(x) <= NumDigits(y)
  {
    DigitsBelow(y, NumDigits(y));
    DigitsBelow(x, NumDigits(y));
  }

  /** The quotient by the weight of a digit: the digits from there on. */
  lemma ValDiv(s: seq<digit>, i: nat)
    requires i <= |s|
    ensures Val(s) / W(i) == Val(s[i..]) && Val(s) % W(i) == Val(s[..i])
  {
    ValSplit(s, i);
    ValBound(s[..i]);
    Divided(Val(s[i..]), Val(s[..i]), W(i));
  }

  lemma Divided(q: nat, r: nat, w: nat)
    requires r < w
    ensures (r + w * q) / w == q && (r + w * q) % w == r
    ensures (w * q + r) / w == q
  {
    var x := r + w * q;
    Unique(x / w, x % w, q, r, w);
  }

  lemma Apart(q1: int, q2: int, w: int)
    requires q1 < q2 && 0 <= w
    ensures w * q1 + w <= w * q2
  {
    assert w * (q1 + 1) == w * q1 + w;
    var d := q2 - (q1 + 1);
    assert w * (q1 + 1) + w * d == w * q2;
  }

  /** Quotient and remainder are determined. */
  lemma Unique(q1: int, r1: int, q2: int, r2: int, w: int)
    requires 0 <= r1 < w && 0 <= r2 < w && w * q1 + r1 == w * q2 + r2
    ensures q1 == q2 && r1 == r2
  {
    if q1 < q2 {
      Apart(q1, q2, w);
    } else if q2 < q1 {
      Apart(q2, q1, w);
    }
  }
}
