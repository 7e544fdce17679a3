/** Leading digits read from arrays, shifted to use as many bits of the divisor as possible. */
module LeadingDigits {
  import opened Digits
  import opened Arithmetic

  /** A power of two and its cofactor: shifting left by one is shifting right by the other. */
  ghost predicate Shift(p: nat, h: nat) {
    p >= 1 && h >= 1 && p * h == BASE
  }

  function Low(x: nat, y: nat, p: nat, h: nat): nat
    requires h > 0
  {
    (x * p) % BASE + y / h
  }

  /** The bits that a shifted digit pushes out, and those that come in from the digit below. */
  lemma ShiftDigit(x: nat, y: digit, p: nat, h: nat)
    requires Shift(p, h)
    ensures (x * p + y / h) / BASE == x / h && (x * p + y / h) % BASE == Low(x, y, p, h)
    ensures y / h < p
  {
    assert y == h * (y / h) + y % h;
    if y / h >= p { MulLe(p, y / h, h); }
    var q, r := x / h, x % h;
    assert x == h * q + r;
    assert x * p == BASE * q + r * p by { Distribute(h * q, r, p); Shuffle(h, q, p); }
    MulLe(r, h - 1, p);
    Distribute(h, 1, p);
    Divided(q, r * p, BASE);
    Divided(q, r * p + y / h, BASE);
  }

  lemma Shuffle(h: int, q: int, p: int)
    ensures (h * q) * p == (p * h) * q
  {
  }

  /** A number shifted by `p`, without its last digit. */
  function Shifted(x: nat, p: nat): nat {
    x * p / BASE
  }

  function Four(e1: digit, e2: digit, e3: digit, e4: digit): nat {
    ((e1 * BASE + e2) * BASE + e3) * BASE + e4
  }

  /** Two digits of the shifted number, from three digits: `x` then `y` then `z`. */
  lemma ShiftTwo(x: nat, y: digit, z: digit, p: nat, h: nat)
    requires Shift(p, h)
    ensures Shifted((x * BASE + y) * BASE + z, p) == (x * p + y / h) * BASE + Low(y, z, p, h)
  {
    ShiftDigit(y, z, p, h);
    ShiftDigit(z, 0, p, h);
    Divided(0, 0, h);
    TopProduct(x, y, z, p);
    DivAdd(x * p * BASE + y * p, z * p);
    hide Shift, Low;
    LowerDigit(x * p, y * p + z / h);
  }

  lemma LowerDigit(x: nat, v: nat)
    ensures x * BASE + v == (x + v / BASE) * BASE + v % BASE
  {
  }

  lemma TopProduct(x: nat, y: nat, z: nat, p: nat)
    ensures ((x * BASE + y) * BASE + z) * p == BASE * (x * p * BASE + y * p) + z * p
  {
    Distribute((x * BASE + y) * BASE, z, p);
    Distribute(x * BASE, y, p);
    Regroup(x * BASE + y, p);
    Regroup(x, p);
  }

  lemma Regroup(x: int, p: int)
    ensures (x * BASE) * p == (x * p) * BASE
  {
  }

  lemma DivAdd(q: nat, r: nat)
    ensures (BASE * q + r) / BASE == q + r / BASE
  {
  }

  /** The top three digits of a number of at least three digits. */
  lemma TopThree(s: seq<digit>, i: nat)
    requires |s| == i + 1 && i >= 2
    ensures Val(s) == ((s[i] * BASE + s[i - 1]) * BASE + s[i - 2]) * W(i - 2) + Val(s[..i - 2])
    ensures Val(s[..i - 2]) < W(i - 2)
  {
    ValSplit(s, i - 2);
    var t := s[i - 2..];
    assert t == [s[i - 2], s[i - 1], s[i]];
    assert t[1..] == [s[i - 1], s[i]] && t[1..][1..] == [s[i]];
    ValOne(s[i]);
    ValBound(s[..i - 2]);
    Commute(Val(t), W(i - 2));
  }

  /** The top four digits of a number of at least four digits. */
  lemma TopFour(s: seq<digit>, i: nat)
    requires |s| == i + 1 && i >= 3
    ensures Val(s) == (((s[i] * BASE + s[i - 1]) * BASE + s[i - 2]) * BASE + s[i - 3]) * W(i - 3) + Val(s[..i - 3])
    ensures Val(s[..i - 3]) < W(i - 3)
  {
    ValSplit(s, i - 3);
    var t := s[i - 3..];
    assert t == [s[i - 3], s[i - 2], s[i - 1], s[i]];
    assert t[1..] == [s[i - 2], s[i - 1], s[i]] && t[1..][1..] == [s[i - 1], s[i]] && t[1..][1..][1..] == [s[i]];
    ValOne(s[i]);
    ValBound(s[..i - 3]);
    Commute(Val(t), W(i - 3));
  }

  /** Two more digits, both zero, to the right. */
  function Padded(s: seq<digit>): (r: seq<digit>)
    ensures |r| == |s| + 2
  {
    [0, 0] + s
  }

  lemma PaddedVal(s: seq<digit>)
    ensures Val(Padded(s)) == BASE * (BASE * Val(s))
  {
    assert Padded(s)[1..] == [0] + s && ([0] + s)[1..] == s;
  }

  /**
   * The leading digits `lead` of the shifted number are its quotient by the weight `m * BASE`:
   * what is cut off stays below.
   */
  lemma CutOff(x: nat, lead: nat, low: nat, m: nat, p: nat, h: nat)
    requires Shift(p, h) && low < m && x == lead * m + low
    ensures (lead * p / BASE) * (m * BASE) <= x * p < (lead * p / BASE + 1) * (m * BASE)
  {
    var t, r := lead * p / BASE, lead * p % BASE;
    assert lead * p == t * BASE + r;
    // the remainder is a multiple of p
    assert r + p <= BASE by {
      var q := lead / h;
      ShiftDigit(lead, 0, p, h);
      assert 0 / h == 0;
      var g := lead % h;
      assert lead == h * q + g;
      Distribute(h * q, g, p); Shuffle(h, q, p);
      MulLe(g + 1, h, p);
      Distribute(g, 1, p);
      Divided(q, g * p, BASE);
    }
    Distribute(lead * m, low, p);
    assert (lead * m) * p == (t * BASE + r) * m;
    Distribute(t * BASE, r, m);
    assert (t * BASE) * m == t * (m * BASE);
    assert x * p == t * (m * BASE) + (r * m + low * p);
    MulLe(r + p, BASE, m);
    Distribute(r, p, m);
    MulLt(low, m, p);
    Distribute(t, 1, m * BASE);
    Commute(p, m);
  }
}
