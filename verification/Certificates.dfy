/** Primes shown by a number whose powers run through all remainders. */
module Certificates {
  import opened Arithmetic
  import opened Digits
  import opened Primes

  lemma ModTimes(x: nat, y: nat, n: nat)
    requires n > 0
    ensures (x % n) * y % n == x * y % n
  {
    var q, r := x / n, x % n;
    assert x == n * q + r;
    Distribute(n * q, r, y);
    Swap(n, q, y);
    Assoc(n, y, q);
    var z := r * y;
    Commute(n, q * y + z / n);
    Distribute(q * y, z / n, n);
    Assoc(n, q, y);
    Commute(n, q * y);
    Commute(n, z / n);
    assert x * y == (q * y + z / n) * n + z % n;
    RestOf(x * y, q * y + z / n, z % n, n);
  }

  lemma ModBoth(x: nat, y: nat, n: nat)
    requires n > 0
    ensures (x % n) * (y % n) % n == x * y % n
  {
    ModTimes(x, y % n, n);
    Commute(x, y % n);
    ModTimes(y, x, n);
    Commute(x, y);
  }

  /** A power of a power that leaves one. */
  lemma {:induction false} PowerOfOne(a: nat, o: nat, k: nat, n: nat)
    requires n > 1 && Pow(a, o) % n == 1
    ensures Pow(a, o * k) % n == 1
    decreases k
  {
    if k == 0 {
      assert o * k == 0;
    } else {
      PowerOfOne(a, o, k - 1, n);
      OneMore(a, o, o * (k - 1), n);
      Distribute(k, 1, o);
    }
  }

  lemma OneMore(a: nat, o: nat, m: nat, n: nat)
    requires n > 1 && Pow(a, o) % n == 1 && Pow(a, m) % n == 1
    ensures Pow(a, o + m) % n == 1
  {
    PowAdd(a, o, m);
    hide Pow;
    OneTimes(Pow(a, o), Pow(a, m), n);
  }

  lemma OneTimes(x: nat, y: nat, n: nat)
    requires n > 1 && x % n == 1 && y % n == 1
    ensures x * y % n == 1
  {
    ModTimes(x, y, n);
  }

  /** The least positive exponent that leaves one. */
  lemma {:induction false} Order(a: nat, n: nat, e: nat) returns (o: nat)
    requires n > 1 && e > 0 && Pow(a, e) % n == 1
    ensures 0 < o <= e && Pow(a, o) % n == 1 && forall i :: 0 < i < o ==> Pow(a, i) % n != 1
    decreases e
  {
    if i :| 0 < i < e && Pow(a, i) % n == 1 {
      o := Order(a, n, i);
    } else {
      o := e;
    }
  }

  /** Every exponent that leaves one is a multiple of the least. */
  lemma OrderDivides(a: nat, n: nat, o: nat, e: nat)
    requires n > 1 && o > 0 && Pow(a, o) % n == 1 && Pow(a, e) % n == 1
    requires forall i :: 0 < i < o ==> Pow(a, i) % n != 1
    ensures e % o == 0
  {
    var k, r := e / o, e % o;
    assert e == o * k + r;
    MulLe(0, k, o);
    PowerOfOne(a, o, k, n);
    PowAdd(a, o * k, r);
    ModTimes(Pow(a, o * k), Pow(a, r), n);
  }

  function Product(qs: seq<nat>): nat {
    if qs == [] then 1 else qs[0] * Product(qs[1..])
  }

  lemma ProductOf(q: nat, r: nat, s: nat)
    ensures Product([q]) == q && Product([q, r]) == q * r && Product([q, r, s]) == q * r * s
  {
    assert [q][1..] == [] && [r][1..] == [] && [s][1..] == [];
    assert [q, r][1..] == [r] && [r, s][1..] == [s] && [q, r, s][1..] == [r, s];
    assert Product([s]) == s && Product([r]) == r;
    assert Product([r, s]) == r * s;
    Assoc(q, r, s);
  }

  /** A prime that divides a product divides one of its factors. */
  lemma PrimeFactor(q: nat, x: nat, y: nat)
    requires Prime(q) && Divides(q, x * y)
    ensures Divides(q, x) || Divides(q, y)
  {
    var a, b := x % q, y % q;
    ModBoth(x, y, q);
    if a > 0 && b > 0 { Euclid(q, a, b); }
  }

  /** Different primes that divide a number: so does their product. */
  lemma {:induction false} ProductDivides(qs: seq<nat>, o: nat)
    requires forall i :: 0 <= i < |qs| ==> Prime(qs[i]) && Divides(qs[i], o)
    requires forall i, j :: 0 <= i < j < |qs| ==> qs[i] != qs[j]
    ensures Product(qs) > 0 && Divides(Product(qs), o)
    decreases |qs|
  {
    if qs != [] {
      var q, rest := qs[0], qs[1..];
      var o1 := o / q;
      assert o == q * o1;
      forall i | 0 <= i < |rest| ensures Prime(rest[i]) && Divides(rest[i], o1) {
        assert rest[i] == qs[i + 1];
        PrimeFactor(rest[i], q, o1);
        if Divides(rest[i], q) { OtherPrime(rest[i], q); }
      }
      ProductDivides(rest, o1);
      hide Prime;
      FactorTwice(q, Product(rest), o1);
    }
  }

  lemma FactorTwice(q: nat, p: nat, o: nat)
    requires q > 0 && p > 0 && Divides(p, o)
    ensures q * p > 0 && Divides(q * p, q * o)
  {
    var k := o / p;
    assert o == p * k;
    Assoc(q, p, k);
    MulLt(0, q, p);
    Commute(q * p, k);
    Multiple(k, q * p);
  }

  lemma OtherPrime(r: nat, q: nat)
    requires Prime(r) && Prime(q) && r != q
    ensures !Divides(r, q)
  {
    if r > q { RestOf(q, 0, q, r); }
  }

  // ----- the order of a number and the modulus -----

  /** `o` is the least positive exponent that leaves one. */
  ghost predicate IsOrder(a: nat, n: nat, o: nat) {
    n > 1 && o > 0 && Pow(a, o) % n == 1 && forall i :: 0 < i < o ==> Pow(a, i) % n != 1
  }

  lemma Apart(a: nat, n: nat, o: nat, i: nat, j: nat)
    requires IsOrder(a, n, o) && i < j < o
    ensures Pow(a, i) % n != Pow(a, j) % n
  {
    var k := o - j;
    PowAdd(a, i, k);
    PowAdd(a, j, k);
    ModTimes(Pow(a, i), Pow(a, k), n);
    ModTimes(Pow(a, j), Pow(a, k), n);
    assert Pow(a, i + k) % n != 1;
  }

  lemma NotNothing(a: nat, n: nat, o: nat, i: nat)
    requires IsOrder(a, n, o) && i <= o
    ensures Pow(a, i) % n != 0
  {
    PowAdd(a, i, o - i);
    ModTimes(Pow(a, i), Pow(a, o - i), n);
  }

  ghost function Powers(a: nat, n: nat, m: nat): set<nat>
    requires n > 0
  {
    set i | 0 <= i < m :: Pow(a, i) % n
  }

  lemma {:induction false} PowersCount(a: nat, n: nat, o: nat, m: nat)
    requires IsOrder(a, n, o) && m <= o
    ensures |Powers(a, n, m)| == m
    decreases m
  {
    if m == 0 {
      assert Powers(a, n, 0) == {};
    } else {
      PowersCount(a, n, o, m - 1);
      var x := Pow(a, m - 1) % n;
      assert Powers(a, n, m) == Powers(a, n, m - 1) + {x};
      if x in Powers(a, n, m - 1) {
        var i :| 0 <= i < m - 1 && Pow(a, i) % n == x;
        Apart(a, n, o, i, m - 1);
      }
    }
  }

  /** The order is less than the modulus: there are that many remainders, none of them zero. */
  lemma OrderSmall(a: nat, n: nat, o: nat)
    requires IsOrder(a, n, o)
    ensures o < n
  {
    PowersCount(a, n, o, o);
    forall i | 0 <= i < o ensures Pow(a, i) % n != 0 { NotNothing(a, n, o, i); }
    hide Pow;
    var all := Powers(a, n, o) + {0};
    assert |all| == o + 1;
    SubsetSize(all, Places(n));
  }

  // ----- certificates -----

  /** The power leaves `x`. */
  ghost predicate Leaves(a: nat, e: nat, x: nat, n: nat) {
    n > 1 && Pow(a, e) % n == x
  }

  lemma Twice(a: nat, n: nat, e: nat, x: nat, q: nat, y: nat)
    requires Leaves(a, e, x, n) && x * x == n * q + y && y < n
    ensures Leaves(a, 2 * e, y, n)
  {
    SmallRest(Pow(a, e), x, n);
    SquareLeaves(a, n, e, x);
    Commute(n, q);
    RestOf(x * x, q, y, n);
  }

  lemma TwiceMore(a: nat, n: nat, e: nat, x: nat, q: nat, y: nat)
    requires Leaves(a, e, x, n) && x * x * a == n * q + y && y < n
    ensures Leaves(a, 2 * e + 1, y, n)
  {
    SmallRest(Pow(a, e), x, n);
    SquareLeaves(a, n, e, x);
    PowerUp(a, 2 * e);
    hide Pow;
    TimesLeaves(x * x, Pow(a, 2 * e), a, n, q, y);
  }

  lemma TimesLeaves(x: nat, p: nat, ad: nat, n: nat, q: nat, y: nat)
    requires n > 0 && x % n == p % n && x * ad == n * q + y && y < n
    ensures p * ad % n == y
  {
    ModTimes(x, ad, n);
    ModTimes(p, ad, n);
    Commute(n, q);
    RestOf(x * ad, q, y, n);
  }

  lemma SmallRest(p: nat, x: nat, n: nat)
    requires n > 0 && p % n == x
    ensures x % n == p % n
  {
    RestOf(x, 0, x, n);
  }

  lemma SquareLeaves(a: nat, n: nat, e: nat, x: nat)
    requires n > 0 && x % n == Pow(a, e) % n
    ensures (x * x) % n == Pow(a, 2 * e) % n
  {
    PowAdd(a, e, e);
    hide Pow;
    ModBoth(x, x, n);
    ModBoth(Pow(a, e), Pow(a, e), n);
  }

  lemma PowerUp(a: nat, e: nat)
    ensures Pow(a, e + 1) == Pow(a, e) * a
  {
    Commute(a, Pow(a, e));
  }

  /** Two bits of the exponent, the high one first. */
  lemma Bits(a: nat, n: nat, e: nat, x: nat, high: bool, q: nat, y: nat, low: bool, r: nat, z: nat)
    requires Leaves(a, e, x, n) && y < n && z < n
    requires x * x * (if high then a else 1) == n * q + y && y * y * (if low then a else 1) == n * r + z
    ensures Leaves(a, 4 * e + (if high then 2 else 0) + (if low then 1 else 0), z, n)
  {
    if high { TwiceMore(a, n, e, x, q, y); } else { Twice(a, n, e, x, q, y); }
    var e1 := 2 * e + if high then 1 else 0;
    if low { TwiceMore(a, n, e1, y, r, z); } else { Twice(a, n, e1, y, r, z); }
  }

  /** A power of what a power leaves. */
  lemma {:induction false} Nested(a: nat, n: nat, e: nat, b: nat, k: nat, y: nat)
    requires Leaves(a, e, b, n) && Leaves(b, k, y, n)
    ensures Leaves(a, e * k, y, n)
    decreases k
  {
    if k == 0 {
      assert e * k == 0 && Pow(a, 0) == Pow(b, 0);
    } else {
      var y1 := Pow(b, k - 1) % n;
      Nested(a, n, e, b, k - 1, y1);
      Distribute(k, 1, e);
      MulLe(0, k - 1, e);
      PowAdd(a, e, e * (k - 1));
      ModBoth(Pow(a, e), Pow(a, e * (k - 1)), n);
      Commute(b, Pow(b, k - 1));
      ModTimes(Pow(b, k - 1), b, n);
      Commute(b, y1);
    }
  }

  lemma Start(a: nat, n: nat)
    requires n > 1
    ensures Leaves(a, 0, 1, n)
  {
    assert Pow(a, 0) == 1;
  }

  /**
   * `q` is a prime, and what the power for the quotient of n - 1 by it leaves, less one, has no divisor in
   * common with `n`.
   */
  ghost predicate Excludes(n: nat, a: nat, q: nat)
    requires n > 1
  {
    Prime(q) && Divides(q, n - 1) && exists x, u, v :: Coprime(n, a, q, x, u, v)
  }

  ghost predicate Coprime(n: nat, a: nat, q: nat, x: nat, u: nat, v: nat)
    requires n > 1 && q > 0
  {
    x >= 1 && Leaves(a, (n - 1) / q, x, n) && (x - 1) * u == n * v + 1
  }

  lemma Excluded(n: nat, a: nat, q: nat, e: nat, x: nat, u: nat, v: nat)
    requires n > 1 && Prime(q) && n - 1 == q * e && x >= 1 && Leaves(a, e, x, n) && (x - 1) * u == n * v + 1
    ensures Excludes(n, a, q)
  {
    Commute(q, e);
    Multiple(e, q);
    assert Coprime(n, a, q, x, u, v);
  }

  /** The remainder for a divisor of the modulus. */
  lemma ModDivisor(x: nat, n: nat, d: nat)
    requires n > 0 && d > 0 && Divides(d, n)
    ensures (x % n) % d == x % d
  {
    var k, j := x / n, n / d;
    var r := x % n;
    assert x == n * k + r && n == d * j;
    Assoc(d, j, k);
    var q := r / d;
    assert r == d * q + r % d;
    Distribute(j * k, q, d);
    Commute(d, j * k + q);
    RestOf(x, j * k + q, r % d, d);
  }

  /** The prime divides the order for every divisor of the modulus. */
  lemma OrderHasPrime(n: nat, a: nat, q: nat, d: nat, o: nat)
    requires n > 1 && Excludes(n, a, q) && d >= 2 && Divides(d, n) && IsOrder(a, d, o)
    requires Pow(a, n - 1) % d == 1
    ensures Divides(q, o)
  {
    OrderDivides(a, d, o, n - 1);
    var k := (n - 1) / o;
    assert n - 1 == o * k;
    PrimeFactor(q, o, k);
    if !Divides(q, o) {
      var j := k / q;
      assert k == q * j;
      Swap(o, q, j);
      Multiple(o * j, q);
      Commute(q, j);
      Assoc(o, j, q);
      var x, u, v :| Coprime(n, a, q, x, u, v);
      PowerOfOne(a, o, j, d);
      ModDivisor(Pow(a, o * j), n, d);
      NothingCommon(n, d, x, u, v);
    }
  }

  lemma NothingCommon(n: nat, d: nat, x: nat, u: nat, v: nat)
    requires d >= 2 && Divides(d, n) && x >= 1 && (x - 1) * u == n * v + 1
    ensures x % d != 1
  {
    if x % d == 1 {
      var k := x / d;
      assert x - 1 == d * k;
      Commute(d, k);
      Multiple(k, d);
      Commute(x - 1, u);
      DividesProduct(u, x - 1, d);
      Commute(n, v);
      DividesProduct(v, n, d);
      DividesSub((x - 1) * u, v * n, d);
    }
  }

  /** No divisor is as small as the product of the primes. */
  lemma DivisorLarge(n: nat, a: nat, qs: seq<nat>, d: nat)
    requires n > 1 && Leaves(a, n - 1, 1, n) && d >= 2 && Divides(d, n)
    requires forall i :: 0 <= i < |qs| ==> Excludes(n, a, qs[i])
    requires forall i, j :: 0 <= i < j < |qs| ==> qs[i] != qs[j]
    ensures d > Product(qs)
  {
    ModDivisor(Pow(a, n - 1), n, d);
    RestOf(1, 0, 1, d);
    var o := Order(a, d, n - 1);
    forall i | 0 <= i < |qs| ensures Prime(qs[i]) && Divides(qs[i], o) { OrderHasPrime(n, a, qs[i], d, o); }
    ProductDivides(qs, o);
    OrderSmall(a, d, o);
    DivisorSmaller(Product(qs), o);
  }

  lemma DivisorSmaller(p: nat, o: nat)
    requires p > 0 && o > 0 && Divides(p, o)
    ensures p <= o
  {
    if p > o { RestOf(o, 0, o, p); }
  }

  lemma Cofactor(n: nat, d: nat) returns (e: nat)
    requires 0 < d < n && Divides(d, n)
    ensures n == d * e && e >= 2 && Divides(e, n)
  {
    e := n / d;
    assert n == d * e;
    if e < 2 { MulLe(e, 1, d); }
    Multiple(d, e);
  }

  /** Primes that divide n - 1, none of which can be left out, and whose product exceeds the root of `n`. */
  lemma PrimeByOrder(n: nat, a: nat, qs: seq<nat>)
    requires n > 1 && Leaves(a, n - 1, 1, n) && (Product(qs) + 1) * (Product(qs) + 1) > n
    requires forall i :: 0 <= i < |qs| ==> Excludes(n, a, qs[i])
    requires forall i, j :: 0 <= i < j < |qs| ==> qs[i] != qs[j]
    ensures Prime(n)
  {
    var p := Product(qs);
    forall d | 2 <= d < n ensures !Divides(d, n) {
      if Divides(d, n) {
        var e := Cofactor(n, d);
        hide Divides, Leaves, Excludes, Product;
        DivisorLarge(n, a, qs, d);
        DivisorLarge(n, a, qs, e);
        MulLe(p + 1, d, p + 1);
        MulLe(p + 1, e, d);
      }
    }
  }
}
