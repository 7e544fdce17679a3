/** Steps of any length go round a circle of prime size. */
module Primes {
  import opened Arithmetic

  ghost predicate Divides(d: nat, n: nat)
    requires d > 0
  {
    n % d == 0
  }

  ghost predicate Prime(p: nat) {
    p >= 2 && forall d :: 2 <= d < p ==> !Divides(d, p)
  }

  lemma Multiple(k: nat, d: nat)
    requires d > 0
    ensures (k * d) % d == 0 && (k * d) / d == k
  {
    var q, r := (k * d) / d, (k * d) % d;
    assert k * d == d * q + r;
    if q < k {
      MulLe(q + 1, k, d); Distribute(q, 1, d);
    } else if q > k {
      MulLe(k + 1, q, d); Distribute(k, 1, d);
    }
  }

  /** The remainder of a multiple, when a multiple of the divisor is taken away. */
  lemma DividesSub(x: nat, y: nat, p: nat)
    requires p > 0 && Divides(p, x) && Divides(p, y) && y <= x
    ensures Divides(p, x - y)
  {
    var a, b := x / p, y / p;
    assert x == p * a && y == p * b;
    Distribute(a, b, p);
    if a < b { MulLe(a + 1, b, p); Distribute(a, 1, p); }
    Multiple(a - b, p);
  }

  lemma DividesProduct(k: nat, y: nat, p: nat)
    requires p > 0 && Divides(p, y)
    ensures Divides(p, k * y)
  {
    var b := y / p;
    assert y == p * b;
    assert k * (p * b) == (k * b) * p by { Assoc(k, b, p); Commute(p, b); }
    Multiple(k * b, p);
  }

  /** The least positive multiple of `d` that `p` divides, counted in `d`s. */
  lemma {:induction false} Least(p: nat, d: nat, k: nat) returns (m: nat)
    requires p > 0 && k > 0 && Divides(p, k * d)
    ensures 0 < m <= k && Divides(p, m * d)
    ensures forall j :: 0 < j < m ==> !Divides(p, j * d)
    decreases k
  {
    if j :| 0 < j < k && Divides(p, j * d) {
      m := Least(p, d, j);
    } else {
      m := k;
    }
  }

  /** Whatever multiple of `d` is divisible by `p` counts a multiple of the least. */
  lemma LeastDivides(p: nat, d: nat, m: nat, k: nat)
    requires p > 0 && 0 < m && Divides(p, m * d) && Divides(p, k * d)
    requires forall j :: 0 < j < m ==> !Divides(p, j * d)
    ensures k % m == 0
  {
    var q, r := k / m, k % m;
    assert k == m * q + r;
    DividesProduct(q, m * d, p);
    assert k * d == q * (m * d) + r * d by {
      Distribute(m * q, r, d);
      Assoc(q, m, d);
      Commute(m, q);
    }
    MulLe(0, r, d);
    DividesSub(k * d, q * (m * d), p);
  }

  /** A divisor of a prime below it is one, but a prime does not divide a smaller number. */
  lemma NotOne(p: nat, d: nat, m: nat)
    requires p >= 2 && 0 < d < p && 0 < m < p && p % m == 0 && Divides(p, m * d)
    ensures m >= 2 && Divides(m, p)
  {
    RestOf(d, 0, d, p);
  }

  /** A prime that divides a product of two numbers below it divides neither, so the product is zero. */
  lemma Euclid(p: nat, k: nat, d: nat)
    requires Prime(p) && 0 < d < p && 0 < k < p
    ensures !Divides(p, k * d)
  {
    if Divides(p, k * d) {
      var m := Least(p, d, k);
      Commute(p, d);
      Multiple(d, p);
      LeastDivides(p, d, m, p);
      NotOne(p, d, m);
      assert false;
    }
  }

  // ----- going round -----

  /** Where `n` steps from `a` lead on a circle of `size` places. */
  function Place(a: nat, n: nat, step: nat, size: nat): nat
    requires size > 0
  {
    (a + n * step) % size
  }

  lemma NextPlace(a: nat, n: nat, step: nat, size: nat)
    requires 0 < step < size
    ensures
      var at := Place(a, n, step, size);
      Place(a, n + 1, step, size) == if at + step >= size then at + step - size else at + step
  {
    var x := a + n * step;
    Distribute(n, 1, step);
    assert x == size * (x / size) + x % size;
    var at := x % size;
    var r := if at + step >= size then at + step - size else at + step;
    var q := if at + step >= size then x / size + 1 else x / size;
    Distribute(x / size, 1, size);
    Commute(size, x / size);
    Commute(size, q);
    RestOf(x + step, q, r, size);
  }

  lemma RestOf(x: nat, q: nat, r: nat, w: nat)
    requires r < w && x == q * w + r
    ensures x % w == r
  {
    var q1, r1 := x / w, x % w;
    assert x == w * q1 + r1;
    Commute(w, q1);
    if q1 < q { MulLe(q1 + 1, q, w); Distribute(q1, 1, w); }
    if q < q1 { MulLe(q + 1, q1, w); Distribute(q, 1, w); }
  }

  /** Within one round no place is met twice. */
  lemma NoReturn(a: nat, i: nat, j: nat, step: nat, size: nat)
    requires Prime(size) && 0 < step < size && i < j < i + size
    ensures Place(a, i, step, size) != Place(a, j, step, size)
  {
    var x, y := a + i * step, a + j * step;
    if x % size == y % size {
      assert x == size * (x / size) + x % size && y == size * (y / size) + y % size;
      Distribute(j, i, step);
      assert y - x == (j - i) * step;
      MulLe(0, j - i, step);
      Distribute(y / size, x / size, size);
      var k := y / size - x / size;
      assert (j - i) * step == k * size;
      if k < 0 { MulLe(k, -1, size); }
      Multiple(k, size);
      Euclid(size, j - i, step);
    }
  }

  /** Back at a place after at most one round: it was a whole round. */
  lemma RoundComplete(a: nat, i: nat, j: nat, step: nat, size: nat)
    requires Prime(size) && 0 < step < size && i < j <= i + size
    requires Place(a, i, step, size) == Place(a, j, step, size)
    ensures j == i + size
  {
    if j < i + size { NoReturn(a, i, j, step, size); }
  }

  /** A whole round leads back. */
  lemma WholeRound(a: nat, n: nat, step: nat, size: nat)
    requires size > 0
    ensures Place(a, n + size, step, size) == Place(a, n, step, size)
  {
    var x := a + n * step;
    Distribute(n, size, step);
    assert x == size * (x / size) + x % size;
    Commute(size, x / size);
    Distribute(x / size, step, size);
    Commute(size, step);
    RestOf(x + size * step, x / size + step, x % size, size);
  }

  /** The places met by the first `n` steps. */
  ghost function Met(a: nat, n: nat, step: nat, size: nat): set<nat>
    requires size > 0
  {
    set i | 0 <= i < n :: Place(a, i, step, size)
  }

  lemma {:induction false} MetCount(a: nat, n: nat, step: nat, size: nat)
    requires Prime(size) && 0 < step < size && n <= size
    ensures |Met(a, n, step, size)| == n
    decreases n
  {
    if n == 0 {
      assert Met(a, 0, step, size) == {};
    } else {
      MetCount(a, n - 1, step, size);
      var at := Place(a, n - 1, step, size);
      assert Met(a, n, step, size) == Met(a, n - 1, step, size) + {at};
      if at in Met(a, n - 1, step, size) {
        var i :| 0 <= i < n - 1 && Place(a, i, step, size) == at;
        NoReturn(a, i, n - 1, step, size);
      }
    }
  }

  /** The places of a circle. */
  ghost function Places(n: nat): (s: set<nat>)
    ensures forall i: nat :: i in s <==> i < n
    ensures |s| == n
  {
    if n == 0 then {} else Places(n - 1) + {n - 1}
  }

  lemma Subset(a: set<nat>, b: set<nat>)
    requires a <= b && |a| == |b|
    ensures a == b
  {
    if x :| x in b && x !in a {
      assert a <= b - {x};
      SubsetSize(a, b - {x});
    }
  }

  lemma {:induction false} SubsetSize(a: set<nat>, b: set<nat>)
    requires a <= b
    ensures |a| <= |b|
  {
    if a != {} {
      var x :| x in a;
      SubsetSize(a - {x}, b - {x});
    }
  }

  /** One round meets every place. */
  lemma EveryPlace(a: nat, step: nat, size: nat, at: nat) returns (n: nat)
    requires Prime(size) && 0 < step < size && at < size
    ensures n < size && Place(a, n, step, size) == at
  {
    MetCount(a, size, step, size);
    Subset(Met(a, size, step, size), Places(size));
    assert at in Met(a, size, step, size);
    n :| 0 <= n < size && Place(a, n, step, size) == at;
  }

  // ----- small primes -----

  /** No number from `d` on whose square does not exceed `n` divides `n`. */
  predicate NoneFrom(n: nat, d: nat)
    requires d >= 1
    decreases n - d * d
  {
    d * d > n || (n % d != 0 && (assert (d + 1) * (d + 1) > d * d; NoneFrom(n, d + 1)))
  }

  lemma {:induction false} NoneBetween(n: nat, d: nat, e: nat)
    requires 1 <= d <= e && e * e <= n && NoneFrom(n, d)
    ensures n % e != 0
    decreases e - d
  {
    MulLe(d, e, d);
    MulLe(d, e, e);
    if d < e { NoneBetween(n, d + 1, e); }
  }

  lemma PrimeByTrial(n: nat)
    requires n >= 2 && NoneFrom(n, 2)
    ensures Prime(n)
  {
    forall d | 2 <= d < n ensures !Divides(d, n) {
      if Divides(d, n) {
        var e := n / d;
        assert n == d * e;
        if e < 2 { MulLe(e, 1, d); }
        if d * d <= n {
          NoneBetween(n, 2, d);
        } else {
          if e >= d { MulLe(d, e, d); }
          MulLe(e, d, e);
          Multiple(d, e);
          NoneBetween(n, 2, e);
        }
      }
    }
  }
}
