/** Open addressing with double hashing, deleted entries and resizing. */
module HashTables {
  import opened Options
  import opened Primes

  /** How many entries a table may hold before it grows, how many slots it has, and the second modulus. */
  datatype Size = Size(entries: nat, size: nat, rehash: nat)

  /** A slot: never used, deleted (a value but no key) or live. */
  datatype Elt<K, V> = Elt(hash: nat, key: Option<K>, value: Option<V>)

  predicate Live<K, V>(e: Elt<K, V>) { e.key.Some? }
  predicate Deleted<K, V>(e: Elt<K, V>) { e.key.None? && e.value.Some? }
  predicate Unused<K, V>(e: Elt<K, V>) { e.key.None? && e.value.None? }

  ghost predicate GoodSize(r: Size) {
    Prime(r.size) && 0 < r.entries < r.size && 0 < r.rehash < r.size
  }

  /** A table of sizes, each larger than the one before. */
  ghost predicate GoodSizes(sizes: seq<Size>) {
    && sizes != []
    && (forall i :: 0 <= i < |sizes| ==> GoodSize(sizes[i]))
    && (forall i, j :: 0 <= i < j < |sizes| ==> sizes[i].size < sizes[j].size && sizes[i].entries < sizes[j].entries)
  }

  /** The size of a table with `count` entries when one more may come. */
  function Grown(sizes: seq<Size>, level: nat, count: nat): nat
    requires level < |sizes|
  {
    if count >= sizes[level].entries && level != |sizes| - 1 then level + 1 else level
  }

  // ----- probing -----

  function Step(h: nat, r: Size): nat
    requires r.rehash > 0
  {
    if h % r.rehash == 0 then 1 else h % r.rehash
  }

  /** The slot probed `n` steps after the first. */
  function Probe(h: nat, n: nat, r: Size): (i: nat)
    requires r.size > 0 && r.rehash > 0
    ensures i < r.size
  {
    Place(h % r.size, n, Step(h, r), r.size)
  }

  lemma StepBounds(h: nat, r: Size)
    requires GoodSize(r)
    ensures 0 < Step(h, r) < r.size
  {
  }

  /** Slot `i` is met before any slot that was never used. */
  ghost predicate Reached<K, V>(s: seq<Elt<K, V>>, r: Size, h: nat, i: nat)
    requires GoodSize(r) && |s| == r.size
  {
    exists n: nat :: n < r.size && Probe(h, n, r) == i && Passed(s, r, h, n)
  }

  /** None of the first `n` slots probed was never used. */
  ghost predicate Passed<K, V>(s: seq<Elt<K, V>>, r: Size, h: nat, n: nat)
    requires GoodSize(r) && |s| == r.size
  {
    forall m: nat :: m < n ==> !Unused(s[Probe(h, m, r)])
  }

  // ----- what a table holds -----

  ghost predicate Has<K, V>(s: seq<Elt<K, V>>, k: K) {
    exists i :: 0 <= i < |s| && s[i].key == Some(k)
  }

  /** Every key is held once, with its hash, where probing finds it. */
  ghost predicate Sound<K, V>(s: seq<Elt<K, V>>, r: Size, hash: K -> nat) {
    && GoodSize(r) && |s| == r.size
    && (forall i :: 0 <= i < |s| && Live(s[i]) ==> s[i].hash == hash(s[i].key.value) && Reached(s, r, s[i].hash, i))
    && (forall i, j :: 0 <= i < |s| && 0 <= j < |s| && Live(s[i]) && s[i].key == s[j].key ==> i == j)
  }

  ghost function Keys<K(!new), V>(s: seq<Elt<K, V>>): (keys: set<K>)
    ensures forall k :: k in keys <==> Has(s, k)
  {
    set i | 0 <= i < |s| && Live(s[i]) :: s[i].key.value
  }

  ghost function SlotOf<K, V>(s: seq<Elt<K, V>>, k: K): (i: nat)
    requires Has(s, k)
    ensures i < |s| && s[i].key == Some(k)
  {
    var i :| 0 <= i < |s| && s[i].key == Some(k);
    i
  }

  /** The map a table represents; a value may be missing. */
  ghost function Contents<K(!new), V>(s: seq<Elt<K, V>>): (m: map<K, Option<V>>)
    ensures m.Keys == Keys(s)
  {
    map k | k in Keys(s) :: s[SlotOf(s, k)].value
  }

  function LiveCount<K, V>(s: seq<Elt<K, V>>): nat {
    if s == [] then 0 else (if Live(s[0]) then 1 else 0) + LiveCount(s[1..])
  }

  // ----- counting -----

  lemma {:induction false} CountUpdate<K, V>(s: seq<Elt<K, V>>, i: nat, e: Elt<K, V>)
    requires i < |s|
    ensures LiveCount(s[i := e]) == LiveCount(s) - (if Live(s[i]) then 1 else 0) + (if Live(e) then 1 else 0)
    decreases |s|
  {
    var t := s[i := e];
    if i == 0 {
      assert t[1..] == s[1..];
    } else {
      assert t[1..] == s[1..][i - 1 := e];
      CountUpdate(s[1..], i - 1, e);
    }
  }

  lemma {:induction false} CountBound<K, V>(s: seq<Elt<K, V>>)
    ensures LiveCount(s) <= |s|
    ensures LiveCount(s) == |s| ==> forall i :: 0 <= i < |s| ==> Live(s[i])
    ensures (forall i :: 0 <= i < |s| ==> !Live(s[i])) ==> LiveCount(s) == 0
    decreases |s|
  {
    if s != [] {
      CountBound(s[1..]);
      assert forall i :: 0 < i < |s| ==> s[i] == s[1..][i - 1];
      if forall i :: 0 <= i < |s| ==> !Live(s[i]) {
        assert forall i :: 0 <= i < |s[1..]| ==> s[1..][i] == s[i + 1];
      }
    }
  }

  /** A table with fewer live entries than slots has a slot that is not live. */
  lemma {:induction false} RoomLeft<K, V>(s: seq<Elt<K, V>>) returns (i: nat)
    requires LiveCount(s) < |s|
    ensures i < |s| && !Live(s[i])
    decreases |s|
  {
    if Live(s[0]) {
      i := RoomLeft(s[1..]);
      i := i + 1;
    } else {
      i := 0;
    }
  }

  lemma {:induction false} CountSnoc<K, V>(s: seq<Elt<K, V>>, e: Elt<K, V>)
    ensures LiveCount(s + [e]) == LiveCount(s) + (if Live(e) then 1 else 0)
    decreases |s|
  {
    if s == [] {
      assert s + [e] == [e];
    } else {
      assert (s + [e])[1..] == s[1..] + [e];
      CountSnoc(s[1..], e);
    }
  }

  ghost predicate Distinct<K, V>(s: seq<Elt<K, V>>) {
    forall i, j :: 0 <= i < |s| && 0 <= j < |s| && Live(s[i]) && s[i].key == s[j].key ==> i == j
  }

  /** The number of live entries is the number of keys. */
  lemma {:induction false} CountKeys<K(!new), V>(s: seq<Elt<K, V>>)
    requires Distinct(s)
    ensures |Keys(s)| == LiveCount(s)
    decreases |s|
  {
    if s == [] {
      assert Keys(s) == {};
    } else {
      var n := |s| - 1;
      var t := s[..n];
      CountKeys(t);
      assert s == t + [s[n]];
      CountSnoc(t, s[n]);
      if Live(s[n]) {
        assert Keys(s) == Keys(t) + {s[n].key.value} by {
          forall k ensures k in Keys(s) <==> k in Keys(t) + {s[n].key.value} {
            if Has(s, k) { var i :| 0 <= i < |s| && s[i].key == Some(k); assert i < n ==> t[i] == s[i]; }
            if Has(t, k) { var i :| 0 <= i < |t| && t[i].key == Some(k); assert s[i] == t[i]; }
          }
        }
        assert !Has(t, s[n].key.value);
      } else {
        assert Keys(s) == Keys(t) by {
          forall k ensures k in Keys(s) <==> k in Keys(t) {
            if Has(s, k) { var i :| 0 <= i < |s| && s[i].key == Some(k); assert t[i] == s[i]; }
            if Has(t, k) { var i :| 0 <= i < |t| && t[i].key == Some(k); assert s[i] == t[i]; }
          }
        }
      }
    }
  }

  lemma {:induction false} CountPrefix<K, V>(s: seq<Elt<K, V>>, h: nat)
    requires h <= |s|
    ensures LiveCount(s[..h]) <= LiveCount(s)
    decreases |s| - h
  {
    if h < |s| {
      assert s[..h + 1] == s[..h] + [s[h]];
      CountSnoc(s[..h], s[h]);
      CountPrefix(s, h + 1);
    } else {
      assert s[..h] == s;
    }
  }

  /** One more live slot, with a key of its own: one more entry. */
  lemma ContentsSnoc<K(!new), V>(s: seq<Elt<K, V>>, h: nat)
    requires h < |s| && Live(s[h]) && Distinct(s)
    ensures !Has(s[..h], s[h].key.value)
    ensures Contents(s[..h + 1]) == Contents(s[..h])[s[h].key.value := s[h].value]
    ensures LiveCount(s[..h + 1]) == LiveCount(s[..h]) + 1
  {
    var t, u, k := s[..h], s[..h + 1], s[h].key.value;
    assert u == t + [s[h]];
    CountSnoc(t, s[h]);
    assert !Has(t, k);
    forall k1 ensures Has(u, k1) <==> Has(t, k1) || k1 == k {
      if Has(t, k1) { var j :| 0 <= j < |t| && t[j].key == Some(k1); assert u[j] == t[j]; }
      if Has(u, k1) { var j :| 0 <= j < |u| && u[j].key == Some(k1); assert j < h ==> t[j] == u[j]; }
      if k1 == k { assert u[h].key == Some(k); }
    }
    forall k1 | Has(u, k1) ensures Contents(u)[k1] == if k1 == k then s[h].value else Contents(t)[k1] {
      var j := SlotOf(u, k1);
      assert u[j] == s[j];
      if k1 != k { assert t[SlotOf(t, k1)] == s[SlotOf(t, k1)]; }
    }
  }

  lemma ContentsSkip<K(!new), V>(s: seq<Elt<K, V>>, h: nat)
    requires h < |s| && !Live(s[h]) && Distinct(s)
    ensures Contents(s[..h + 1]) == Contents(s[..h]) && LiveCount(s[..h + 1]) == LiveCount(s[..h])
  {
    var t, u := s[..h], s[..h + 1];
    assert u == t + [s[h]];
    CountSnoc(t, s[h]);
    forall k1 ensures Has(u, k1) <==> Has(t, k1) {
      if Has(t, k1) { var j :| 0 <= j < |t| && t[j].key == Some(k1); assert u[j] == t[j]; }
      if Has(u, k1) { var j :| 0 <= j < |u| && u[j].key == Some(k1); assert t[j] == u[j]; }
    }
    forall k1 | Has(u, k1) ensures Contents(u)[k1] == Contents(t)[k1] {
      assert u[SlotOf(u, k1)] == s[SlotOf(u, k1)] && t[SlotOf(t, k1)] == s[SlotOf(t, k1)];
    }
  }

  // ----- searching -----

  /** The first `n` slots probed are all live. */
  ghost predicate AllLive<K, V>(s: seq<Elt<K, V>>, r: Size, h: nat, n: nat)
    requires GoodSize(r) && |s| == r.size
  {
    forall m: nat :: m < n ==> Live(s[Probe(h, m, r)])
  }

  /** `i` is the first slot probed that is not live. */
  ghost predicate FirstFree<K, V>(s: seq<Elt<K, V>>, r: Size, h: nat, i: nat)
    requires GoodSize(r) && |s| == r.size
  {
    i < |s| && !Live(s[i]) && exists n: nat :: Probe(h, n, r) == i && AllLive(s, r, h, n)
  }

  /** On the way of probing a deleted slot comes before any slot that was never used. */
  ghost predicate DeletedAhead<K, V>(s: seq<Elt<K, V>>, r: Size, h: nat)
    requires GoodSize(r) && |s| == r.size
  {
    exists i: nat :: FirstFree(s, r, h, i) && Deleted(s[i])
  }

  lemma FreeAt<K, V>(s: seq<Elt<K, V>>, r: Size, h: nat, n: nat)
    requires GoodSize(r) && |s| == r.size && !Live(s[Probe(h, n, r)]) && forall m: nat :: m < n ==>
      Live(s[Probe(h, m, r)])
    ensures FirstFree(s, r, h, Probe(h, n, r))
  {
    assert AllLive(s, r, h, n);
  }

  lemma FirstFreeUnique<K, V>(s: seq<Elt<K, V>>, r: Size, h: nat, i: nat, j: nat)
    requires GoodSize(r) && |s| == r.size && FirstFree(s, r, h, i) && FirstFree(s, r, h, j)
    ensures i == j
  {
    var n: nat :| Probe(h, n, r) == i && AllLive(s, r, h, n);
    var m: nat :| Probe(h, m, r) == j && AllLive(s, r, h, m);
  }

  /** The first free slot tells whether a deleted one lies ahead. */
  lemma AheadIs<K, V>(s: seq<Elt<K, V>>, r: Size, h: nat, i: nat)
    requires GoodSize(r) && |s| == r.size && FirstFree(s, r, h, i)
    ensures DeletedAhead(s, r, h) <==> Deleted(s[i])
  {
    forall j: nat | FirstFree(s, r, h, j) ensures j == i { FirstFreeUnique(s, r, h, i, j); }
  }

  /** Where a search for `k` ends: at the key, or at a slot where the key can be put. */
  ghost predicate Found<K, V>(s: seq<Elt<K, V>>, r: Size, hash: K -> nat, k: K, i: nat)
    requires GoodSize(r) && |s| == r.size
  {
    && i < |s| && Reached(s, r, hash(k), i)
    && (Live(s[i]) ==> s[i].key == Some(k))
    && (!Live(s[i]) ==> !Has(s, k))
  }

  /** If the first `n` slots probed do not hold the key and the next was never used, the key is not held. */
  lemma NotBehindUnused<K, V>(s: seq<Elt<K, V>>, r: Size, hash: K -> nat, k: K, n: nat)
    requires Sound(s, r, hash)
    requires Unused(s[Probe(hash(k), n, r)])
    requires forall m: nat :: m < n ==> s[Probe(hash(k), m, r)].key != Some(k)
    ensures !Has(s, k)
  {
    forall i | 0 <= i < |s| && Live(s[i]) && s[i].hash == hash(k) ensures s[i].key != Some(k) {
      var m: nat :| m < r.size && Probe(hash(k), m, r) == i && Passed(s, r, hash(k), m);
      BeforeUnused(s, r, hash(k), m, n);
    }
  }

  lemma BeforeUnused<K, V>(s: seq<Elt<K, V>>, r: Size, h: nat, m: nat, n: nat)
    requires GoodSize(r) && |s| == r.size && Passed(s, r, h, m) && Unused(s[Probe(h, n, r)])
    ensures m <= n
  {
  }

  /** A whole round of slots that do not hold the key: it is not held. */
  lemma NotInRound<K, V>(s: seq<Elt<K, V>>, r: Size, hash: K -> nat, k: K, n: nat)
    requires GoodSize(r) && |s| == r.size && n >= r.size
    requires forall m: nat :: m < n ==> s[Probe(hash(k), m, r)].key != Some(k)
    ensures !Has(s, k)
  {
    forall i | 0 <= i < |s| ensures s[i].key != Some(k) {
      StepBounds(hash(k), r);
      var m := EveryPlace(hash(k) % r.size, Step(hash(k), r), r.size, i);
      assert Probe(hash(k), m, r) == i;
    }
  }

  /** A whole round meets a slot that is not live, if there is one. */
  lemma RoundMeets<K, V>(s: seq<Elt<K, V>>, r: Size, h: nat, n: nat)
    requires GoodSize(r) && |s| == r.size && LiveCount(s) < |s| && n >= r.size
    ensures exists m: nat :: m < n && !Live(s[Probe(h, m, r)])
  {
    var i := RoomLeft(s);
    StepBounds(h, r);
    var m := EveryPlace(h % r.size, Step(h, r), r.size, i);
    assert Probe(h, m, r) == i;
  }

  /** Putting something into a slot where a search ended keeps every other entry where it can be found. */
  lemma PutSound<K(!new), V>(s: seq<Elt<K, V>>, r: Size, hash: K -> nat, k: K, i: nat, e: Elt<K, V>)
    requires Sound(s, r, hash) && Found(s, r, hash, k, i) && e.key == Some(k) && e.hash == hash(k)
    ensures Sound(s[i := e], r, hash)
    ensures Contents(s[i := e]) == Contents(s)[k := e.value]
  {
    var t := s[i := e];
    forall j | 0 <= j < |t| && Live(t[j]) ensures t[j].hash == hash(t[j].key.value) && Reached(t, r, t[j].hash, j) {
      StillReached(s, t, r, t[j].hash, j);
    }
    assert forall j :: 0 <= j < |s| && s[j].key == Some(k) ==> j == i;
    PutContents(s, k, i, e);
  }

  /** A slot that was reached is still reached if no slot becomes unused. */
  lemma StillReached<K, V>(s: seq<Elt<K, V>>, t: seq<Elt<K, V>>, r: Size, h: nat, i: nat)
    requires GoodSize(r) && |s| == |t| == r.size && Reached(s, r, h, i)
    requires forall j :: 0 <= j < |s| ==> Unused(t[j]) ==> Unused(s[j])
    ensures Reached(t, r, h, i)
  {
    var n: nat :| n < r.size && Probe(h, n, r) == i && Passed(s, r, h, n);
    assert Passed(t, r, h, n);
  }

  lemma PutContents<K(!new), V>(s: seq<Elt<K, V>>, k: K, i: nat, e: Elt<K, V>)
    requires i < |s| && e.key == Some(k) && Distinct(s)
    requires forall j :: 0 <= j < |s| && s[j].key == Some(k) ==> j == i
    requires !Live(s[i]) || s[i].key == Some(k)
    ensures Contents(s[i := e]) == Contents(s)[k := e.value]
  {
    var t := s[i := e];
    assert t[i].key == Some(k);
    forall k1 ensures Has(t, k1) <==> Has(s, k1) || k1 == k {
      if Has(s, k1) { var j :| 0 <= j < |s| && s[j].key == Some(k1); assert j != i ==> t[j] == s[j]; }
      if Has(t, k1) { var j :| 0 <= j < |t| && t[j].key == Some(k1); assert j != i ==> t[j] == s[j]; }
    }
    forall k1 | Has(t, k1) ensures Contents(t)[k1] == if k1 == k then e.value else Contents(s)[k1] {
      var j := SlotOf(t, k1);
      if k1 != k { assert t[j] == s[j] && j == SlotOf(s, k1); }
    }
  }

  /** Deleting an entry keeps every other entry where it can be found, because its slot stays used. */
  lemma DeleteSound<K(!new), V>(s: seq<Elt<K, V>>, r: Size, hash: K -> nat, k: K, i: nat, e: Elt<K, V>)
    requires Sound(s, r, hash) && i < |s| && s[i].key == Some(k) && Deleted(e)
    ensures Sound(s[i := e], r, hash)
    ensures Contents(s[i := e]) == Contents(s) - {k}
  {
    var t := s[i := e];
    forall j | 0 <= j < |t| && Live(t[j]) ensures t[j].hash == hash(t[j].key.value) && Reached(t, r, t[j].hash, j) {
      StillReached(s, t, r, t[j].hash, j);
    }
    forall k1 ensures Has(t, k1) <==> Has(s, k1) && k1 != k {
      if Has(s, k1) { var j :| 0 <= j < |s| && s[j].key == Some(k1); assert j != i ==> t[j] == s[j]; }
      if Has(t, k1) { var j :| 0 <= j < |t| && t[j].key == Some(k1); assert t[j] == s[j]; }
    }
    forall k1 | Has(t, k1) ensures Contents(t)[k1] == Contents(s)[k1] {
      var j := SlotOf(t, k1);
      assert t[j] == s[j] && j == SlotOf(s, k1);
    }
  }

  // ----- the table in place -----

  class HashTable<K(!new, ==), V> {
    const sizes: seq<Size>
    const hash: K -> nat
    const void: V               // what a deleted slot holds
    var elts: array<Elt<K, V>>
    var level: nat              // the current size, counted in `sizes`
    var count: nat
    var def: Option<V>

    /** The table represents a map, with no fewer entries counted than there are. */
    ghost predicate Usable()
      reads this, elts
    {
      && GoodSizes(sizes) && level < |sizes|
      && Sound(elts[..], sizes[level], hash)
      && LiveCount(elts[..]) <= count < sizes[level].size
      && (level < |sizes| - 1 ==> count <= sizes[level].entries)
      && forall i :: 0 <= i < elts.Length && Deleted(elts[i]) ==> elts[i].value == Some(void)
    }

    /** The entries are counted right. */
    ghost predicate Valid()
      reads this, elts
    {
      Usable() && count == LiveCount(elts[..])
    }

    ghost function Map(): map<K, Option<V>>
      reads this, elts
    {
      Contents(elts[..])
    }

    /** The table cannot grow although it holds as many entries as it should. */
    predicate Crowded()
      requires level < |sizes|
      reads this
    {
      count >= sizes[level].entries && level != |sizes| - 1
    }

    /** The table grows for the next entry. */
    predicate Growing()
      requires level < |sizes|
      reads this
    {
      count == sizes[level].entries && level != |sizes| - 1
    }

    /** One more key fits: the table can still grow, or a slot remains besides. */
    ghost predicate Room()
      reads this
    {
      level < |sizes| && (level < |sizes| - 1 || count + 1 < sizes[level].size)
    }

    constructor (sizes: seq<Size>, hash: K -> nat, void: V)
      requires GoodSizes(sizes)
      ensures Valid() && Map() == map[] && count == 0 && def == None && level == 0
      ensures this.sizes == sizes && this.hash == hash && this.void == void && fresh(elts)
    {
      this.sizes, this.hash, this.void := sizes, hash, void;
      level, count, def := 0, 0, None;
      elts := new Elt<K, V>[sizes[0].size](_ => Elt(0, None, None));
      new;
      CountBound(elts[..]);
    }

    /** The slot that holds the key, or the one to put it in. */
    method Find(key: K) returns (i: nat)
      requires GoodSizes(sizes) && level < |sizes| && Sound(elts[..], sizes[level], hash)
      requires LiveCount(elts[..]) < elts.Length
      ensures Found(elts[..], sizes[level], hash, key, i)
      ensures !Live(elts[i]) ==> FirstFree(elts[..], sizes[level], hash(key), i)
    {
      hide Has, LiveCount, Passed, Prime, Reached;
      var r, h := sizes[level], hash(key);
      ghost var s := elts[..];
      StepBounds(h, r);
      var elt, step := h % r.size, 0;
      var del: Option<nat> := None;
      ghost var n, d: nat := 0, 0;
      assert elt == Probe(h, 0, r) by { FirstPlace(h, r); }
      while true
        invariant elt == Probe(h, n, r) && (step == 0 || step == Step(h, r)) && elts[..] == s
        invariant forall m: nat :: m < n ==> s[Probe(h, m, r)].key != Some(key) && !Unused(s[Probe(h, m, r)])
        invariant del.None? ==> n < r.size && forall m: nat :: m < n ==> Live(s[Probe(h, m, r)])
        invariant del.Some? ==> d < n <= d + r.size && d < r.size
        invariant del.Some? ==> del.value == Probe(h, d, r) && Deleted(s[del.value])
        invariant del.Some? ==> FirstFree(s, r, h, del.value)
        decreases 2 * r.size - n
      {
        if del.Some? && n == d + r.size { WholeRound(h % r.size, d, Step(h, r), r.size); }
        if elts[elt].key.None? {
          if elts[elt].value.Some? {
            if del.None? {
              FreeAt(s, r, h, n);
              del, d := Some(elt), n;
            } else if del.value == elt {
              RoundComplete(h % r.size, d, n, Step(h, r), r.size);
              NotInRound(s, r, hash, key, n);
              ReachedAt(s, r, h, d);
              return elt;
            }
          } else {
            NotBehindUnused(s, r, hash, key, n);
            if del.Some? {
              ReachedAt(s, r, h, d);
              return del.value;
            }
            ReachedAt(s, r, h, n);
            FreeAt(s, r, h, n);
            return elt;
          }
        } else if elts[elt].hash == h && elts[elt].key.value == key {
          Matched(s, r, h, n, elt, hash, key);
          return elt;
        }
        if step == 0 {
          step := h % r.rehash;
          if step == 0 { step := 1; }
        }
        NextPlace(h % r.size, n, Step(h, r), r.size);
        ghost var was := elt;
        elt := elt + step;
        if elt >= r.size { elt := elt - r.size; }
        n := n + 1;
        if del.None? && n == r.size { RoundMeets(s, r, h, n); }
      }
    }

    /** Put the live entries of the old slots into the new ones, which are all unused. */
    method Rehash(old_: array<Elt<K, V>>, ghost r: Size)
      requires GoodSizes(sizes) && level < |sizes| && elts.Length == sizes[level].size && old_ != elts
      requires Sound(old_[..], r, hash) && LiveCount(old_[..]) < elts.Length
      requires forall i :: 0 <= i < elts.Length ==> Unused(elts[i])
      modifies this`count, elts
      ensures Sound(elts[..], sizes[level], hash) && Contents(elts[..]) == Contents(old_[..])
      ensures count == LiveCount(elts[..]) == LiveCount(old_[..])
      ensures forall i :: 0 <= i < elts.Length ==> !Deleted(elts[i])
    {
      hide AllLive, Divides, Passed, Probe;
      ghost var s := old_[..];
      count := 0;
      CountBound(elts[..]);
      assert s[..0] == [];
      var h := 0;
      while h < old_.Length
        invariant h <= old_.Length && old_[..] == s && old_ != elts
        invariant Sound(elts[..], sizes[level], hash) && Contents(elts[..]) == Contents(s[..h])
        invariant count == LiveCount(elts[..]) == LiveCount(s[..h])
        invariant forall i :: 0 <= i < elts.Length ==> !Deleted(elts[i])
      {
        var e := old_[h];
        assert s[..h + 1] == s[..h] + [e];
        CountSnoc(s[..h], e);
        CountPrefix(s, h + 1);
        if e.key.Some? {
          var k := e.key.value;
          ContentsSnoc(s, h);
          CountPrefix(s, h);
          var n := Find(k);
          assert !Has(s[..h], k);
          assert k !in Contents(elts[..]);
          CountUpdate(elts[..], n, e);
          PutSound(elts[..], sizes[level], hash, k, n, e);
          ghost var was := elts[..];
          elts[n] := e;
          assert elts[..] == was[n := e];
          count := count + 1;
        } else {
          ContentsSkip(s, h);
        }
        h := h + 1;
      }
      assert s[..old_.Length] == s;
    }

    /** Go over to a larger size. */
    method Resize(next: nat)
      requires Usable() && level < next < |sizes|
      modifies this`elts, this`level, this`count
      ensures Valid() && fresh(elts) && level == next && Map() == old(Map()) && count == old(LiveCount(elts[..]))
      ensures forall i :: 0 <= i < elts.Length ==> !Deleted(elts[i])
      ensures old(elts[..]) == old(elts)[..]
    {
      var old_ := elts;
      ghost var r := sizes[level];
      elts := new Elt<K, V>[sizes[next].size](_ => Elt(0, None, None));
      level := next;
      Rehash(old_, r);
    }

    method HashSet(key: K, value: V)
      requires Usable() && Room()
      modifies this, elts
      ensures Usable() && Map() == old(Map())[key := Some(value)] && (old(Valid()) ==> Valid())
      ensures level == Grown(sizes, old(level), old(count))
      ensures def == old(def) && (elts == old(elts) || fresh(elts))
    {
      if Crowded() { Resize(level + 1); }
      var i := Find(key);
      Put(key, i, Some(value));
    }

    /** Write an entry into the slot where the search for its key ended. */
    method Put(key: K, i: nat, value: Option<V>)
      requires Usable() && !Crowded() && Room() && Found(elts[..], sizes[level], hash, key, i)
      modifies elts, this`count
      ensures Usable() && Map() == old(Map())[key := value] &&
        elts[..] == old(elts[..])[i := Elt(hash(key), Some(key), value)]
      ensures count - LiveCount(elts[..]) == old(count - LiveCount(elts[..]))
      ensures count == old(count) + if old(elts[i]).key.None? then 1 else 0
    {
      var e := Elt(hash(key), Some(key), value);
      ghost var s := elts[..];
      CountUpdate(s, i, e);
      PutSound(s, sizes[level], hash, key, i, e);
      if elts[i].key.None? { count := count + 1; }
      elts[i] := e;
      assert elts[..] == s[i := e];
    }

    /**
     * A reference to the value of a key, which is entered if need be.  Without a default the new entry
     * keeps what its slot holds: nothing, or Void if the slot was deleted before.
     */
    method HashRef(key: K) returns (i: nat, reused: bool)
      requires Usable() && Room()
      modifies this, elts
      ensures Usable() && (old(Valid()) ==> Valid())
      ensures i < elts.Length && elts[i].key == Some(key) && key in Map() && Map()[key] == elts[i].value
      ensures Map() == old(Map())[key :=
        if key in old(Map()) then old(Map())[key] else if def.Some? then def else if reused then Some(void) else None]
      ensures def == old(def)
      ensures reused <==> old(key !in Map() && !Growing() && DeletedAhead(elts[..], sizes[level], hash(key)))
    {
      hide FirstFree, AllLive, Divides, Has, Keys, LiveCount, Passed, Place, Prime, Probe, Reached, SlotOf, Step,
        Unused;
      if count == sizes[level].entries && level != |sizes| - 1 { Resize(level + 1); }
      i := Find(key);
      ghost var s := elts[..];
      if !Live(s[i]) { AheadIs(s, sizes[level], hash(key), i); }
      reused := elts[i].key.None? && elts[i].value.Some?;
      if elts[i].key.None? {
        Put(key, i, if def.Some? then def else elts[i].value);
      } else {
        HasKey(s, i, key);
      }
      HasKey(elts[..], i, key);
    }

    method HashTest(key: K) returns (r: bool)
      requires Usable()
      ensures r == (key in Map())
    {
      var i := Find(key);
      r := elts[i].key.Some?;
    }

    method HashDelete(key: K)
      requires Usable()
      modifies this`count, elts
      ensures Usable() && Map() == old(Map()) - {key} && (old(Valid()) ==> Valid())
      ensures count == old(count) - if key in old(Map()) then 1 else 0
      ensures key in old(Map()) ==>
        exists j :: 0 <= j < elts.Length && elts[..] == old(elts[..])[j := Elt(0, None, Some(void))] &&
                    old(elts[j].key) == Some(key)
    {
      var i := Find(key);
      ghost var s := elts[..];
      if elts[i].key.Some? {
        var e := Elt(0, None, Some(void));
        CountUpdate(s, i, e);
        DeleteSound(s, sizes[level], hash, key, i, e);
        HasKey(s, i, key);
        elts[i] := e;
        assert elts[..] == s[i := e];
        count := count - 1;
      }
    }

    method HashSetDef(value: V)
      requires Usable()
      modifies this`def
      ensures Usable() && def == Some(value) && Map() == old(Map()) && (old(Valid()) ==> Valid())
      ensures elts == old(elts)
    {
      def := Some(value);
    }

    /** Entering the default of a missing key grows the table first; the entry then goes into the slots given up. */
    ghost predicate EntersLate(key: K)
      requires level < |sizes|
      reads this, elts
    {
      key !in Map() && def.Some? && Crowded()
    }

    /**
     * The value of a key.  A missing key gets the default, if there is one; that enters it, unless the
     * table grows at this moment: then the key is counted but not entered.
     */
    method HashGet(key: K) returns (r: Option<V>)
      requires Usable() && Room()
      modifies this, elts
      ensures Usable() && def == old(def)
      ensures r == if key in old(Map()) then old(Map())[key] else old(def)
      ensures Map() == old(Map())[key := r] <==> !old(EntersLate(key)) && (key in old(Map()) || old(def).Some?)
      ensures old(EntersLate(key)) ==> Map() == old(Map()) && count == LiveCount(elts[..]) + 1
      ensures key !in old(Map()) && old(def).None? ==> Map() == old(Map())
      ensures old(Valid()) ==> (Valid() <==> !old(EntersLate(key)))
      ensures level == if old(EntersLate(key)) then old(level) + 1 else old(level)
      ensures old(Valid()) && key !in old(Map()) && def.Some? ==> count == old(count) + 1
      ensures elts == old(elts) || fresh(elts)
    {
      var i := Find(key);
      ghost var s := elts[..];
      assert Distinct(s) && (elts[i].key.None? ==> key !in Map());
      hide Sound, Contents, LiveCount, GoodSizes;
      if elts[i].key.Some? {
        HasKey(s, i, key);
        r := elts[i].value;
        assert Map() == old(Map()) == old(Map())[key := r];
      } else if def.None? {
        r := None;
        assert key in old(Map())[key := r];
      } else {
        r := def;
        EnterDefault(key, i);
      }
    }

    /** Enter the default at slot `i`, found before the table may grow. */
    method EnterDefault(key: K, i: nat)
      requires Usable() && Room() && def.Some? && Found(elts[..], sizes[level], hash, key, i) && key !in Map()
      modifies this`elts, this`level, this`count, elts
      ensures Usable() && (elts == old(elts) || fresh(elts))
      ensures if old(Crowded()) then Map() == old(Map()) && count == LiveCount(elts[..]) + 1 && level == old(level) + 1
              else Map() == old(Map())[key := def] && level == old(level)
      ensures old(Valid()) ==> (Valid() <==> !old(Crowded())) && count == old(count) + 1
    {
      assert elts[i].key.None? by { assert !Has(elts[..], key); }
      hide Sound, Contents, LiveCount, GoodSizes;
      if Crowded() { LoseEntry(key, i); } else { Put(key, i, def); }
    }

    /** The table grows, and the entry is written to the slots it has given up. */
    method LoseEntry(key: K, i: nat)
      requires Usable() && Crowded() && i < elts.Length
      modifies this`elts, this`level, this`count, elts
      ensures Usable() && fresh(elts) && Map() == old(Map()) && level == old(level) + 1
      ensures count == LiveCount(elts[..]) + 1 && (old(Valid()) ==> count == old(count) + 1)
    {
      assert sizes[level].entries < sizes[level + 1].entries < sizes[level + 1].size;
      hide Sound, Contents, LiveCount, GoodSizes;
      var e := elts;
      Resize(level + 1);
      ghost var now := elts[..];
      e[i] := Elt(hash(key), Some(key), def);
      assert elts[..] == now;
      count := count + 1;
    }

    /** All keys, each once. */
    method HashKeys() returns (keys: seq<K>)
      requires Usable()
      ensures |keys| == LiveCount(elts[..])
      ensures forall k :: k in keys <==> k in Map()
      ensures forall i, j :: 0 <= i < j < |keys| ==> keys[i] != keys[j]
    {
      hide Deleted, GoodSize, GoodSizes, Keys, Reached, SlotOf;
      keys := [];
      ghost var s := elts[..];
      assert s[..0] == [];
      var h := 0;
      while h < elts.Length
        invariant h <= elts.Length && |keys| == LiveCount(s[..h])
        invariant forall k :: k in keys <==> Has(s[..h], k)
        invariant forall i, j :: 0 <= i < j < |keys| ==> keys[i] != keys[j]
      {
        assert s[h] == elts[h];
        if elts[h].key.Some? {
          ContentsSnoc(s, h);
          assert forall k :: k in Contents(s[..h + 1]) <==> k in Contents(s[..h]) || k == s[h].key.value;
          keys := keys + [elts[h].key.value];
        } else {
          ContentsSkip(s, h);
          assert forall k :: k in Contents(s[..h + 1]) <==> k in Contents(s[..h]);
        }
        h := h + 1;
      }
      assert s[..elts.Length] == s;
    }

    /** A key deleted and then referred to without a default reads as Void, where any other new key reads as nothing. */
    method DeleteThenRef(key: K) returns (i: nat)
      requires Usable() && Room() && def == None && key in Map() && !Crowded()
      modifies this, elts
      ensures Usable() && Map() == old(Map())[key := Some(void)]
    {
      hide AllLive, Contents, Divides, FirstFree, GoodSize, GoodSizes, Grown, Keys, LiveCount, Passed, Place, Prime,
        Probe, Reached, SlotOf, Step;
      ghost var was := elts[..];
      HashDelete(key);
      ghost var s := elts[..];
      ghost var j :| 0 <= j < |s| && s == was[j := Elt(0, None, Some(void))] && was[j].key == Some(key);
      SlotKept(was, s, sizes[level], hash, key, j);
      i := Find(key);
      DeletedFirst(s, sizes[level], hash(key), j, i);
      hide Sound, Reached, Contents, LiveCount;
      assert !Has(s, key);
      Put(key, i, elts[i].value);
    }
  }

  lemma FirstPlace(h: nat, r: Size)
    requires GoodSize(r)
    ensures Probe(h, 0, r) == h % r.size
  {
    RestOf(h % r.size, 0, h % r.size, r.size);
  }

  lemma ReachedAt<K, V>(s: seq<Elt<K, V>>, r: Size, h: nat, n: nat)
    requires GoodSize(r) && |s| == r.size && n < r.size && Passed(s, r, h, n)
    ensures Reached(s, r, h, Probe(h, n, r))
  {
  }

  /** A key that is met is where it was put. */
  lemma Matched<K, V>(s: seq<Elt<K, V>>, r: Size, h: nat, n: nat, i: nat, hash: K -> nat, key: K)
    requires Sound(s, r, hash) && i < |s| && s[i].key == Some(key) && h == hash(key)
    ensures Found(s, r, hash, key, i)
  {
  }

  lemma HasKey<K(!new), V>(s: seq<Elt<K, V>>, i: nat, key: K)
    requires i < |s| && s[i].key == Some(key) && Distinct(s)
    ensures key in Contents(s) && Contents(s)[key] == s[i].value && Contents(s)[key := s[i].value] == Contents(s)
  {
    assert Has(s, key);
    assert SlotOf(s, key) == i;
  }

  lemma SlotKept<K, V>(s: seq<Elt<K, V>>, t: seq<Elt<K, V>>, r: Size, hash: K -> nat, key: K, j: nat)
    requires Sound(s, r, hash) && j < |s| && s[j].key == Some(key) && |t| == |s| && !Unused(t[j])
    requires forall i :: 0 <= i < |s| && i != j ==> t[i] == s[i]
    ensures Reached(t, r, hash(key), j)
  {
    StillReached(s, t, r, hash(key), j);
  }

  /** A search that meets a deleted slot does not end at an unused one. */
  lemma DeletedFirst<K, V>(s: seq<Elt<K, V>>, r: Size, h: nat, j: nat, i: nat)
    requires GoodSize(r) && |s| == r.size && j < |s| && Deleted(s[j]) && Reached(s, r, h, j) && i < |s|
    requires !Live(s[i]) ==> FirstFree(s, r, h, i)
    ensures !Unused(s[i])
  {
    var m: nat :| m < r.size && Probe(h, m, r) == j && Passed(s, r, h, m);
  }

  /** The number of entries counted is the number of keys. */
  lemma CountIsSize<K(!new), V>(s: seq<Elt<K, V>>, r: Size, hash: K -> nat)
    requires Sound(s, r, hash)
    ensures |Contents(s)| == LiveCount(s)
  {
    CountKeys(s);
    MapSize(Contents(s));
  }

  lemma {:induction false} MapSize<K, V>(m: map<K, V>)
    ensures |m| == |m.Keys|
  {
    if m != map[] {
      var k :| k in m;
      assert (m - {k}).Keys == m.Keys - {k};
      MapSize(m - {k});
    }
  }

  // ----- a default value and a table that grows -----

  /** Three missing keys read with a default: the third is counted but not entered, as the table grows for it. */
  method ThirdDefault<K(!new, ==), V>(sizes: seq<Size>, hash: K -> nat, k1: K, k2: K, k3: K, value: V)
      returns (t: HashTable<K, V>)
    requires GoodSizes(sizes) && |sizes| > 1 && sizes[0].entries == 2
    requires k1 != k2 && k1 != k3 && k2 != k3
    ensures fresh(t) && t.Map() == map[k1 := Some(value), k2 := Some(value)] && t.count == 3 && !t.Valid()
  {
    hide Sound, Contents, LiveCount, GoodSizes;
    t := new HashTable(sizes, hash, value);
    t.HashSetDef(value);
    var r := t.HashGet(k1);
    assert t.Map() == map[k1 := Some(value)] && t.count == 1 && t.level == 0;
    r := t.HashGet(k2);
    assert t.Map() == map[k1 := Some(value), k2 := Some(value)] && t.count == 2 && t.level == 0;
    r := t.HashGet(k3);
  }
}
