/** The sizes of hash tables that the interpreter has, and which of them its integers can hold. */
module HashSizes {
  import opened Primes
  import opened PrimeTable
  import opened HashTables

  const HashSets: seq<Size> := [
    Size(2, 5, 3),
    Size(4, 7, 5),
    Size(8, 13, 11),
    Size(16, 19, 17),
    Size(32, 43, 41),
    Size(64, 73, 71),
    Size(128, 151, 149),
    Size(256, 283, 281),
    Size(512, 571, 569),
    Size(1024, 1153, 1151),
    Size(2048, 2269, 2267),
    Size(4096, 4519, 4517),
    Size(8192, 9013, 9011),
    Size(16384, 18043, 18041),
    Size(32768, 36109, 36107),
    Size(65536, 72091, 72089),
    Size(131072, 144409, 144407),
    Size(262144, 288361, 288359),
    Size(524288, 576883, 576881),
    Size(1048576, 1153459, 1153457),
    Size(2097152, 2307163, 2307161),
    Size(4194304, 4613893, 4613891),
    Size(8388608, 9227641, 9227639),
    Size(16777216, 18455029, 18455027),
    Size(33554432, 36911011, 36911009),
    Size(67108864, 73819861, 73819859),
    Size(134217728, 147639589, 147639587),
    Size(268435456, 295279081, 295279079),
    Size(536870912, 590559793, 590559791),
    Size(1073741824, 1181116273, 1181116271),
    Size(2147483648, 2362232233, 2362232231)
  ]

  /** The number of slots of each size is prime. */
  lemma SizesPrime()
    ensures forall i :: 0 <= i < |HashSets| ==> Prime(HashSets[i].size)
  {
    TrialPrimes1(); TrialPrimes2(); TrialPrimes3(); TrialPrimes4(); TrialPrimes6(); TrialPrimes9(); TrialPrimes14();
    TrialPrimes17();
    Prime18043(); Prime36109(); Prime72091(); Prime144409(); Prime288361(); Prime576883(); Prime1153459();
    Prime2307163(); Prime4613893(); Prime9227641(); Prime18455029(); Prime36911011(); Prime73819861();
    Prime147639589(); Prime295279081(); Prime590559793(); Prime1181116273(); Prime2362232233();
    hide Prime;
  }

  /** Each size is larger than the one before. */
  lemma SizesGrow()
    ensures forall i :: 0 <= i < |HashSets| - 1 ==> Grows(HashSets[i], HashSets[i + 1])
  {
  }

  predicate Grows(r: Size, s: Size) {
    r.size < s.size && r.entries < s.entries
  }

  lemma {:induction false} Increasing(i: nat, j: nat)
    requires i < j < |HashSets|
    ensures Grows(HashSets[i], HashSets[j])
    decreases j
  {
    SizesGrow();
    if i < j - 1 { Increasing(i, j - 1); }
    assert Grows(HashSets[j - 1], HashSets[j]);
  }

  lemma SizesFit()
    ensures forall i :: 0 <= i < |HashSets| ==>
      0 < HashSets[i].entries < HashSets[i].size && 0 < HashSets[i].rehash < HashSets[i].size
  {
  }

  /** The rows as they are written make a good table, all 31 of them. */
  lemma AsWritten()
    ensures GoodSizes(HashSets)
  {
    SizesPrime();
    SizesFit();
    hide Prime;
    forall i, j | 0 <= i < j < |HashSets| ensures HashSets[i].size < HashSets[j].size &&
      HashSets[i].entries < HashSets[j].entries {
      Increasing(i, j);
    }
  }

  // ----- the rows in the integers of the machine -----

  const MaxInt: nat := 0x7fff_ffff

  /** A slot is three values: hash, key and value. */
  const EltSize: nat := 3

  /** How an integer is stored in a signed one of 32 bits. */
  function AsInt(x: int): int {
    (x + MaxInt + 1) % (2 * MaxInt + 2) - MaxInt - 1
  }

  /** The row is stored as it is written. */
  predicate Stored(r: Size) {
    AsInt(r.entries) == r.entries && AsInt(r.size) == r.size && AsInt(r.rehash) == r.rehash
  }

  /** The number of values of a new table is right. */
  predicate Allocates(r: Size) { AsInt(r.size * EltSize) == r.size * EltSize }

  /** Where a step of a search leads, before the size is taken off. */
  function Advance(elt: nat, step: nat): int { AsInt(elt + step) }

  /** No step of a search leaves the integers, wherever it is. */
  ghost predicate Searches(r: Size) {
    forall elt: nat, step: nat :: elt < r.size && step < r.size ==> Advance(elt, step) == elt + step
  }

  lemma AsIntExact(x: nat)
    ensures AsInt(x) == x <==> x <= MaxInt
  {
  }

  /** What a table does not exceed if it can be allocated. */
  lemma FitsInt(r: Size)
    requires r.rehash < r.size && r.entries < r.size
    ensures Stored(r) && Allocates(r) && Searches(r) <==> r.size * EltSize <= MaxInt
  {
    AsIntExact(r.size * EltSize);
    if r.size * EltSize <= MaxInt {
      AsIntExact(r.entries);
      AsIntExact(r.size);
      AsIntExact(r.rehash);
      forall elt: nat, step: nat | elt < r.size && step < r.size ensures Advance(elt, step) == elt + step {
        AsIntExact(elt + step);
      }
    }
  }

  /** How many rows can be used. */
  const Usable: nat := 29

  /** Exactly the first 29 rows are stored as they are written, can be allocated, and can be searched. */
  lemma UsableRows(i: nat)
    requires i < |HashSets|
    ensures Stored(HashSets[i]) && Allocates(HashSets[i]) && Searches(HashSets[i]) <==> i < Usable
  {
    SizesFit();
    FitsInt(HashSets[i]);
    if i < Usable - 1 { Increasing(i, Usable - 1); }
    if i > Usable { Increasing(Usable, i); }
    assert HashSets[Usable - 1] == Size(536870912, 590559793, 590559791);
    assert HashSets[Usable] == Size(1073741824, 1181116273, 1181116271);
  }

  /** The row before the last is stored, but neither allocated nor searched right; the last is stored negative. */
  lemma LastRows()
    ensures var r := HashSets[29]; Stored(r) && AsInt(r.size * EltSize) == -751618477 && !Searches(r)
    ensures var r := HashSets[30]; AsInt(r.entries) < 0 && AsInt(r.size) < 0 && AsInt(r.rehash) < 0
  {
    var r := HashSets[29];
    var elt, step := r.size - 1, r.size - 1;
    assert Advance(elt, step) != elt + step;
  }

  /** The rows that can be used are good: what is proved of hash tables holds of tables with these sizes. */
  lemma UsableSizes()
    ensures GoodSizes(HashSets[..Usable])
  {
    AsWritten();
    hide Prime;
    forall i | 0 <= i < Usable ensures GoodSize(HashSets[..Usable][i]) {
      assert HashSets[..Usable][i] == HashSets[i];
    }
  }

  /**
   * The interpreter's tables grow like those with the usable sizes only, exactly until one of the largest usable
   * size holds as many entries as it should.
   */
  lemma GrowsAlike(level: nat, count: nat)
    requires level < Usable
    ensures Grown(HashSets, level, count) == Grown(HashSets[..Usable], level, count) <==>
      !(level == Usable - 1 && count >= 536870912)
  {
    assert HashSets[..Usable][level] == HashSets[level];
    assert HashSets[Usable - 1].entries == 536870912;
  }
}
