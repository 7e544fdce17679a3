/**
 * Jumps between twixt chains.  A twixt block has an enter and a leave part; a jump out of some
 * blocks and into others runs leave parts on the way up and enter parts on the way down.
 */
module Twixts {
  /** A twixt block being executed; `up` is the block around it. */
  class Twixt {
    const up: Twixt?
    const depth: nat
    const enter: nat
    const leave: nat

    ghost predicate Valid()
      decreases depth
    {
      if up == null then depth == 1 else depth == up.depth + 1 && up.Valid()
    }

    constructor (twixts: Twixt?, enter: nat, leave: nat)
      requires Proper(twixts)
      ensures Valid() && up == twixts && this.enter == enter && this.leave == leave
    {
      this.up, this.enter, this.leave := twixts, enter, leave;
      this.depth := if twixts != null then twixts.depth + 1 else 1;
    }
  }

  ghost predicate Proper(t: Twixt?) { t == null || t.Valid() }

  function Depth(t: Twixt?): nat { if t == null then 0 else t.depth }

  /** The blocks around a point, innermost first. */
  ghost function Chain(t: Twixt?): (c: seq<Twixt>)
    requires Proper(t)
    ensures |c| == Depth(t)
    ensures forall i :: 0 <= i < |c| ==> c[i].Valid() && c[i].depth == |c| - i
    decreases Depth(t)
  {
    if t == null then [] else [t] + Chain(t.up)
  }

  ghost predicate Encloses(t: Twixt, at: Twixt?)
    requires Proper(at)
  {
    t in Chain(at)
  }

  datatype Event = Leave(t: Twixt) | Enter(t: Twixt)

  // ----- what a jump should do -----

  /** The blocks of a chain that do not enclose `other`. */
  ghost function Outside(c: seq<Twixt>, other: Twixt?): seq<Twixt>
    requires Proper(other)
  {
    if c == [] then []
    else (if Encloses(c[0], other) then [] else [c[0]]) + Outside(c[1..], other)
  }

  ghost function Leaves(c: seq<Twixt>): seq<Event> {
    if c == [] then [] else [Leave(c[0])] + Leaves(c[1..])
  }

  /** Enter parts, outermost block first. */
  ghost function Enters(c: seq<Twixt>): seq<Event> {
    if c == [] then [] else Enters(c[1..]) + [Enter(c[0])]
  }

  /**
   * Leave the blocks around `from` that are not around `to`, innermost first, then enter those
   * around `to` that are not around `from`, outermost first.
   */
  ghost function Due(from: Twixt?, to: Twixt?): seq<Event>
    requires Proper(from) && Proper(to)
  {
    Leaves(Outside(Chain(from), to)) + Enters(Outside(Chain(to), from))
  }

  lemma {:induction false} LeavesAt(c: seq<Twixt>)
    ensures |Leaves(c)| == |c| && forall i :: 0 <= i < |c| ==> Leaves(c)[i] == Leave(c[i])
    decreases |c|
  {
    if c != [] { LeavesAt(c[1..]); }
  }

  lemma {:induction false} EntersAt(c: seq<Twixt>)
    ensures |Enters(c)| == |c| && forall i :: 0 <= i < |c| ==> Enters(c)[|c| - 1 - i] == Enter(c[i])
    decreases |c|
  {
    if c != [] { EntersAt(c[1..]); }
  }

  /** Innermost first. */
  ghost predicate Inward(c: seq<Twixt>) {
    forall i, j :: 0 <= i < j < |c| ==> c[i].depth > c[j].depth
  }

  /** `d` has the blocks of `c` that do not enclose `other`, and no others. */
  ghost predicate Picked(d: seq<Twixt>, c: seq<Twixt>, other: Twixt?)
    requires Proper(other)
  {
    && (forall j :: 0 <= j < |d| ==> d[j] in c && !Encloses(d[j], other))
    && forall i :: 0 <= i < |c| && !Encloses(c[i], other) ==> c[i] in d
  }

  lemma {:induction false} OutsideExactly(c: seq<Twixt>, other: Twixt?)
    requires Proper(other) && Inward(c)
    ensures Inward(Outside(c, other)) && Picked(Outside(c, other), c, other)
    decreases |c|
  {
    if c != [] {
      var rest := c[1..];
      InwardTail(c);
      OutsideExactly(rest, other);
      var r := Outside(rest, other);
      assert Outside(c, other) == (if Encloses(c[0], other) then [] else [c[0]]) + r;
      hide Encloses, Outside;
      PickedCons(c, r, other);
    }
  }

  lemma InwardTail(c: seq<Twixt>)
    requires Inward(c) && c != []
    ensures Inward(c[1..])
  {
    var r := c[1..];
    forall i, j | 0 <= i < j < |r| ensures r[i].depth > r[j].depth {
      assert r[i] == c[i + 1] && r[j] == c[j + 1];
    }
  }

  lemma PickedCons(c: seq<Twixt>, r: seq<Twixt>, other: Twixt?)
    requires Proper(other) && c != [] && Inward(c) && Inward(r) && Picked(r, c[1..], other)
    ensures
      var d := (if Encloses(c[0], other) then [] else [c[0]]) + r;
      Inward(d) && Picked(d, c, other)
  {
    hide Encloses;
    forall j | 0 <= j < |r| ensures c[0].depth > r[j].depth && r[j] in c { InTail(c, r[j]); }
    forall i | 0 < i < |c| && !Encloses(c[i], other) ensures c[i] in r { assert c[1..][i - 1] == c[i]; }
    if Encloses(c[0], other) {
      assert [] + r == r;
    } else {
      InwardCons(c[0], r);
      PickedMore(c, r, other);
    }
  }

  lemma InTail(c: seq<Twixt>, t: Twixt)
    requires Inward(c) && c != [] && t in c[1..]
    ensures c[0].depth > t.depth && t in c
  {
    var i :| 0 <= i < |c[1..]| && c[1..][i] == t;
    assert c[i + 1] == t;
  }

  lemma InwardCons(t: Twixt, r: seq<Twixt>)
    requires Inward(r) && forall j :: 0 <= j < |r| ==> t.depth > r[j].depth
    ensures Inward([t] + r)
  {
    var d := [t] + r;
    forall i, j | 0 <= i < j < |d| ensures d[i].depth > d[j].depth {
      assert d[j] == r[j - 1];
      if i > 0 { assert d[i] == r[i - 1]; }
    }
  }

  lemma PickedMore(c: seq<Twixt>, r: seq<Twixt>, other: Twixt?)
    requires Proper(other) && c != [] && !Encloses(c[0], other)
    requires forall j :: 0 <= j < |r| ==> r[j] in c && !Encloses(r[j], other)
    requires forall i :: 0 < i < |c| && !Encloses(c[i], other) ==> c[i] in r
    ensures Picked([c[0]] + r, c, other)
  {
    hide Encloses;
    var d := [c[0]] + r;
    forall j | 0 <= j < |d| ensures d[j] in c && !Encloses(d[j], other) {
      if j > 0 { assert d[j] == r[j - 1]; }
    }
    forall i | 0 <= i < |c| && !Encloses(c[i], other) ensures c[i] in d {
      if i == 0 { assert d[0] == c[0]; } else { assert c[i] in r; }
    }
  }

  /**
   * What is due: first to leave the blocks `l`, from the inside out, then to enter the blocks `e`, from the outside in;
   * `l` are those around `from` and not around `to`, `e` those around `to` and not around `from`.
   */
  lemma DueExactly(from: Twixt?, to: Twixt?) returns (l: seq<Twixt>, e: seq<Twixt>)
    requires Proper(from) && Proper(to)
    ensures Inward(l) && Picked(l, Chain(from), to) && Inward(e) && Picked(e, Chain(to), from)
    ensures
      var d := Due(from, to);
      && |d| == |l| + |e|
      && (forall i :: 0 <= i < |l| ==> d[i] == Leave(l[i]))
      && forall i :: 0 <= i < |e| ==> d[|d| - 1 - i] == Enter(e[i])
  {
    l, e := Outside(Chain(from), to), Outside(Chain(to), from);
    OutsideExactly(Chain(from), to);
    OutsideExactly(Chain(to), from);
    assert Due(from, to) == Leaves(l) + Enters(e);
    hide *;
    LeavesAt(l);
    EntersAt(e);
  }

  // ----- what it does -----

  /** The innermost block around both points. */
  ghost function Common(l: Twixt?, e: Twixt?): (p: Twixt?)
    requires Proper(l) && Proper(e)
    ensures Proper(p)
    decreases Depth(l) + Depth(e)
  {
    if l == e then l
    else if Depth(l) > Depth(e) then Common(l.up, e)
    else if Depth(l) < Depth(e) then Common(l, e.up)
    else Common(l.up, e.up)
  }

  /** What happens going up: after each block, up again unless the common block is reached. */
  ghost function GoingUp(leave: Twixt?, parent: Twixt?): seq<Event>
    requires Proper(leave)
    decreases Depth(leave)
  {
    if leave == null then []
    else [Leave(leave)] + (if leave.up == parent then [] else GoingUp(leave.up, parent))
  }

  /** The block below `t` in the chain of `last`, or null if that ends at `t`. */
  ghost function Below(t: Twixt?, last: Twixt?): (n: Twixt?)
    requires Proper(last) && (t == null || Encloses(t, last))
    ensures n != null ==> n.Valid() && n.up == t && Encloses(n, last)
    ensures n == null <==> last == t
    decreases Depth(last)
  {
    if last == t then null
    else if last.up == t then last
    else Below(t, last.up)
  }

  /** What happens going down, from `entering` to `enter`. */
  ghost function GoingDown(entering: Twixt?, enter: Twixt?): seq<Event>
    requires Proper(enter) && (entering == null || Encloses(entering, enter))
    decreases if entering == null then 0 else 1 + Depth(enter) - entering.depth
  {
    if entering == null then []
    else
      var n := Below(entering, enter);
      assert entering.depth <= Depth(enter) by { ChainDepth(entering, enter); }
      assert n == null || n.depth <= Depth(enter) by { if n != null { ChainDepth(n, enter); } }
      [Enter(entering)] + GoingDown(n, enter)
  }

  lemma {:induction false} ChainDepth(t: Twixt, at: Twixt?)
    requires Proper(at) && Encloses(t, at)
    ensures t.Valid() && t.depth <= Depth(at)
  {
    var i :| 0 <= i < |Chain(at)| && Chain(at)[i] == t;
  }

  /** All that happens when a jump goes from `from` to `to`. */
  ghost function Walk(from: Twixt?, to: Twixt?): seq<Event>
    requires Proper(from) && Proper(to)
  {
    CommonEncloses(from, to);
    var parent := Common(from, to);
    GoingUp(from, parent) + GoingDown(Below(parent, to), to)
  }

  // ----- chains -----

  lemma {:induction false} CommonEncloses(l: Twixt?, e: Twixt?)
    requires Proper(l) && Proper(e)
    ensures var p := Common(l, e); p != null ==> Encloses(p, l) && Encloses(p, e)
    decreases Depth(l) + Depth(e)
  {
    if l != e {
      if Depth(l) > Depth(e) { CommonEncloses(l.up, e); }
      else if Depth(l) < Depth(e) { CommonEncloses(l, e.up); }
      else { CommonEncloses(l.up, e.up); }
    }
  }

  /** A block of the same depth as another chain is on that chain only if it is its innermost block. */
  lemma NotOnChain(t: Twixt, at: Twixt?)
    requires t.Valid() && Proper(at) && t != at && t.depth >= Depth(at)
    ensures !Encloses(t, at)
  {
    if Encloses(t, at) { ChainDepth(t, at); }
  }

  lemma {:induction false} Within(t: Twixt, p: Twixt, at: Twixt?)
    requires Proper(at) && Encloses(p, at) && p.Valid() && Encloses(t, p)
    ensures Encloses(t, at)
    decreases Depth(at)
  {
    if at != p { Within(t, p, at.up); }
  }

  /** A block around both points is around their common block. */
  lemma {:induction false} SharedOnly(t: Twixt, l: Twixt?, e: Twixt?)
    requires Proper(l) && Proper(e) && Encloses(t, l) && Encloses(t, e)
    ensures Encloses(t, Common(l, e))
    decreases Depth(l) + Depth(e)
  {
    ChainDepth(t, l);
    ChainDepth(t, e);
    if l != e {
      if Depth(l) > Depth(e) {
        SharedOnly(t, l.up, e);
      } else if Depth(l) < Depth(e) {
        SharedOnly(t, l, e.up);
      } else {
        if t == l { NotOnChain(t, e); }
        SharedOnly(t, l.up, e.up);
      }
    }
  }

  /** `p` is the innermost block that all of the chain of `at` shares with `other`. */
  ghost predicate Splits(p: Twixt?, at: Twixt?, other: Twixt?)
    requires Proper(at) && Proper(other) && Proper(p)
  {
    && (p == null || Encloses(p, at))
    && forall t :: t in Chain(at) ==> (Encloses(t, other) <==> Encloses(t, p))
  }

  lemma CommonSplits(from: Twixt?, to: Twixt?)
    requires Proper(from) && Proper(to)
    ensures Splits(Common(from, to), from, to) && Splits(Common(from, to), to, from)
  {
    var p := Common(from, to);
    CommonEncloses(from, to);
    forall t | t in Chain(from) ensures Encloses(t, to) <==> Encloses(t, p) {
      if Encloses(t, to) { SharedOnly(t, from, to); }
      if Encloses(t, p) { Within(t, p, to); }
    }
    forall t | t in Chain(to) ensures Encloses(t, from) <==> Encloses(t, p) {
      if Encloses(t, from) { SharedOnly(t, from, to); }
      if Encloses(t, p) { Within(t, p, from); }
    }
  }

  lemma {:induction false} OutsideNone(c: seq<Twixt>, other: Twixt?)
    requires Proper(other) && forall t :: t in c ==> Encloses(t, other)
    ensures Outside(c, other) == []
    decreases |c|
  {
    if c != [] { OutsideNone(c[1..], other); }
  }

  /** The innermost block is around all points that one of the chain's other blocks is not around. */
  lemma OuterSplits(p: Twixt?, at: Twixt, other: Twixt?)
    requires at.Valid() && Proper(other) && Proper(p) && Splits(p, at, other) && p != at
    ensures Splits(p, at.up, other) && !Encloses(at, other)
  {
    if p != null { ChainDepth(p, at.up); NotOnChain(at, p); }
    assert Encloses(at, at);
    forall t: Twixt | Encloses(t, at.up) ensures Encloses(t, other) <==> Encloses(t, p) { assert Encloses(t, at); }
  }

  // ----- going up -----

  lemma {:induction false} UpIsDue(l: Twixt?, p: Twixt?, to: Twixt?)
    requires Proper(l) && Proper(to) && Proper(p) && Splits(p, l, to) && (l == null || l != p)
    ensures GoingUp(l, p) == Leaves(Outside(Chain(l), to))
    decreases Depth(l)
  {
    if l != null {
      OuterSplits(p, l, to);
      assert Chain(l)[1..] == Chain(l.up);
      if l.up == p {
        forall t | t in Chain(p) ensures Encloses(t, to) { assert Encloses(t, p); }
        OutsideNone(Chain(p), to);
        assert [l] + [] == [l];
      } else {
        UpIsDue(l.up, p, to);
      }
    }
  }

  /** If the common block is the starting point itself, it is not recognised on the way up. */
  lemma {:induction false} UpTooFar(l: Twixt?, p: Twixt)
    requires Proper(l) && p.Valid() && Depth(l) <= p.depth
    ensures GoingUp(l, p) == Leaves(Chain(l))
    decreases Depth(l)
  {
    if l != null {
      assert Chain(l)[1..] == Chain(l.up);
      UpTooFar(l.up, p);
    }
  }

  // ----- going down -----

  /** The chain of `at` as far as `n`. */
  ghost function UpTo(n: Twixt, at: Twixt?): seq<Twixt>
    requires Proper(at) && Encloses(n, at)
    decreases Depth(at)
  {
    if at == n then [at] else [at] + UpTo(n, at.up)
  }

  lemma {:induction false} EntersSnoc(c: seq<Twixt>, t: Twixt)
    ensures Enters(c + [t]) == [Enter(t)] + Enters(c)
    decreases |c|
  {
    if c == [] {
      assert c + [t] == [t];
    } else {
      assert (c + [t])[1..] == c[1..] + [t];
      EntersSnoc(c[1..], t);
    }
  }

  lemma {:induction false} UpToBelow(n: Twixt, at: Twixt)
    requires at.Valid() && n.Valid() && Encloses(n, at) && n != at
    ensures UpTo(n, at) == UpTo(Below(n, at), at) + [n]
    decreases at.depth
  {
    if at.up != n {
      var m := Below(n, at.up);
      UpToBelow(n, at.up);
      ChainDepth(m, at.up);
      assert m != at;
    } else {
      assert UpTo(n, at) == [at] + [n];
    }
  }

  lemma {:induction false} DownIs(n: Twixt, to: Twixt)
    requires to.Valid() && n.Valid() && Encloses(n, to)
    ensures GoingDown(n, to) == Enters(UpTo(n, to))
    decreases 1 + Depth(to) - n.depth
  {
    ChainDepth(n, to);
    if n == to {
      assert Enters([to]) == [] + [Enter(to)];
    } else {
      var m := Below(n, to);
      ChainDepth(m, to);
      DownIs(m, to);
      UpToBelow(n, to);
      EntersSnoc(UpTo(m, to), n);
    }
  }

  lemma {:induction false} OutsideBelow(p: Twixt?, at: Twixt?, from: Twixt?)
    requires Proper(at) && Proper(from) && Proper(p) && Splits(p, at, from)
    ensures Outside(Chain(at), from) == if at == p then [] else UpTo(Below(p, at), at)
    decreases Depth(at)
  {
    if at == p {
      OutsideNone(Chain(at), from);
    } else {
      OuterSplits(p, at, from);
      assert Chain(at)[1..] == Chain(at.up);
      OutsideBelow(p, at.up, from);
      if at.up != p {
        var m := Below(p, at.up);
        ChainDepth(m, at.up);
        assert m != at;
      } else {
        assert [at] + [] == [at];
      }
    }
  }

  lemma DownIsDue(p: Twixt?, to: Twixt?, from: Twixt?)
    requires Proper(to) && Proper(from) && Proper(p) && Splits(p, to, from)
    ensures GoingDown(Below(p, to), to) == Enters(Outside(Chain(to), from))
  {
    OutsideBelow(p, to, from);
    if to != p { DownIs(Below(p, to), to); }
  }

  // ----- the theorem -----

  /** The starting point lies in a block that is also around the target, but is not the target's own block. */
  ghost predicate StaysInside(from: Twixt?, to: Twixt?)
    requires Proper(to)
  {
    from != null && from != to && Encloses(from, to)
  }

  lemma {:induction false} CommonOfEnclosing(from: Twixt, to: Twixt)
    requires from.Valid() && to.Valid() && Encloses(from, to)
    ensures Common(from, to) == from
    decreases Depth(to)
  {
    if from != to {
      ChainDepth(from, to.up);
      CommonOfEnclosing(from, to.up);
    }
  }

  /**
   * A jump between different chains runs exactly the parts that are due, unless it goes from a block
   * deeper into that same block.
   */
  lemma JumpIsDue(from: Twixt?, to: Twixt?)
    requires Proper(from) && Proper(to) && from != to
    ensures Walk(from, to) == Due(from, to) <==> !StaysInside(from, to)
  {
    CommonSplits(from, to);
    CommonEncloses(from, to);
    var p := Common(from, to);
    DownIsDue(p, to, from);
    if StaysInside(from, to) {
      LeavesAll(from, to);
      forall t | t in Chain(from) ensures Encloses(t, to) { Within(t, from, to); }
      OutsideNone(Chain(from), to);
      assert Walk(from, to)[0] == Leave(from);
      EntersOnly(Outside(Chain(to), from));
      assert Due(from, to) == Enters(Outside(Chain(to), from));
    } else {
      assert from != null ==> from != p;
      UpIsDue(from, p, to);
    }
  }

  lemma {:induction false} EntersOnly(c: seq<Twixt>)
    ensures forall i :: 0 <= i < |Enters(c)| ==> Enters(c)[i].Enter?
    decreases |c|
  {
    if c != [] { EntersOnly(c[1..]); }
  }

  /** In that case the blocks around the starting point are all left, though the jump stays inside of them. */
  lemma LeavesAll(from: Twixt, to: Twixt)
    requires from.Valid() && to.Valid() && StaysInside(from, to)
    ensures Walk(from, to) == Leaves(Chain(from)) + Enters(Outside(Chain(to), from))
  {
    CommonOfEnclosing(from, to);
    CommonSplits(from, to);
    UpTooFar(from, from);
    DownIsDue(from, to, from);
  }

  // ----- jumps that only go up -----

  /** The block `n` levels up. */
  ghost function Up(t: Twixt?, n: nat): (r: Twixt?)
    requires Proper(t) && n <= Depth(t)
    ensures Proper(r) && Depth(r) == Depth(t) - n
    decreases n
  {
    if n == 0 then t else Up(t.up, n - 1)
  }

  lemma {:induction false} UpEncloses(t: Twixt?, n: nat)
    requires Proper(t) && n <= Depth(t)
    ensures var r := Up(t, n); r != null ==> Encloses(r, t)
    decreases n
  {
    if n > 0 { UpEncloses(t.up, n - 1); }
  }

  /** Break, continue, return and exceptions leave blocks and enter none, and that always goes right. */
  lemma FarJumpIsDue(from: Twixt?, n: nat)
    requires Proper(from) && 0 < n <= Depth(from)
    ensures Walk(from, Up(from, n)) == Due(from, Up(from, n)) == Leaves(Chain(from)[..n])
  {
    var to := Up(from, n);
    if StaysInside(from, to) { ChainDepth(from, to); }
    JumpIsDue(from, to);
    UpEncloses(from, n);
    FirstBlocks(from, n);
    forall t | t in Chain(to) ensures Encloses(t, from) { if to != null { Within(t, to, from); } }
    OutsideNone(Chain(to), from);
    assert Due(from, to) == Leaves(Outside(Chain(from), to)) + [];
  }

  lemma {:induction false} FirstBlocks(from: Twixt?, n: nat)
    requires Proper(from) && n <= Depth(from)
    ensures Outside(Chain(from), Up(from, n)) == Chain(from)[..n]
    decreases n
  {
    if n == 0 {
      forall t | t in Chain(from) ensures Encloses(t, from) {}
      OutsideNone(Chain(from), from);
    } else {
      FirstBlocks(from.up, n - 1);
      assert Chain(from)[1..] == Chain(from.up);
      if Encloses(from, Up(from, n)) { ChainDepth(from, Up(from, n)); }
      assert Chain(from)[..n] == [from] + Chain(from.up)[..n - 1];
    }
  }

  // ----- the thread -----

  /** A point to go on from: the blocks around it and a program counter. */
  datatype Continuation = Continuation(twixts: Twixt?, pc: nat)

  /** A jump under way: the next block to leave, the next to enter. */
  class Jump {
    var leave: Twixt?
    var entering: Twixt?
    const enter: Twixt?
    const parent: Twixt?
    const continuation: Continuation

    constructor (leave: Twixt?, enter: Twixt?, parent: Twixt?, continuation: Continuation, entering: Twixt?)
      ensures this.leave == leave && this.enter == enter && this.parent == parent
      ensures this.continuation == continuation && this.entering == entering
    {
      this.leave, this.enter, this.parent, this.continuation, this.entering := leave, enter, parent, continuation,
          entering;
    }

    ghost predicate Valid()
      reads this
    {
      Proper(leave) && Proper(enter) && (entering == null || Encloses(entering, enter)) && continuation.twixts == enter
    }

    /** What is still to happen. */
    ghost function Rest(): seq<Event>
      requires Valid()
      reads this
    {
      GoingUp(leave, parent) + GoingDown(entering, enter)
    }
  }

  lemma Joined(a: seq<Event>, b: seq<Event>, c: seq<Event>, bc: seq<Event>)
    requires bc == b + c
    ensures a + bc == (a + b) + c
  {
  }

  class Thread {
    var twixts: Twixt?
    var pc: nat
    var jump: Jump?

    constructor (twixts: Twixt?, pc: nat)
      ensures this.twixts == twixts && this.pc == pc && jump == null
    {
      this.twixts, this.pc, this.jump := twixts, pc, null;
    }

    /** Walk down the chain of `last` to the block below `t`. */
    static method TwixtNext(t: Twixt?, last: Twixt?) returns (n: Twixt?)
      requires Proper(last) && (t == null || Encloses(t, last))
      ensures n == Below(t, last)
    {
      if last == t { return null; }
      n := last;
      while n.up != t
        invariant n != null && n.Valid() && n != t && (t == null || Encloses(t, n)) && Below(t, n) == Below(t, last)
        decreases n.depth
      {
        n := n.up;
      }
    }

    /** Enter the blocks of the program: a new innermost block. */
    method OpTwixt(enter: nat, leave: nat)
      requires Proper(twixts)
      modifies this`twixts
      ensures Proper(twixts) && Chain(twixts) == [twixts] + old(Chain(twixts))
      ensures twixts.enter == enter && twixts.leave == leave
    {
      twixts := new Twixt(twixts, enter, leave);
    }

    method OpTwixtDone()
      requires twixts != null && twixts.Valid()
      modifies this`twixts
      ensures Proper(twixts) && Chain(twixts) == old(Chain(twixts))[1..]
    {
      twixts := twixts.up;
    }

    /**
     * The next leg of a jump: the leave part of a block, in the context of the block around it; the enter
     * part of a block, likewise; or the point the jump goes to.
     */
    method JumpContinue() returns (e: seq<Event>)
      requires jump != null && jump.Valid()
      modifies this, jump
      ensures jump == null || (jump == old(jump) && jump.Valid())
      ensures old(jump.Rest()) == e + if jump == null then [] else jump.Rest()
      ensures jump == null <==> e == []
      ensures
        if jump == null then old(jump.Rest()) == [] && twixts == old(jump).continuation.twixts &&
          pc == old(jump).continuation.pc
        else e == old(jump.Rest())[..1] && twixts == e[0].t.up && pc == if e[0].Leave? then e[0].t.leave
          else e[0].t.enter
    {
      NothingLeft();
      hide Below, Chain, Depth, GoingUp, GoingDown;
      if jump.leave != null {
        var twixt := jump.leave;
        FirstUp(twixt, jump.parent);
        twixts := twixt.up;
        pc := twixt.leave;
        jump.leave := twixt.up;
        if jump.leave == jump.parent { jump.leave := null; }
        e := [Leave(twixt)];
        assert old(jump.Rest()) == ([Leave(twixt)] + GoingUp(jump.leave, jump.parent)) +
          GoingDown(jump.entering, jump.enter);
      } else if jump.entering != null {
        var twixt := jump.entering;
        twixts := twixt.up;
        pc := twixt.enter;
        FirstDown(twixt, jump.enter);
        jump.entering := TwixtNext(jump.entering, jump.enter);
        e := [Enter(twixt)];
      } else {
        twixts := jump.continuation.twixts;
        pc := jump.continuation.pc;
        jump := null;
        e := [];
      }
    }

    /** Set up a jump to `to`, through the innermost block around both points. */
    method JumpStart(to: Continuation)
      requires Proper(twixts) && Proper(to.twixts) && twixts != to.twixts
      modifies this`jump
      ensures fresh(jump) && jump.Valid() && jump.Rest() == Walk(twixts, to.twixts) && jump.continuation == to
    {
      var leave, enter := twixts, to.twixts;
      var leaveParent, enterParent := leave, enter;
      while (if leaveParent == null then 0 else leaveParent.depth) > (if enterParent == null then 0
        else enterParent.depth)
        invariant Proper(leaveParent) && enterParent == enter &&
          Common(leaveParent, enterParent) == Common(leave, enter)
        decreases Depth(leaveParent)
      {
        leaveParent := leaveParent.up;
      }
      while (if enterParent == null then 0 else enterParent.depth) > (if leaveParent == null then 0
        else leaveParent.depth)
        invariant Proper(leaveParent) && Proper(enterParent) && Common(leaveParent, enterParent) == Common(leave, enter)
        invariant Depth(leaveParent) <= Depth(enterParent)
        decreases Depth(enterParent)
      {
        enterParent := enterParent.up;
      }
      while leaveParent != enterParent
        invariant Proper(leaveParent) && Proper(enterParent) && Depth(leaveParent) == Depth(enterParent)
        invariant Common(leaveParent, enterParent) == Common(leave, enter)
        decreases Depth(leaveParent)
      {
        leaveParent := leaveParent.up;
        enterParent := enterParent.up;
      }
      CommonEncloses(leave, enter);
      var entering := TwixtNext(enterParent, enter);
      jump := new Jump(leave, enter, enterParent, to, entering);
    }

    /** Go to `to`, running the leave and enter parts on the way, each to its end; `trace` tells which. */
    method ContinuationJump(to: Continuation) returns (trace: seq<Event>)
      requires Proper(twixts) && Proper(to.twixts) && jump == null
      modifies this
      ensures twixts == to.twixts && pc == to.pc && jump == null
      ensures trace == if old(twixts) == to.twixts then [] else Walk(old(twixts), to.twixts)
      ensures trace == Due(old(twixts), to.twixts) <==> !StaysInside(old(twixts), to.twixts)
    {
      hide Walk, Due, StaysInside, GoingUp, GoingDown, Chain;
      trace := [];
      if twixts == to.twixts {
        pc := to.pc;
        NothingDue(twixts);
        return;
      }
      JumpIsDue(twixts, to.twixts);
      JumpStart(to);
      trace := JumpRun(to);
    }

    /** Go on with the jump, leg by leg, until it is at its end. */
    method JumpRun(to: Continuation) returns (trace: seq<Event>)
      requires jump != null && jump.Valid() && jump.continuation == to
      modifies this, jump
      ensures jump == null && twixts == to.twixts && pc == to.pc && trace == old(jump.Rest())
    {
      trace := [];
      ghost var all, j := jump.Rest(), jump;
      hide *;
      assert all == [] + jump.Rest();
      while jump != null
        invariant jump == null || (jump == j && jump.Valid() && jump.continuation == to)
        invariant all == trace + if jump == null then [] else jump.Rest()
        invariant jump == null ==> twixts == to.twixts && pc == to.pc
        decreases if jump == null then 0 else 1 + |jump.Rest()|
      {
        ghost var before, rest := trace, jump.Rest();
        var e := JumpContinue();
        trace := trace + e;
        Joined(before, e, if jump == null then [] else jump.Rest(), rest);
      }
    }
  }

  lemma FirstUp(leave: Twixt, parent: Twixt?)
    requires leave.Valid()
    ensures
      var next := if leave.up == parent then null else leave.up;
      Proper(leave.up) && GoingUp(leave, parent) == [Leave(leave)] + GoingUp(next, parent)
  {
  }

  lemma FirstDown(entering: Twixt, enter: Twixt?)
    requires Proper(enter) && Encloses(entering, enter)
    ensures entering.Valid()
    ensures
      var next := Below(entering, enter);
      GoingDown(entering, enter) == [Enter(entering)] + GoingDown(next, enter)
  {
    ChainDepth(entering, enter);
  }

  lemma NothingLeft()
    ensures forall p: Twixt? :: GoingUp(null, p) == []
    ensures forall t: Twixt? :: Proper(t) ==> GoingDown(null, t) == []
  {
  }

  lemma NothingDue(t: Twixt?)
    requires Proper(t)
    ensures Due(t, t) == [] && !StaysInside(t, t)
  {
    forall x | x in Chain(t) ensures Encloses(x, t) {}
    OutsideNone(Chain(t), t);
  }
}
