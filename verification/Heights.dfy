/** The height of the value stack at every place of compiled code. */
module Heights {
  import opened Options
  import opened Values
  import opened Machine
  import opened Syntax
  import opened Codegen
  import Correctness

  // ----- places and heights -----

  /** How many values an instruction takes off the stack. */
  function Takes(op: Op): nat {
    match op
    case OpBin(_) => 1
    case OpAssign => 1
    case OpAssignOp(_) => 2
    case OpCall(argc) => argc
    case OpTailCall(argc) => argc
    case OpDrop => 1
    case _ => 0
  }

  /** How many it takes when it branches. */
  function TakesBranching(op: Op): nat {
    if op.OpCase? || op.OpDefault? then 1 else 0
  }

  predicate Leaves(op: Op) { op.OpReturn? || op.OpReturnVoid? || op.OpTailCall? }

  /** A break or continue that has no target yet. */
  predicate Open(i: Inst) { i.op.OpBranch? && i.op.mod != ModNone && i.op.offset == 0 }

  function One(b: bool): nat { if b then 1 else 0 }

  /** The heights `h` fit the instruction at `at` and the places it leads to. */
  ghost predicate Fits(i: Inst, at: int, h: seq<nat>)
    requires 0 <= at < |h|
  {
    && (Leaves(i.op) ==> !i.push && h[at] == Takes(i.op))
    && (Open(i) ==> !i.push && h[at] == 0)
    && (!IsUnconditional(i.op) ==>
          at + 1 < |h| && Takes(i.op) <= h[at] && h[at + 1] == h[at] - Takes(i.op) + One(i.push))
    && (IsBranch(i.op) && !Open(i) ==>
          && 0 <= at + i.op.offset < |h| && TakesBranching(i.op) <= h[at]
          && h[at + i.op.offset] == h[at] - TakesBranching(i.op) + One(i.push))
  }

  /** Heights for all places of the code and its end. */
  ghost predicate Leveled(c: Code, h: seq<nat>) {
    |h| == |c| + 1 && forall k :: 0 <= k < |c| ==> Fits(c[k], k, h)
  }

  /** From nothing on the stack to nothing. */
  ghost predicate Level(c: Code, h: seq<nat>) {
    Leveled(c, h) && h[0] == 0 && h[|c|] == 0
  }

  /** No instruction returns or waits for a target. */
  ghost predicate Plain(c: Code) {
    forall k :: 0 <= k < |c| ==> !Open(c[k]) && !Leaves(c[k].op)
  }

  /** The value comes from the last instruction on every path. */
  ghost predicate Closed(c: Code) {
    && c != [] && !c[|c| - 1].push && !IsBranch(c[|c| - 1].op)
    && forall k :: 0 <= k < |c| && IsBranch(c[k].op) ==> k + c[k].op.offset != |c|
  }

  /** Code of an expression. */
  ghost predicate ValueCode(c: Code, h: seq<nat>) {
    Level(c, h) && Plain(c) && Closed(c)
  }

  // ----- putting code together -----

  function Join(a: seq<nat>, b: seq<nat>): seq<nat>
    requires a != []
  {
    a[..|a| - 1] + b
  }

  function Lift(h: seq<nat>, k: nat): seq<nat> {
    seq(|h|, j requires 0 <= j < |h| => h[j] + k)
  }

  /** The instruction fits as well where its heights are part of more. */
  lemma FitsWithin(i: Inst, at: nat, h: seq<nat>, big: seq<nat>, off: nat)
    requires at < |h| && off + |h| <= |big| && (forall j :: 0 <= j < |h| ==> big[off + j] == h[j]) && Fits(i, at, h)
    ensures Fits(i, off + at, big)
  {
    assert big[off + at] == h[at];
    if !IsUnconditional(i.op) { assert big[off + (at + 1)] == h[at + 1]; }
    if IsBranch(i.op) && !Open(i) { assert big[off + (at + i.op.offset)] == h[at + i.op.offset]; }
  }

  /** The code fits the heights from `off` on. */
  ghost predicate FitsFrom(c: Code, off: nat, h: seq<nat>) {
    off + |c| < |h| && forall k :: 0 <= k < |c| ==> Fits(c[k], off + k, h)
  }

  lemma FitsConcat(a: Code, b: Code, off: nat, h: seq<nat>)
    requires FitsFrom(a, off, h) && FitsFrom(b, off + |a|, h)
    ensures FitsFrom(a + b, off, h)
  {
    forall k | 0 <= k < |a + b| ensures Fits((a + b)[k], off + k, h) {
      if k >= |a| { assert Fits(b[k - |a|], off + |a| + (k - |a|), h); }
    }
  }

  /** Code that fits its own heights fits them as part of more. */
  lemma CodeWithin(c: Code, h: seq<nat>, big: seq<nat>, off: nat)
    requires |c| < |h| && off + |h| <= |big| && big[off..off + |h|] == h && FitsFrom(c, 0, h)
    ensures FitsFrom(c, off, big)
  {
    hide Fits;
    forall j | 0 <= j < |h| ensures big[off + j] == h[j] { assert big[off..off + |h|][j] == h[j]; }
    forall k | 0 <= k < |c| ensures Fits(c[k], off + k, big) {
      assert Fits(c[k], 0 + k, h);
      FitsWithin(c[k], k, h, big, off);
    }
  }

  lemma Joined(a: Code, ha: seq<nat>, b: Code, hb: seq<nat>)
    requires Leveled(a, ha) && Leveled(b, hb) && ha[|a|] == hb[0]
    ensures Leveled(a + b, Join(ha, hb))
  {
    hide Fits;
    var h := Join(ha, hb);
    assert h[0..|ha|] == ha && h[|a|..|a| + |hb|] == hb;
    CodeWithin(a, ha, h, 0);
    CodeWithin(b, hb, h, |a|);
    FitsConcat(a, b, 0, h);
  }

  lemma Lifted(c: Code, h: seq<nat>, n: nat)
    requires Leveled(c, h) && Plain(c)
    ensures Leveled(c, Lift(h, n))
  {
    forall k | 0 <= k < |c| ensures Fits(c[k], k, Lift(h, n)) { assert Fits(c[k], k, h); }
  }

  /** With the last value pushed. */
  lemma Pushed(c: Code, h: seq<nat>)
    requires Leveled(c, h) && Plain(c) && Closed(c)
    ensures Leveled(SetPush(c), h[|c| := h[|c|] + 1]) && Plain(SetPush(c))
  {
    var d, g := SetPush(c), h[|c| := h[|c|] + 1];
    forall k | 0 <= k < |d| ensures Fits(d[k], k, g) {
      assert Fits(c[k], k, h) && !Leaves(c[k].op);
      if k < |c| - 1 { assert d[k] == c[k]; }
    }
    forall k | 0 <= k < |d| ensures !Open(d[k]) && !Leaves(d[k].op) { assert !Open(c[k]) && !Leaves(c[k].op); }
  }

  /** An instruction that takes nothing and branches between places of the same height. */
  lemma Branching(a: Code, ha: seq<nat>, i: Inst, b: Code, hb: seq<nat>)
    requires Leveled(a, ha) && Leveled(b, hb) && ha[|a|] == hb[0]
    requires IsBranch(i.op) && !i.push && !Open(i) && TakesBranching(i.op) == 0
    requires
      var h := Join(ha, [hb[0]] + hb);
      0 <= |a| + i.op.offset < |h| && h[|a| + i.op.offset] == hb[0]
    ensures Leveled(a + [i] + b, Join(ha, [hb[0]] + hb))
  {
    var c, h := a + [i] + b, Join(ha, [hb[0]] + hb);
    assert h[|a|] == hb[0] && h[|a| + 1] == hb[0];
    forall k | 0 <= k < |c| ensures Fits(c[k], k, h) {
      if k < |a| {
        FitsWithin(a[k], k, ha, h, 0);
      } else if k > |a| {
        FitsWithin(b[k - |a| - 1], k - |a| - 1, hb, h, |a| + 1);
      }
    }
  }

  lemma PlainConcat(a: Code, b: Code)
    requires Plain(a) && Plain(b)
    ensures Plain(a + b)
  {
  }

  lemma ClosedConcat(a: Code, ha: seq<nat>, b: Code)
    requires Leveled(a, ha) && Plain(a) && Closed(b)
    ensures Closed(a + b)
  {
    var c := a + b;
    forall k | 0 <= k < |c| && IsBranch(c[k].op) ensures k + c[k].op.offset != |c| {
      if k < |a| { assert Fits(a[k], k, ha) && !Open(a[k]); } else { assert c[k] == b[k - |a|]; }
    }
  }

  lemma Nothing()
    ensures Leveled([], [0]) && Level([], [0]) && Plain([])
  {
  }

  lemma Single(i: Inst, h: nat, g: nat)
    requires !IsBranch(i.op) && !Leaves(i.op) && Takes(i.op) <= h && g == h - Takes(i.op) + One(i.push)
    ensures Leveled([i], [h, g]) && Plain([i])
    ensures !i.push ==> Closed([i])
  {
  }

  // ----- expressions -----

  /** A value computed at height `n` and left there, or pushed. */
  lemma At0(c: Code, h: seq<nat>, n: nat) returns (g: seq<nat>)
    requires ValueCode(c, h)
    ensures Leveled(c, g) && g[0] == n && g[|c|] == n
  {
    Lifted(c, h, n);
    g := Lift(h, n);
  }

  lemma PushAt(c: Code, h: seq<nat>, n: nat) returns (g: seq<nat>)
    requires ValueCode(c, h)
    ensures Leveled(SetPush(c), g) && g[0] == n && g[|c|] == n + 1 && Plain(SetPush(c))
  {
    Lifted(c, h, n);
    Pushed(c, Lift(h, n));
    g := Lift(h, n)[|c| := n + 1];
  }

  /** Code that leaves a value, after code that prepares for it. */
  lemma ValueEnd(a: Code, ha: seq<nat>, b: Code, hb: seq<nat>)
    requires Leveled(a, ha) && Leveled(b, hb) && Plain(a) && Plain(b) && Closed(b) && ha[|a|] == hb[0]
    requires ha[0] == 0 && hb[|b|] == 0
    ensures ValueCode(a + b, Join(ha, hb))
  {
    Joined(a, ha, b, hb);
    PlainConcat(a, b);
    ClosedConcat(a, ha, b);
    JoinEnds(ha, hb);
  }

  lemma JoinEnds(ha: seq<nat>, hb: seq<nat>)
    requires ha != [] && hb != [] && ha[|ha| - 1] == hb[0]
    ensures Join(ha, hb)[0] == ha[0] && Join(ha, hb)[|ha| + |hb| - 2] == hb[|hb| - 1]
  {
  }

  lemma UnaryHeights(a: Code, ha: seq<nat>, op: Op) returns (h: seq<nat>)
    requires ValueCode(a, ha) && op.OpUn?
    ensures ValueCode(a + [I(op)], h)
  {
    Single(I(op), 0, 0);
    ValueEnd(a, ha, [I(op)], [0, 0]);
    h := Join(ha, [0, 0]);
  }

  lemma BinaryHeights(a: Code, ha: seq<nat>, b: Code, hb: seq<nat>, op: Op) returns (h: seq<nat>)
    requires ValueCode(a, ha) && ValueCode(b, hb) && op.OpBin?
    ensures ValueCode(SetPush(a) + b + [I(op)], h)
  {
    var ga := PushAt(a, ha, 0);
    var gb := At0(b, hb, 1);
    Joined(SetPush(a), ga, b, gb);
    PlainConcat(SetPush(a), b);
    JoinEnds(ga, gb);
    Single(I(op), 1, 0);
    ValueEnd(SetPush(a) + b, Join(ga, gb), [I(op)], [1, 0]);
    h := Join(Join(ga, gb), [1, 0]);
  }

  /** Two arms behind a test, with the branches around them; all ends at height zero. */
  lemma ArmsHeights(t: Code, ht: seq<nat>, x: Code, hx: seq<nat>, y: Code, hy: seq<nat>, tail: Code, hl: seq<nat>)
    returns (h: seq<nat>)
    requires Level(t, ht) && Level(x, hx) && Level(y, hy) && Level(tail, hl)
    ensures Level(t + [I(OpBranchFalse(|x| + 2))] + x + [I(OpBranch(|y| + 1, ModNone))] + y + tail, h)
  {
    var bf, br := I(OpBranchFalse(|x| + 2)), I(OpBranch(|y| + 1, ModNone));
    Joined(y, hy, tail, hl);
    var h1 := Join(hy, hl);
    assert h1[|y|] == 0 && h1[0] == 0 && |h1| == |y| + |tail| + 1;
    var h2 := Join(hx, [0] + h1);
    assert h2[|x| + 1 + |y|] == h1[|y|];
    Branching(x, hx, br, y + tail, h1);
    assert h2[|x| + 1] == h1[0] && h2[0] == 0;
    h := Join(ht, [0] + h2);
    assert h[|t| + 1 + |x| + 1] == h2[|x| + 1];
    Branching(t, ht, bf, x + [br] + (y + tail), h2);
    assert t + [bf] + (x + [br] + (y + tail)) == t + [bf] + x + [br] + y + tail;
  }

  /** Something skipped by a branch in front of it. */
  lemma SkipHeights(a: Code, ha: seq<nat>, op: Op, b: Code, hb: seq<nat>) returns (h: seq<nat>)
    requires Level(a, ha) && Level(b, hb) && (op.OpBranchFalse? || op.OpBranchTrue?) && op.offset == |b| + 1
    ensures Level(a + [I(op)] + b, h)
  {
    h := Join(ha, [0] + hb);
    assert h[|a| + 1 + |b|] == hb[|b|];
    Branching(a, ha, I(op), b, hb);
  }

  lemma PlainBranch(a: Code, i: Inst, b: Code)
    requires Plain(a) && Plain(b) && !Open(i) && !Leaves(i.op)
    ensures Plain(a + [i] + b)
  {
  }

  /** With a last instruction that does nothing, code that ends at height zero leaves a value. */
  lemma NoopHeights(c: Code, h: seq<nat>) returns (g: seq<nat>)
    requires Level(c, h) && Plain(c)
    ensures ValueCode(c + [I(OpNoop)], g)
  {
    Single(I(OpNoop), 0, 0);
    ValueEnd(c, h, [I(OpNoop)], [0, 0]);
    g := Join(h, [0, 0]);
  }

  lemma AssignIfHeights(lv: Lval, c: Code, hc: seq<nat>, sense: bool) returns (h: seq<nat>)
    requires ValueCode(c, hc)
    ensures ValueCode(AssignIfCode(lv, c, sense), h)
  {
    var front, tail := [P(RefOp(lv)), I(OpFetch)], [I(Op.OpAssign), I(OpBranch(2, ModNone)), I(OpDrop)];
    var br := I(if sense then OpBranchFalse(|c| + 1) else OpBranchTrue(|c| + 1));
    assert Leveled(front, [0, 1, 1]) && Plain(front);
    TailHeights();
    var g := At0(c, hc, 1);
    var noop := [I(OpNoop)];
    var ht := [1, 0, 1, 0, 0];
    Joined(c, g, tail + noop, ht);
    var h1 := Join(g, ht);
    assert h1[0] == 1 && h1[|c|] == 1;
    h := Join([0, 1, 1], [1] + h1);
    assert h[2 + |c| + 1] == h1[|c|];
    Branching(front, [0, 1, 1], br, c + (tail + noop), h1);
    var all := front + [br] + (c + (tail + noop));
    assert all == AssignIfCode(lv, c, sense);
    PlainConcat(c, tail + noop);
    PlainBranch(front, br, c + (tail + noop));
    assert h[|all|] == 0 && h[0] == 0;
    AssignIfClosed(lv, c, hc, sense);
  }

  lemma TailHeights()
    ensures
      var tail := [I(Op.OpAssign), I(OpBranch(2, ModNone)), I(OpDrop)] + [I(OpNoop)];
      Leveled(tail, [1, 0, 1, 0, 0]) && Plain(tail)
  {
  }

  lemma AssignIfClosed(lv: Lval, c: Code, hc: seq<nat>, sense: bool)
    requires ValueCode(c, hc)
    ensures Closed(AssignIfCode(lv, c, sense))
  {
    var all := AssignIfCode(lv, c, sense);
    forall k | 0 <= k < |all| && IsBranch(all[k].op) ensures k + all[k].op.offset != |all| {
      if 3 <= k < 3 + |c| { assert Fits(c[k - 3], k - 3, hc) && !Open(c[k - 3]); }
    }
  }

  lemma {:induction false} ExprHeights(pr: Prims, e: Expr) returns (h: seq<nat>)
    ensures ValueCode(ExprCode(pr, e), h)
    decreases e, 0
  {
    hide ValueCode, AssignIfCode;
    match e
    case Const(v) => h := SingleValue(I(OpConst(v)));
    case Var(lv) => h := SingleValue(I(LoadOp(lv)));
    case Unary(op, a) =>
      var ha := ExprHeights(pr, a);
      if IsConst(ExprCode(pr, a)) {
        h := SingleValue(ExprCode(pr, e)[0]);
      } else {
        h := UnaryHeights(ExprCode(pr, a), ha, OpUn(op));
      }
    case Binary(op, l, r) =>
      var ha := ExprHeights(pr, l);
      var hb := ExprHeights(pr, r);
      if IsConst(ExprCode(pr, l)) && IsConst(ExprCode(pr, r)) {
        h := SingleValue(ExprCode(pr, e)[0]);
      } else {
        h := BinaryHeights(ExprCode(pr, l), ha, ExprCode(pr, r), hb, OpBin(op));
      }
    case Quest(t, y, n) =>
      var hc := ExprHeights(pr, t);
      var ha := ExprHeights(pr, y);
      var hb := ExprHeights(pr, n);
      if IsConst(ExprCode(pr, t)) {
        h := if IsTrue(ExprCode(pr, t)) then ha else hb;
      } else {
        h := QuestHeights(ExprCode(pr, t), hc, ExprCode(pr, y), ha, ExprCode(pr, n), hb);
      }
    case And(l, r) => h := ShortHeights(pr, e, l, r, true);
    case Or(l, r) => h := ShortHeights(pr, e, l, r, false);
    case Assign(lv, r) =>
      var hr := ExprHeights(pr, r);
      h := AssignHeights(P(RefStoreOp(lv)), ExprCode(pr, r), hr);
    case AssignOp(lv, op, r) =>
      var hr := ExprHeights(pr, r);
      h := AssignOpHeights(P(RefOp(lv)), ExprCode(pr, r), hr, op);
    case AssignAnd(lv, r) =>
      var hr := ExprHeights(pr, r);
      h := AssignIfHeights(lv, ExprCode(pr, r), hr, true);
    case AssignOr(lv, r) =>
      var hr := ExprHeights(pr, r);
      h := AssignIfHeights(lv, ExprCode(pr, r), hr, false);
    case IncDec(lv, op, pre) => h := IncDecHeights(I(RefOp(lv)), if pre then OpPre(op) else OpPost(op));
    case Comma(l, r) =>
      var ha := ExprHeights(pr, l);
      var hb := ExprHeights(pr, r);
      h := CommaHeights(ExprCode(pr, l), ha, ExprCode(pr, r), hb);
    case Call(f, args, _) =>
      var hf := ExprHeights(pr, f);
      var hp := PrefixHeights(pr, ExprCode(pr, f), hf, args, 0);
      h := CallHeights(CallPrefix(pr, ExprCode(pr, f), args), hp, Length(args));
  }

  lemma SingleValue(i: Inst) returns (h: seq<nat>)
    requires !IsBranch(i.op) && !Leaves(i.op) && Takes(i.op) == 0 && !i.push
    ensures ValueCode([i], h)
  {
    Single(i, 0, 0);
    h := [0, 0];
  }

  lemma QuestHeights(t: Code, ht: seq<nat>, x: Code, hx: seq<nat>, y: Code, hy: seq<nat>) returns (h: seq<nat>)
    requires ValueCode(t, ht) && ValueCode(x, hx) && ValueCode(y, hy)
    ensures ValueCode(t + [I(OpBranchFalse(|x| + 2))] + x + [I(OpBranch(|y| + 1, ModNone))] + y + [I(OpNoop)], h)
  {
    var bf, br := I(OpBranchFalse(|x| + 2)), I(OpBranch(|y| + 1, ModNone));
    Nothing();
    var g := ArmsHeights(t, ht, x, hx, y, hy, [], [0]);
    var arms := t + [bf] + x + [br] + y;
    assert arms + [] == arms;
    PlainBranch(x, br, y);
    PlainBranch(t, bf, x + [br] + y);
    assert arms == t + [bf] + (x + [br] + y);
    h := NoopHeights(arms, g);
  }

  lemma {:induction false} ShortHeights(pr: Prims, e: Expr, l: Expr, r: Expr, sense: bool) returns (h: seq<nat>)
    requires e == if sense then And(l, r) else Or(l, r)
    ensures ValueCode(ExprCode(pr, e), h)
    decreases e, -1
  {
    var ha := ExprHeights(pr, l);
    var hb := ExprHeights(pr, r);
    h := ShortValue(ExprCode(pr, l), ha, ExprCode(pr, r), hb, sense);
  }

  lemma ShortValue(a: Code, ha: seq<nat>, b: Code, hb: seq<nat>, sense: bool) returns (h: seq<nat>)
    requires ValueCode(a, ha) && ValueCode(b, hb)
    ensures
      var op := if sense then OpBranchFalse(|b| + 1) else OpBranchTrue(|b| + 1);
      ValueCode(if IsConst(a) then if IsTrue(a) == sense then b else a else a + [I(op)] + b + [I(OpNoop)], h)
  {
    hide Fits;
    if IsConst(a) {
      h := if IsTrue(a) == sense then hb else ha;
    } else {
      var op := if sense then OpBranchFalse(|b| + 1) else OpBranchTrue(|b| + 1);
      var g := SkipHeights(a, ha, op, b, hb);
      PlainBranch(a, I(op), b);
      h := NoopHeights(a + [I(op)] + b, g);
    }
  }

  lemma AssignHeights(ref: Inst, c: Code, hc: seq<nat>) returns (h: seq<nat>)
    requires ValueCode(c, hc) && ref.push && !IsBranch(ref.op) && !Leaves(ref.op) && Takes(ref.op) == 0
    ensures ValueCode([ref] + c + [I(Op.OpAssign)], h)
  {
    Single(ref, 0, 1);
    var g := At0(c, hc, 1);
    Joined([ref], [0, 1], c, g);
    PlainConcat([ref], c);
    JoinEnds([0, 1], g);
    Single(I(Op.OpAssign), 1, 0);
    ValueEnd([ref] + c, Join([0, 1], g), [I(Op.OpAssign)], [1, 0]);
    h := Join(Join([0, 1], g), [1, 0]);
  }

  lemma AssignOpHeights(ref: Inst, c: Code, hc: seq<nat>, op: nat) returns (h: seq<nat>)
    requires ValueCode(c, hc) && ref.push && !IsBranch(ref.op) && !Leaves(ref.op) && Takes(ref.op) == 0
    ensures ValueCode([ref, P(OpFetch)] + c + [I(OpAssignOp(op))], h)
  {
    assert Leveled([ref, P(OpFetch)], [0, 1, 2]) && Plain([ref, P(OpFetch)]);
    var g := At0(c, hc, 2);
    Joined([ref, P(OpFetch)], [0, 1, 2], c, g);
    PlainConcat([ref, P(OpFetch)], c);
    JoinEnds([0, 1, 2], g);
    Single(I(OpAssignOp(op)), 2, 0);
    ValueEnd([ref, P(OpFetch)] + c, Join([0, 1, 2], g), [I(OpAssignOp(op))], [2, 0]);
    h := Join(Join([0, 1, 2], g), [2, 0]);
  }

  lemma IncDecHeights(ref: Inst, op: Op) returns (h: seq<nat>)
    requires !ref.push && !IsBranch(ref.op) && !Leaves(ref.op) && Takes(ref.op) == 0 && (op.OpPre? || op.OpPost?)
    ensures ValueCode([ref, I(op)], h)
  {
    h := [0, 0, 0];
  }

  lemma CommaHeights(a: Code, ha: seq<nat>, b: Code, hb: seq<nat>) returns (h: seq<nat>)
    requires ValueCode(a, ha) && ValueCode(b, hb)
    ensures ValueCode((if IsConst(a) then [] else a) + b, h)
  {
    if IsConst(a) {
      assert [] + b == b;
      h := hb;
    } else {
      ValueEnd(a, ha, b, hb);
      h := Join(ha, hb);
    }
  }

  /** Behind code that leaves a value at height `n`: one value more is pushed for each argument. */
  lemma {:induction false} PrefixHeights(pr: Prims, c: Code, hc: seq<nat>, args: Exprs, n: nat) returns (h: seq<nat>)
    requires ValueCode(c, hc)
    ensures Leveled(CallPrefix(pr, c, args), h) && Plain(CallPrefix(pr, c, args))
    ensures h[0] == n && h[|CallPrefix(pr, c, args)|] == n + Length(args)
    decreases args, 1
  {
    match args
    case NoArgs => h := At0(c, hc, n);
    case Arg(e, tl) =>
      var g := PushAt(c, hc, n);
      var he := ExprHeights(pr, e);
      var ht := PrefixHeights(pr, ExprCode(pr, e), he, tl, n + 1);
      Joined(SetPush(c), g, CallPrefix(pr, ExprCode(pr, e), tl), ht);
      PlainConcat(SetPush(c), CallPrefix(pr, ExprCode(pr, e), tl));
      JoinEnds(g, ht);
      h := Join(g, ht);
  }

  lemma CallHeights(c: Code, hc: seq<nat>, argc: nat) returns (h: seq<nat>)
    requires Leveled(c, hc) && Plain(c) && hc[0] == 0 && hc[|c|] == argc
    ensures ValueCode(c + [I(OpCall(argc)), I(OpNoop)], h)
  {
    var call := [I(OpCall(argc)), I(OpNoop)];
    assert Leveled(call, [argc, 0, 0]) && Plain(call) && Closed(call);
    ValueEnd(c, hc, call, [argc, 0, 0]);
    h := Join(hc, [argc, 0, 0]);
  }

  // ----- statements -----

  lemma Sequence(a: Code, ha: seq<nat>, b: Code, hb: seq<nat>)
    requires Level(a, ha) && Level(b, hb)
    ensures ha != [] && Level(a + b, Join(ha, hb))
  {
    Joined(a, ha, b, hb);
    JoinEnds(ha, hb);
  }

  /** The heights of statement code do not depend on how it is found that there are any. */
  ghost function HeightsOf(c: Code): (h: seq<nat>)
    ensures h != [] && ((exists g :: Level(c, g)) ==> Level(c, h))
  {
    if exists g :: Level(c, g) then
      var g :| Level(c, g);
      g
    else [0]
  }

  /** A break or continue is directed to a place with an empty stack. */
  lemma Directed(i: Inst, at: nat, h: seq<nat>, brk: Target, cont: Target)
    requires at < |h| && Fits(i, at, h)
    requires brk.At? ==> 0 <= brk.i < |h| && h[brk.i] == 0
    requires cont.At? ==> 0 <= cont.i < |h| && h[cont.i] == 0
    ensures Fits(Resolve(i, at, brk, cont), at, h)
  {
  }

  lemma PatchFits(x: Code, h: seq<nat>, brk: Target, cont: Target)
    requires FitsFrom(x, 0, h)
    requires brk.At? ==> 0 <= brk.i < |h| && h[brk.i] == 0
    requires cont.At? ==> 0 <= cont.i < |h| && h[cont.i] == 0
    ensures FitsFrom(Patch(x, brk, cont), 0, h)
  {
    hide Fits, Resolve;
    forall k | 0 <= k < |x| ensures Fits(Patch(x, brk, cont)[k], 0 + k, h) {
      assert Fits(x[k], 0 + k, h);
      Directed(x[k], k, h, brk, cont);
    }
  }

  /** A loop: a body, its open branches directed behind it, more code, and the branch back. */
  lemma LoopHeights(x: Code, hx: seq<nat>, b: Code, hb: seq<nat>, brk: Target, cont: Target, back: Inst)
    returns (h: seq<nat>)
    requires Level(x, hx) && Level(b, hb) && !back.push && !Open(back)
    requires back.op == OpBranchTrue(-(|x| + |b|)) || back.op == OpBranch(-(|x| + |b|), ModNone)
    requires brk == At(|x| + |b| + 1) && cont == At(|x|)
    ensures Level(Patch(x, brk, cont) + b + [back], h) && forall j :: 0 <= j <= |b| ==> h[|x| + j] == hb[j]
  {
    var y := Patch(x, brk, cont);
    var c := y + b + [back];
    h := Join(Join(hx, hb), [0, 0]);
    assert h[0] == 0 && h[|x|] == 0 && h[|x| + |b|] == 0 && h[|x| + |b| + 1] == 0;
    assert FitsFrom([back], |x| + |b|, h);
    hide Fits, Patch;
    assert h[0..|hx|] == hx && h[|x|..|x| + |hb|] == hb;
    CodeWithin(x, hx, h, 0);
    PatchFits(x, h, brk, cont);
    CodeWithin(b, hb, h, |x|);
    FitsConcat(y, b, 0, h);
    FitsConcat(y + b, [back], 0, h);
    FitsLeveled(c, h);
  }

  /** A body whose open branches are directed to its end. */
  lemma PatchedHeights(x: Code, hx: seq<nat>, cont: Target)
    requires Level(x, hx) && (cont == At(|x|) || cont == Keep)
    ensures Level(Patch(x, At(|x|), cont), hx)
  {
    PatchFits(x, hx, At(|x|), cont);
    FitsLeveled(Patch(x, At(|x|), cont), hx);
  }

  /** A branch in front of a loop that enters it behind its body. */
  lemma EntryHeights(loop: Code, h: seq<nat>, at: nat) returns (g: seq<nat>)
    requires Level(loop, h) && at <= |loop| && h[at] == 0
    ensures Level([I(OpBranch(at + 1, ModNone))] + loop, g)
  {
    Nothing();
    g := Join([0], [0] + h);
    assert g[at + 1] == h[at];
    Branching([], [0], I(OpBranch(at + 1, ModNone)), loop, h);
    assert [] + [I(OpBranch(at + 1, ModNone))] + loop == [I(OpBranch(at + 1, ModNone))] + loop;
  }

  lemma {:induction false} StmtHeights(pr: Prims, s: Stmt, inner: bool) returns (h: seq<nat>)
    ensures Level(StmtCode(pr, s, inner), h)
    decreases s, 1
  {
    hide Level, ValueCode, Patch, ReachesEnd, SetPush, ExprCode, ForCode, OptCode, BlockCode, ArmsCode, TestsCode;
    match s
    case If(_, a) =>
      var ha := StmtHeights(pr, a, inner);
      h := IfHeights(pr, s, inner, ha);
    case IfElse(_, a, b) =>
      var ha := StmtHeights(pr, a, inner);
      var hb := StmtHeights(pr, b, inner);
      h := IfElseHeights(pr, s, inner, ha, hb);
    case While(t, b) =>
      var ht := TestHeights(pr, t);
      var hb := StmtHeights(pr, b, true);
      h := WhileHeights(ExprCode(pr, t), ht, StmtCode(pr, b, true), hb);
    case DoWhile(b, t) =>
      var ht := TestHeights(pr, t);
      var hb := StmtHeights(pr, b, true);
      h := DoHeights(ExprCode(pr, t), ht, StmtCode(pr, b, true), hb);
    case For(_, _, _, b) =>
      var hb := StmtHeights(pr, b, true);
      h := ForStmtHeights(pr, s, inner, hb);
    case Switch(e, cs) =>
      ArmsLevel(pr, cs);
      h := SwitchHeights(pr, s, inner);
    case Break => h := OpenHeights(ModBreak);
    case Continue => h := OpenHeights(ModContinue);
    case Return(e) => h := ReturnHeights(pr, e, inner);
    case ReturnVoid => h := VoidHeights();
    case ExprStat(e) => h := TestHeights(pr, e);
    case Semi => Empty(); h := [0];
    case Block(ss) => h := BlockHeights(pr, ss, inner);
  }

  lemma IfHeights(pr: Prims, s: Stmt, inner: bool, ha: seq<nat>) returns (h: seq<nat>)
    requires s.If? && Level(StmtCode(pr, s.then_, inner), ha)
    ensures Level(StmtCode(pr, s, inner), h)
  {
    var t, a := ExprCode(pr, s.test), StmtCode(pr, s.then_, inner);
    var ht := TestHeights(pr, s.test);
    Empty();
    hide Level, ExprCode;
    if IsConst(t) {
      h := if IsTrue(t) then ha else [0];
    } else {
      h := SkipHeights(t, ht, OpBranchFalse(|a| + 1), a, ha);
    }
  }

  lemma IfElseHeights(pr: Prims, s: Stmt, inner: bool, ha: seq<nat>, hb: seq<nat>) returns (h: seq<nat>)
    requires s.IfElse? && Level(StmtCode(pr, s.then_, inner), ha) && Level(StmtCode(pr, s.else_, inner), hb)
    ensures Level(StmtCode(pr, s, inner), h)
  {
    var t := ExprCode(pr, s.test);
    var ht := TestHeights(pr, s.test);
    hide Level, ExprCode, ReachesEnd;
    if IsConst(t) {
      h := if IsTrue(t) then ha else hb;
    } else {
      h := ElseHeights(t, ht, StmtCode(pr, s.then_, inner), ha, StmtCode(pr, s.else_, inner), hb);
    }
  }

  lemma ForStmtHeights(pr: Prims, s: Stmt, inner: bool, hb: seq<nat>) returns (h: seq<nat>)
    requires s.For? && Level(StmtCode(pr, s.body, true), hb)
    ensures Level(StmtCode(pr, s, inner), h)
  {
    var hi := OptHeights(pr, s.init);
    var hc := OptHeights(pr, s.cond);
    var hn := OptHeights(pr, s.step);
    var c, n, x := OptCode(pr, s.cond), OptCode(pr, s.step), StmtCode(pr, s.body, true);
    hide Level, OptCode, ForCode;
    var g := ForHeights(c, hc, n, hn, x, hb, s.cond.Some?);
    Sequence(OptCode(pr, s.init), hi, ForCode(c, n, x, s.cond.Some?), g);
    h := Join(hi, g);
  }

  lemma Empty()
    ensures Level([], [0])
  {
  }

  lemma TestHeights(pr: Prims, e: Expr) returns (h: seq<nat>)
    ensures Level(ExprCode(pr, e), h)
  {
    h := ExprHeights(pr, e);
  }

  lemma OptHeights(pr: Prims, e: Option<Expr>) returns (h: seq<nat>)
    ensures Level(OptCode(pr, e), h)
  {
    Empty();
    if e.Some? { h := TestHeights(pr, e.value); } else { h := [0]; }
  }

  lemma OpenHeights(mod: BranchMod) returns (h: seq<nat>)
    requires mod != ModNone
    ensures Level([I(OpBranch(0, mod))], h)
  {
    h := [0, 0];
  }

  lemma VoidHeights() returns (h: seq<nat>)
    ensures Level([I(Op.OpReturnVoid)], h)
  {
    h := [0, 0];
  }

  lemma ReturnHeights(pr: Prims, e: Expr, inner: bool) returns (h: seq<nat>)
    ensures Level(StmtCode(pr, Return(e), inner), h)
  {
    hide Level, Leveled, ValueCode;
    if e.Call? && e.typed && !inner {
      var hf := ExprHeights(pr, e.fn);
      var hp := PrefixHeights(pr, ExprCode(pr, e.fn), hf, e.args, 0);
      h := TailCallHeights(CallPrefix(pr, ExprCode(pr, e.fn), e.args), hp, Length(e.args));
    } else {
      var he := TestHeights(pr, e);
      h := ValueReturned(ExprCode(pr, e), he);
    }
  }

  lemma TailCallHeights(c: Code, hc: seq<nat>, n: nat) returns (h: seq<nat>)
    requires Leveled(c, hc) && hc[0] == 0 && hc[|c|] == n
    ensures Level(c + [I(OpTailCall(n))], h)
  {
    assert Leveled([I(OpTailCall(n))], [n, 0]);
    Joined(c, hc, [I(OpTailCall(n))], [n, 0]);
    JoinEnds(hc, [n, 0]);
    h := Join(hc, [n, 0]);
  }

  lemma ValueReturned(c: Code, hc: seq<nat>) returns (h: seq<nat>)
    requires Level(c, hc)
    ensures Level(c + [I(Op.OpReturn)], h)
  {
    assert Level([I(Op.OpReturn)], [0, 0]);
    Sequence(c, hc, [I(Op.OpReturn)], [0, 0]);
    h := Join(hc, [0, 0]);
  }

  lemma ElseHeights(c: Code, hc: seq<nat>, x: Code, hx: seq<nat>, y: Code, hy: seq<nat>) returns (h: seq<nat>)
    requires Level(c, hc) && Level(x, hx) && Level(y, hy)
    ensures
      var skip := if ReachesEnd(x) then [I(OpBranch(|y| + 1, ModNone))] else [];
      Level(c + [I(OpBranchFalse(|x| + |skip| + 1))] + x + skip + y, h)
  {
    Nothing();
    if ReachesEnd(x) {
      h := ArmsHeights(c, hc, x, hx, y, hy, [], [0]);
      var all := c + [I(OpBranchFalse(|x| + 2))] + x + [I(OpBranch(|y| + 1, ModNone))] + y;
      assert all + [] == all;
    } else {
      var bf := I(OpBranchFalse(|x| + 0 + 1));
      Sequence(x, hx, y, hy);
      var g := Join(hx, hy);
      h := Join(hc, [0] + g);
      assert g[|x|] == 0;
      assert h[|c| + 1 + |x|] == g[|x|];
      Branching(c, hc, bf, x + y, g);
      JoinEnds(hc, [0] + g);
      assert c + [bf] + (x + y) == c + [bf] + x + [] + y;
    }
  }

  lemma WhileHeights(c: Code, hc: seq<nat>, x: Code, hx: seq<nat>) returns (h: seq<nat>)
    requires Level(c, hc) && Level(x, hx)
    ensures Level(
      if IsConst(c) then
        if IsTrue(c) then Patch(x, At(|x| + 1), At(|x|)) + [I(OpBranch(-|x|, ModNone))] else []
      else
        [I(OpBranch(|x| + 1, ModNone))] + Patch(x, At(|x| + |c| + 1), At(|x|)) + c +
        [I(OpBranchTrue(-(|x| + |c|)))], h)
  {
    Empty();
    if !IsConst(c) {
      var entry, body, back := [I(OpBranch(|x| + 1, ModNone))], Patch(x, At(|x| + |c| + 1), At(|x|)),
        [I(OpBranchTrue(-(|x| + |c|)))];
      var g := LoopHeights(x, hx, c, hc, At(|x| + |c| + 1), At(|x|), back[0]);
      assert g[|x| + 0] == hc[0];
      h := EntryHeights(body + c + back, g, |x|);
      assert entry + (body + c + back) == entry + body + c + back;
    } else if IsTrue(c) {
      h := EndlessHeights(x, hx);
    } else {
      h := [0];
    }
  }

  lemma EndlessHeights(x: Code, hx: seq<nat>) returns (h: seq<nat>)
    requires Level(x, hx)
    ensures Level(Patch(x, At(|x| + 1), At(|x|)) + [I(OpBranch(-|x|, ModNone))], h)
  {
    Nothing();
    var body, back := Patch(x, At(|x| + 1), At(|x|)), [I(OpBranch(-|x|, ModNone))];
    h := LoopHeights(x, hx, [], [0], At(|x| + 1), At(|x|), back[0]);
    assert body + [] + back == body + back;
  }

  lemma DoHeights(c: Code, hc: seq<nat>, x: Code, hx: seq<nat>) returns (h: seq<nat>)
    requires Level(c, hc) && Level(x, hx)
    ensures
      var test := if !IsConst(c) then c + [I(OpBranchTrue(-(|x| + |c|)))]
                  else if IsTrue(c) then [I(OpBranch(-|x|, ModNone))]
                  else [];
      Level(Patch(x, At(|x| + |test|), At(|x|)) + test, h)
  {
    if !IsConst(c) {
      var body, back := Patch(x, At(|x| + |c| + 1), At(|x|)), [I(OpBranchTrue(-(|x| + |c|)))];
      h := LoopHeights(x, hx, c, hc, At(|x| + |c| + 1), At(|x|), back[0]);
      assert body + c + back == body + (c + back);
    } else if IsTrue(c) {
      h := EndlessHeights(x, hx);
    } else {
      PatchedHeights(x, hx, At(|x|));
      var body := Patch(x, At(|x|), At(|x|));
      assert body + [] == body;
      h := hx;
    }
  }

  lemma ForHeights(c: Code, hc: seq<nat>, n: Code, hn: seq<nat>, x: Code, hx: seq<nat>, hasCond: bool)
    returns (h: seq<nat>)
    requires Level(c, hc) && Level(n, hn) && Level(x, hx)
    ensures Level(ForCode(c, n, x, hasCond), h)
  {
    Empty();
    if hasCond && IsConst(c) && !IsTrue(c) {
      h := [0];
    } else if !hasCond || IsConst(c) {
      var entry, back := [I(OpBranch(|x| + |n| + 1, ModNone))], [I(OpBranch(-(|x| + |n|), ModNone))];
      var body := Patch(x, At(|x| + |n| + 1), At(|x|));
      h := LoopHeights(x, hx, n, hn, At(|x| + |n| + 1), At(|x|), back[0]);
      if hasCond {
        var g := h;
        assert g[|x| + |n|] == hn[|n|];
        h := EntryHeights(body + n + back, g, |x| + |n|);
        assert entry + (body + n + back) == entry + body + n + back;
      }
    } else {
      var entry, back := [I(OpBranch(|x| + |n| + 1, ModNone))], [I(OpBranchTrue(-(|x| + |n| + |c|)))];
      var body := Patch(x, At(|x| + |n| + |c| + 1), At(|x|));
      Sequence(n, hn, c, hc);
      var g := LoopHeights(x, hx, n + c, Join(hn, hc), At(|x| + |n| + |c| + 1), At(|x|), back[0]);
      assert body + (n + c) + back == body + n + c + back;
      assert g[|x| + |n|] == Join(hn, hc)[|n|];
      h := EntryHeights(body + n + c + back, g, |x| + |n|);
      assert entry + (body + n + c + back) == entry + body + n + c + back;
    }
  }

  lemma {:induction false} BlockHeights(pr: Prims, ss: Stmts, inner: bool) returns (h: seq<nat>)
    ensures Level(BlockCode(pr, ss, inner), h)
    decreases ss, 0
  {
    Empty();
    match ss
    case Nil => h := [0];
    case Cons(s, tl) =>
      var a := StmtHeights(pr, s, inner);
      var b := BlockHeights(pr, tl, inner);
      Sequence(StmtCode(pr, s, inner), a, BlockCode(pr, tl, inner), b);
      h := Join(a, b);
  }

  // ----- switches -----

  /** The heights of the arms of a switch. */
  ghost function ArmsTable(pr: Prims, cs: Cases): (h: seq<nat>)
    ensures h != []
  {
    match cs
    case NoCases => [0]
    case Arm(_, b, rest) => Join(HeightsOf(BlockCode(pr, b, true)), ArmsTable(pr, rest))
  }

  lemma {:induction false} ArmsLevel(pr: Prims, cs: Cases)
    ensures Level(ArmsCode(pr, cs), ArmsTable(pr, cs))
    decreases cs, 0
  {
    Empty();
    match cs
    case NoCases =>
    case Arm(_, b, rest) =>
      var h := BlockHeights(pr, b, true);
      ArmsLevel(pr, rest);
      Sequence(BlockCode(pr, b, true), HeightsOf(BlockCode(pr, b, true)), ArmsCode(pr, rest), ArmsTable(pr, rest));
  }

  /** The comparisons of a switch, at height one, in front of the arms with heights `arms`. */
  ghost predicate TestsLevel(c: Code, h: seq<nat>, arms: seq<nat>) {
    |h| == |c| + 1 && h[0] == 1 && h[|c|] == 1 && forall k :: 0 <= k < |c| ==> Fits(c[k], k, h + arms)
  }

  /** Where the first arm and the later ones start among the heights of a switch. */
  lemma ArmPlaces(pr: Prims, cs: Cases, start: nat, arms: seq<nat>)
    requires cs.Arm? && Level(ArmsCode(pr, cs), ArmsTable(pr, cs))
    requires start <= |arms| && arms[start..] == ArmsTable(pr, cs)
    ensures
      var start1 := start + |BlockCode(pr, cs.body, true)|;
      && start < |arms| && arms[start] == 0 && start1 <= |arms|
      && Level(ArmsCode(pr, cs.rest), ArmsTable(pr, cs.rest)) && arms[start1..] == ArmsTable(pr, cs.rest)
    decreases cs, 0
  {
    hide Fits;
    var hb := BlockHeights(pr, cs.body, true);
    ArmsLevel(pr, cs.rest);
    assert arms[start..][0] == arms[start];
  }

  lemma {:induction false} TestsHeights(pr: Prims, cs: Cases, start: nat, arms: seq<nat>) returns (h: seq<nat>)
    requires Level(ArmsCode(pr, cs), ArmsTable(pr, cs)) && start <= |arms| && arms[start..] == ArmsTable(pr, cs)
    ensures TestsLevel(TestsCode(pr, cs, start), h, arms)
    decreases cs, 1
  {
    match cs
    case NoCases => h := [1];
    case Arm(l, b, rest) =>
      var start1 := start + |BlockCode(pr, b, true)|;
      var more := TestsCode(pr, rest, start1);
      assert TestsCode(pr, cs, start) ==
        if l.Some? then ExprCode(pr, l.value) + [I(OpCase(2 + |more| + start))] + more else more;
      hide *;
      ArmPlaces(pr, cs, start, arms);
      h := TestsHeights(pr, rest, start1, arms);
      if l.Some? {
        var hc := ExprHeights(pr, l.value);
        h := LabelHeights(ExprCode(pr, l.value), hc, more, h, start, arms);
      }
  }

  lemma LabelHeights(c: Code, hc: seq<nat>, more: Code, hm: seq<nat>, start: nat, arms: seq<nat>) returns (h: seq<nat>)
    requires ValueCode(c, hc) && TestsLevel(more, hm, arms) && start < |arms| && arms[start] == 0
    ensures TestsLevel(c + [I(OpCase(2 + |more| + start))] + more, h, arms)
  {
    var g := At0(c, hc, 1);
    var test := I(OpCase(2 + |more| + start));
    var all := c + [test] + more;
    h := g + hm;
    var big := h + arms;
    forall k | 0 <= k < |all| ensures Fits(all[k], k, big) {
      if k < |c| {
        FitsWithin(c[k], k, g, big, 0);
      } else if k > |c| {
        var j := k - |c| - 1;
        assert all[k] == more[j];
        FitsWithin(more[j], j, hm + arms, big, |c| + 1);
      } else {
        assert big[|c|] == 1 && big[|c| + 1] == hm[0];
        assert big[|h| + start] == arms[start];
      }
    }
  }

  lemma {:induction false} DefaultPlace(pr: Prims, cs: Cases)
    ensures DefaultStart(pr, cs) < |ArmsTable(pr, cs)| && ArmsTable(pr, cs)[DefaultStart(pr, cs)] == 0
    decreases cs, 1
  {
    ArmsLevel(pr, cs);
    match cs
    case NoCases =>
    case Arm(l, b, rest) =>
      var h := BlockHeights(pr, b, true);
      if l.Some? {
        DefaultPlace(pr, rest);
        var hb, t := HeightsOf(BlockCode(pr, b, true)), ArmsTable(pr, rest);
        assert Join(hb, t)[|hb| - 1 + DefaultStart(pr, rest)] == t[DefaultStart(pr, rest)];
      }
  }

  lemma SwitchHeights(pr: Prims, s: Stmt, inner: bool) returns (h: seq<nat>)
    requires s.Switch? && Level(ArmsCode(pr, s.cases), ArmsTable(pr, s.cases))
    ensures Level(StmtCode(pr, s, inner), h)
    decreases s, 0
  {
    var arms := ArmsTable(pr, s.cases);
    var he := ExprHeights(pr, s.subject);
    hide Fits, Level, ValueCode, ExprCode, ArmsCode, ArmsTable, TestsCode, Patch;
    var g := PushAt(ExprCode(pr, s.subject), he, 0);
    assert arms[0..] == arms;
    var ht := TestsHeights(pr, s.cases, 0, arms);
    DefaultPlace(pr, s.cases);
    PatchedHeights(ArmsCode(pr, s.cases), arms, Keep);
    h := WholeSwitch(SetPush(ExprCode(pr, s.subject)), g, TestsCode(pr, s.cases, 0), ht, DefaultStart(pr, s.cases),
                     Patch(ArmsCode(pr, s.cases), At(|ArmsCode(pr, s.cases)|), Keep), arms);
  }

  lemma WholeSwitch(e: Code, g: seq<nat>, tests: Code, ht: seq<nat>, ds: nat, arms: Code, ha: seq<nat>)
    returns (h: seq<nat>)
    requires Leveled(e, g) && g[0] == 0 && g[|e|] == 1 && TestsLevel(tests, ht, ha) && Level(arms, ha)
    requires ds < |ha| && ha[ds] == 0
    ensures Level(e + tests + [I(OpDefault(1 + ds))] + arms, h)
  {
    var dflt := [I(OpDefault(1 + ds))];
    var t := ht + ha;
    var n := |tests|;
    assert t[0] == ht[0] && t[n] == ht[n] && t[n + 1 + ds] == ha[ds] && t[n + 1 + |arms|] == ha[|arms|];
    assert t[0..|t|] == t && t[n + 1..n + 1 + |ha|] == ha;
    assert FitsFrom(dflt, n, t);
    hide Fits;
    CodeWithin(arms, ha, t, n + 1);
    FitsConcat(tests, dflt, 0, t);
    FitsConcat(tests + dflt, arms, 0, t);
    var rest := tests + dflt + arms;
    assert Leveled(rest, t) by { FitsLeveled(rest, t); }
    h := Join(g, t);
    assert h[0] == g[0] && h[|e + rest|] == t[|rest|];
    assert e + rest == e + tests + dflt + arms;
    Joined(e, g, rest, t);
  }

  lemma FitsLeveled(c: Code, h: seq<nat>)
    requires |h| == |c| + 1 && FitsFrom(c, 0, h)
    ensures Leveled(c, h)
  {
    hide Fits;
    forall k | 0 <= k < |c| ensures Fits(c[k], k, h) { assert Fits(c[k], 0 + k, h); }
  }

  // ----- functions -----

  lemma BodyHeights(pr: Prims, s: Stmt) returns (h: seq<nat>)
    ensures Level(BodyCode(pr, s), h)
  {
    h := StmtHeights(pr, s, false);
    var c := StmtCode(pr, s, false);
    if ReachesEnd(c) {
      var r := VoidHeights();
      Sequence(c, h, [I(Op.OpReturnVoid)], r);
      h := Join(h, r);
    }
  }

  // ----- runs -----

  /** The heights of a function's code, or of the code that a program starts in. */
  ghost function TableOf(p: Prog, obj: nat): (h: seq<nat>)
    ensures h != []
  {
    if obj < |p.funs| then HeightsOf(BodyCode(p.prims, p.funs[obj].body)) else [0, 0, 0, 0, 0]
  }

  lemma TableLevel(p: Prog, main: nat, obj: nat)
    ensures Level(CodeOf(Correctness.WorldOf(p, main), obj), TableOf(p, obj))
  {
    if obj < |p.funs| { var h := BodyHeights(p.prims, p.funs[obj].body); }
  }

  /** What the callers have on the stack, at the places where they are to go on. */
  ghost function Below(p: Prog, f: Frame): nat {
    match f
    case NoFrame => 0
    case Frame(_, pc, obj, previous) =>
      (if 0 <= pc < |TableOf(p, obj)| then TableOf(p, obj)[pc] else 0) + Below(p, previous)
  }

  ghost predicate PlacesIn(p: Prog, f: Frame) {
    match f
    case NoFrame => true
    case Frame(_, pc, obj, previous) => 0 <= pc < |TableOf(p, obj)| && PlacesIn(p, previous)
  }

  /** The stack is as high as the table says for the place, above what the callers have. */
  ghost predicate Stands(p: Prog, m: Mach) {
    && 0 <= m.pc < |TableOf(p, m.obj)| && PlacesIn(p, m.frame)
    && Height(m.stack) == TableOf(p, m.obj)[m.pc] + Below(p, m.frame)
  }

  lemma {:induction false} DroppedHeight(s: Stack, n: nat)
    requires n <= Height(s)
    ensures Height(Dropped(s, n)) == Height(s) - n
    decreases n
  {
    if n > 0 { DroppedHeight(s.rest, n - 1); }
  }

  predicate Transfers(op: Op) { op.OpCall? || Leaves(op) }

  /** The thread, if it runs on, has the same callers, is at `next`, and has `drop` values fewer and the pushed one. */
  ghost predicate Moved(m: Mach, push: bool, drop: nat, next: int, c: Conf) {
    c.Running? ==>
      && c.m.obj == m.obj && c.m.frame == m.frame && c.m.pc == next
      && Height(c.m.stack) == Height(m.stack) - drop + One(push)
  }

  lemma RetireMoves(m: Mach, push: bool, v: Value, drop: nat, next: int)
    ensures Moved(m, push, drop, next, Retire(m, push, v, drop, next))
  {
    if drop <= Height(m.stack) { DroppedHeight(m.stack, drop); }
  }

  lemma LoadMoves(m: Mach, push: bool, c: Cell)
    ensures Moved(m, push, 0, m.pc + 1, LoadCell(m, push, c))
  {
    if c.Some? { RetireMoves(m, push, c.value, 0, m.pc + 1); }
  }

  lemma AssignMoves(m: Mach, push: bool, r: Value, v: Value, result: Value, drop: nat)
    ensures Moved(m, push, drop, m.pc + 1, AssignThrough(m, push, r, v, result, drop))
  {
    hide Write, InStore, Retire;
    if r.Ref? && InStore(m.store, r.loc) {
      RetireMoves(m.(store := Write(m.store, r.loc, v)), push, result, drop, m.pc + 1);
    }
  }

  /** An instruction that stays in its function goes on at the next one, or branches. */
  ghost predicate Onward(m: Mach, i: Inst, c: Conf) {
    || (!IsUnconditional(i.op) && Moved(m, i.push, Takes(i.op), m.pc + 1, c))
    || (IsBranch(i.op) && Moved(m, i.push, TakesBranching(i.op), m.pc + i.op.offset, c))
  }

  lemma BranchMoves(m: Mach, push: bool, sense: bool, off: int)
    ensures
      var c := BranchOn(m, push, sense, off);
      Moved(m, push, 0, m.pc + off, c) || Moved(m, push, 0, m.pc + 1, c)
  {
    hide Retire;
    RetireMoves(m, push, m.value, 0, if m.value == Bool(sense) then m.pc + off else m.pc + 1);
  }

  lemma CaseMoves(w: World, m: Mach, push: bool, off: int)
    ensures
      var c := CaseInst(w, m, push, off);
      Moved(m, push, 1, m.pc + off, c) || Moved(m, push, 0, m.pc + 1, c)
  {
    hide Retire;
    if !m.stack.Empty? {
      var r := w.prims.equal(m.stack.top, m.value);
      if r.Val? {
        RetireMoves(m, push, r.v, 1, m.pc + off);
        RetireMoves(m, push, r.v, 0, m.pc + 1);
      }
    }
  }

  lemma OperatorMoves(w: World, m: Mach, push: bool, op: nat)
    ensures Moved(m, push, 1, m.pc + 1, BinInst(w, m, push, op))
    ensures Moved(m, push, 0, m.pc + 1, UnInst(w, m, push, op))
  {
    hide Retire;
    if !m.stack.Empty? {
      var r := w.prims.binary(op, m.stack.top, m.value);
      if r.Val? { RetireMoves(m, push, r.v, 1, m.pc + 1); }
    }
    var r := w.prims.unary(op, m.value);
    if r.Val? { RetireMoves(m, push, r.v, 0, m.pc + 1); }
  }

  lemma StoreMoves(w: World, m: Mach, push: bool, op: nat, pre: bool)
    ensures Moved(m, push, 0, m.pc + 1, Machine.IncDec(w, m, push, op, pre))
    ensures Moved(m, push, 1, m.pc + 1, AssignInst(m, push))
    ensures Moved(m, push, 2, m.pc + 1, AssignOpInst(w, m, push, op))
  {
    hide AssignThrough, Read, Elt;
    forall r, v, result, drop: nat
      ensures Moved(m, push, drop, m.pc + 1, AssignThrough(m, push, r, v, result, drop))
    {
      AssignMoves(m, push, r, v, result, drop);
    }
  }

  lemma EndMoves(w: World, m: Mach, i: Inst)
    requires i.op.OpEnd?
    ensures Moved(m, i.push, 0, m.pc + 1, ExecInst(w, m, i))
  {
  }

  predicate Simple(op: Op) {
    || op.OpNoop? || op.OpBranch? || op.OpDefault? || op.OpGlobal? || op.OpGlobalRef? || op.OpGlobalRefStore?
    || op.OpLocal? || op.OpLocalRef? || op.OpLocalRefStore? || op.OpFetch? || op.OpConst? || op.OpDrop?
  }

  /** The instructions that only load, drop or branch. */
  lemma SimpleMoves(w: World, m: Mach, i: Inst)
    requires Simple(i.op)
    ensures
      var next := if i.op.OpBranch? || i.op.OpDefault? then m.pc + i.op.offset else m.pc + 1;
      Moved(m, i.push, if i.op.OpDrop? || i.op.OpDefault? then 1 else 0, next, ExecInst(w, m, i))
  {
    hide Retire, LoadCell, Read, Height;
    forall v, drop: nat, next ensures Moved(m, i.push, drop, next, Retire(m, i.push, v, drop, next)) {
      RetireMoves(m, i.push, v, drop, next);
    }
    forall c ensures Moved(m, i.push, 0, m.pc + 1, LoadCell(m, i.push, c)) {
      LoadMoves(m, i.push, c);
    }
  }

  lemma StaysIn(w: World, m: Mach, i: Inst)
    requires !Transfers(i.op)
    ensures Onward(m, i, ExecInst(w, m, i))
  {
    hide Moved, Retire, LoadCell, BranchOn, CaseInst, BinInst, UnInst, Machine.IncDec, AssignInst, AssignOpInst,
      ThreadCall, ThreadReturn, Read;
    match i.op
    case OpBranchFalse(off) => BranchMoves(m, i.push, false, off);
    case OpBranchTrue(off) => BranchMoves(m, i.push, true, off);
    case OpCase(off) => CaseMoves(w, m, i.push, off);
    case OpBin(op) => OperatorMoves(w, m, i.push, op);
    case OpUn(op) => OperatorMoves(w, m, i.push, op);
    case OpPre(op) => StoreMoves(w, m, i.push, op, true);
    case OpPost(op) => StoreMoves(w, m, i.push, op, false);
    case OpAssign => StoreMoves(w, m, i.push, 0, false);
    case OpAssignOp(op) => StoreMoves(w, m, i.push, op, false);
    case OpEnd => EndMoves(w, m, i);
    case _ => SimpleMoves(w, m, i);
  }

  lemma CallStands(p: Prog, w: World, m: Mach, i: Inst)
    requires |w.objs| == |p.funs| && Stands(p, m) && Fits(i, m.pc, TableOf(p, m.obj))
    requires i.op.OpCall? && ExecInst(w, m, i).Running? && forall f: nat :: TableOf(p, f)[0] == 0
    ensures Stands(p, ExecInst(w, m, i).m)
  {
    hide Args, Alloc, NewBox, Elt;
    DroppedHeight(m.stack, i.op.argc);
  }

  lemma TailStands(p: Prog, w: World, m: Mach, i: Inst)
    requires |w.objs| == |p.funs| && Stands(p, m) && Fits(i, m.pc, TableOf(p, m.obj))
    requires i.op.OpTailCall? && ExecInst(w, m, i).Running? && forall f: nat :: TableOf(p, f)[0] == 0
    ensures Stands(p, ExecInst(w, m, i).m)
  {
    hide Args, Alloc, NewBox, Elt;
    DroppedHeight(m.stack, i.op.argc);
  }

  lemma ReturnStands(p: Prog, w: World, m: Mach, i: Inst)
    requires Stands(p, m) && Fits(i, m.pc, TableOf(p, m.obj)) && (i.op.OpReturn? || i.op.OpReturnVoid?)
    requires ExecInst(w, m, i).Running?
    ensures Stands(p, ExecInst(w, m, i).m)
  {
    DroppedHeight(m.stack, 0);
  }

  lemma StepStands(p: Prog, main: nat, m: Mach)
    requires Stands(p, m) && Step(Correctness.WorldOf(p, main), Running(m)).Running?
    ensures Stands(p, Step(Correctness.WorldOf(p, main), Running(m)).m)
  {
    var w := Correctness.WorldOf(p, main);
    var h := TableOf(p, m.obj);
    forall f: nat ensures TableOf(p, f)[0] == 0 { TableLevel(p, main, f); }
    TableLevel(p, main, m.obj);
    var i := CodeOf(w, m.obj)[m.pc];
    assert Fits(i, m.pc, h);
    hide Level, ExecInst, TableOf;
    if i.op.OpCall? {
      CallStands(p, w, m, i);
    } else if i.op.OpTailCall? {
      TailStands(p, w, m, i);
    } else if Leaves(i.op) {
      ReturnStands(p, w, m, i);
    } else {
      StaysIn(w, m, i);
    }
  }

  /** If the thread is still running, its stack stands as the table says. */
  ghost predicate StandsIn(p: Prog, c: Conf) { c.Running? ==> Stands(p, c.m) }

  lemma {:induction false} StepsStand(p: Prog, main: nat, c: Conf, n: nat)
    requires StandsIn(p, c)
    ensures StandsIn(p, Steps(Correctness.WorldOf(p, main), c, n))
    decreases n
  {
    hide Stands, Step;
    if n > 0 {
      var next := Step(Correctness.WorldOf(p, main), c);
      assert StandsIn(p, next) by { StepStandsIn(p, main, c); }
      StepsStand(p, main, next, n - 1);
    }
  }

  lemma StepStandsIn(p: Prog, main: nat, c: Conf)
    requires StandsIn(p, c)
    ensures StandsIn(p, Step(Correctness.WorldOf(p, main), c))
  {
    hide Stands, ExecInst;
    if c.Running? && Step(Correctness.WorldOf(p, main), c).Running? { StepStands(p, main, c.m); }
  }

  /**
   * At every time of every run the stack is as high as the place of the instruction says, above what the callers
   * have: the same on every path to it.
   */
  lemma HeightsKept(p: Prog, main: nat, st: Store, n: nat)
    requires Correctness.Run(p, main, st, n).Running?
    ensures Stands(p, Correctness.Run(p, main, st, n).m)
  {
    var m := Correctness.StartMach(p, st);
    assert Stands(p, m);
    StepsStand(p, main, Running(m), n);
  }

  /** The same functions are to go on at the same places. */
  predicate SamePlaces(f: Frame, g: Frame) {
    match f
    case NoFrame => g.NoFrame?
    case Frame(_, pc, obj, previous) =>
      g.Frame? && g.savePc == pc && g.saveObj == obj && SamePlaces(previous, g.previous)
  }

  lemma {:induction false} SameBelow(p: Prog, f: Frame, g: Frame)
    requires SamePlaces(f, g)
    ensures Below(p, f) == Below(p, g)
    decreases f
  {
    if f.Frame? { SameBelow(p, f.previous, g.previous); }
  }

  /** Any two runs, on any stores, that are at the same place have the same height. */
  lemma SameHeight(p: Prog, main: nat, st: Store, n: nat, main1: nat, st1: Store, n1: nat)
    requires Correctness.Run(p, main, st, n).Running? && Correctness.Run(p, main1, st1, n1).Running?
    requires
      var m, m1 := Correctness.Run(p, main, st, n).m, Correctness.Run(p, main1, st1, n1).m;
      m.obj == m1.obj && m.pc == m1.pc && SamePlaces(m.frame, m1.frame)
    ensures Height(Correctness.Run(p, main, st, n).m.stack) == Height(Correctness.Run(p, main1, st1, n1).m.stack)
  {
    HeightsKept(p, main, st, n);
    HeightsKept(p, main1, st1, n1);
    SameBelow(p, Correctness.Run(p, main, st, n).m.frame, Correctness.Run(p, main1, st1, n1).m.frame);
  }
}
