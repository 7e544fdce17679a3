/**
 * The reachability test of the compiler: a statement that can end normally is never
 * judged to be closed, and one that can break or continue holds a branch that says so.
 */
module Reach {
  import opened Values
  import opened Machine
  import opened Syntax
  import opened Codegen
  import opened Placement

  ghost predicate HasPending(c: Code, mod: BranchMod) {
    exists i :: 0 <= i < |c| && Pending(c[i], mod)
  }

  /** What the code of a statement must show for the statement to end in `r`. */
  ghost predicate Shows(c: Code, r: SOut) {
    && (r.Normal? ==> ReachesEnd(c))
    && (r.Broke? ==> HasPending(c, ModBreak))
    && (r.Continued? ==> HasPending(c, ModContinue))
  }

  // ----- reachability and pending branches in composed code -----

  lemma ReachRight(a: Code, b: Code)
    requires ReachesEnd(b) && (b == [] ==> ReachesEnd(a))
    ensures ReachesEnd(a + b)
  {
    if b == [] {
      assert a + b == a;
    } else if BranchesToEnd(b) {
      var i :| 0 <= i < |b| && IsBranch(b[i].op) && i + b[i].op.offset == |b|;
      BranchEnd(a + b, |a| + i);
    } else {
      assert (a + b)[|a + b| - 1] == b[|b| - 1];
    }
  }

  /** A branch in the code that goes to its end. */
  lemma BranchEnd(c: Code, i: int)
    requires 0 <= i < |c| && IsBranch(c[i].op) && i + c[i].op.offset == |c|
    ensures ReachesEnd(c)
  {
    assert BranchesToEnd(c);
  }

  lemma PendingIn(a: Code, b: Code, c: Code, mod: BranchMod)
    requires HasPending(b, mod)
    ensures HasPending(a + b + c, mod)
  {
    var i :| 0 <= i < |b| && Pending(b[i], mod);
    assert (a + b + c)[|a| + i] == b[i];
  }

  /** A patched break or continue that goes to the end of `a + patched + b`. */
  lemma PatchedEnd(a: Code, x: Code, b: Code, brk: Target, cont: Target, mod: BranchMod)
    requires HasPending(x, mod)
    requires mod == ModBreak ==> brk == At(|x| + |b|)
    requires mod == ModContinue ==> cont == At(|x| + |b|)
    requires mod != ModNone
    ensures ReachesEnd(a + Patch(x, brk, cont) + b)
  {
    var i :| 0 <= i < |x| && Pending(x[i], mod);
    var c := a + Patch(x, brk, cont) + b;
    assert c[|a| + i] == Resolve(x[i], i, brk, cont);
    BranchEnd(c, |a| + i);
  }

  lemma PatchReaches(x: Code, brk: Target, cont: Target)
    requires ReachesEnd(x)
    ensures ReachesEnd(Patch(x, brk, cont))
  {
    var c := Patch(x, brk, cont);
    if x != [] {
      if BranchesToEnd(x) {
        var i :| 0 <= i < |x| && IsBranch(x[i].op) && i + x[i].op.offset == |x|;
        assert c[i] == x[i];
        BranchEnd(c, i);
      } else {
        assert c[|c| - 1] == Resolve(x[|x| - 1], |x| - 1, brk, cont);
      }
    }
  }

  ghost predicate Open(c: Code) { c != [] && !IsUnconditional(c[|c| - 1].op) }

  /** The last instruction of an expression hands over to whatever follows. */
  lemma {:induction false} ExprOpen(pr: Prims, e: Expr)
    ensures Open(ExprCode(pr, e))
  {
    match e
    case Quest(t, y, n) => ExprOpen(pr, y); ExprOpen(pr, n);
    case And(l, r) => ExprOpen(pr, l); ExprOpen(pr, r);
    case Or(l, r) => ExprOpen(pr, l); ExprOpen(pr, r);
    case Comma(l, r) => ExprOpen(pr, r);
    case _ =>
  }

  /** Control runs off the end of an expression. */
  lemma ExprReaches(pr: Prims, e: Expr)
    ensures ReachesEnd(ExprCode(pr, e))
  {
    ExprOpen(pr, e);
  }

  // ----- the theorem -----

  /** What compiles where neither break nor continue is allowed compiles inside of a loop as well. */
  lemma {:induction false} ErrMono(pr: Prims, s: Stmt, x: Ctx)
    requires !StmtErr(pr, s, x, false)
    ensures !StmtErr(pr, s, Ctx(true, true), false)
    decreases s
  {
    match s
    case If(t, a) => if Kept(pr, t, true) { ErrMono(pr, a, x); }
    case IfElse(t, a, b) =>
      if Kept(pr, t, true) { ErrMono(pr, a, x); }
      if Kept(pr, t, false) { ErrMono(pr, b, x); }
    case Switch(_, cs) => CasesMono(pr, cs, x.(brk := true));
    case Block(ss) => BlockMono(pr, ss, x);
    case _ =>
  }

  lemma {:induction false} BlockMono(pr: Prims, ss: Stmts, x: Ctx)
    requires !BlockErr(pr, ss, x, false)
    ensures !BlockErr(pr, ss, Ctx(true, true), false)
    decreases ss
  {
    match ss
    case Nil =>
    case Cons(s, tl) => ErrMono(pr, s, x); BlockMono(pr, tl, x);
  }

  lemma {:induction false} CasesMono(pr: Prims, cs: Cases, x: Ctx)
    requires !CasesErr(pr, cs, x, false)
    ensures !CasesErr(pr, cs, Ctx(true, true), false)
    decreases cs
  {
    match cs
    case NoCases =>
    case Arm(_, b, rest) => BlockMono(pr, b, x); CasesMono(pr, rest, x);
  }

  lemma {:induction false} StmtShows(p: Prog, s: Stmt, inner: bool, box: nat, st: Store, fuel: nat)
    requires !StmtErr(p.prims, s, Ctx(true, true), false)
    ensures Shows(StmtCode(p.prims, s, inner), Exec(p, s, box, st, fuel))
    decreases fuel, s, 1
  {
    match s
    case If(_, _) => IfShows(p, s, inner, box, st, fuel);
    case IfElse(_, _, _) => IfElseShows(p, s, inner, box, st, fuel);
    case While(_, _) => WhileShows(p, s, inner, box, st, fuel);
    case DoWhile(_, _) => DoShows(p, s, inner, box, st, fuel);
    case For(_, _, _, _) => ForShows(p, s, inner, box, st, fuel);
    case Switch(_, _) => SwitchShows(p, s, inner, box, st, fuel);
    case Break => assert Pending(StmtCode(p.prims, s, inner)[0], ModBreak);
    case Continue => assert Pending(StmtCode(p.prims, s, inner)[0], ModContinue);
    case Return(_) =>
    case ReturnVoid =>
    case ExprStat(e) => ExprReaches(p.prims, e);
    case Semi =>
    case Block(ss) => BlockShows(p, ss, inner, box, st, fuel);
  }

  lemma {:induction false} IfShows(p: Prog, s: Stmt, inner: bool, box: nat, st: Store, fuel: nat)
    requires !StmtErr(p.prims, s, Ctx(true, true), false) && s.If?
    ensures Shows(StmtCode(p.prims, s, inner), Exec(p, s, box, st, fuel))
    decreases fuel, s, 0
  {
    var pr := p.prims;
    var c, b := ExprCode(pr, s.test), StmtCode(pr, s.then_, inner);
    var t := EvalBool(p, s.test, box, st, fuel);
    assert !BoolErr(pr, s.test);
    if IsConst(c) {
      ConstMeaning(p, s.test, box, st, fuel);
      if IsTrue(c) { StmtShows(p, s.then_, inner, box, t.st, fuel); }
    } else {
      var whole := c + [I(OpBranchFalse(|b| + 1))] + b;
      BranchEnd(whole, |c|);
      if t.EVal? && t.v.b {
        StmtShows(p, s.then_, inner, box, t.st, fuel);
        var r := Exec(p, s.then_, box, t.st, fuel);
        assert whole + [] == whole;
        if r.Broke? { PendingIn(c + [I(OpBranchFalse(|b| + 1))], b, [], ModBreak); }
        if r.Continued? { PendingIn(c + [I(OpBranchFalse(|b| + 1))], b, [], ModContinue); }
      }
    }
  }

  lemma {:induction false} IfElseShows(p: Prog, s: Stmt, inner: bool, box: nat, st: Store, fuel: nat)
    requires !StmtErr(p.prims, s, Ctx(true, true), false) && s.IfElse?
    ensures Shows(StmtCode(p.prims, s, inner), Exec(p, s, box, st, fuel))
    decreases fuel, s, 0
  {
    var pr := p.prims;
    var c, x, y := ExprCode(pr, s.test), StmtCode(pr, s.then_, inner), StmtCode(pr, s.else_, inner);
    var t := EvalBool(p, s.test, box, st, fuel);
    assert !BoolErr(pr, s.test);
    if IsConst(c) {
      ConstMeaning(p, s.test, box, st, fuel);
      StmtShows(p, if IsTrue(c) then s.then_ else s.else_, inner, box, t.st, fuel);
    } else if t.EVal? {
      var skip := if ReachesEnd(x) then [I(OpBranch(|y| + 1, ModNone))] else [];
      var test := I(OpBranchFalse(|x| + |skip| + 1));
      var arm := if t.v.b then s.then_ else s.else_;
      assert StmtCode(pr, s, inner) == c + [test] + x + skip + y;
      hide StmtCode, ReachesEnd, Shows;
      StmtShows(p, arm, inner, box, t.st, fuel);
      ElseShows(c + [test], x, skip, y, t.v.b, Exec(p, arm, box, t.st, fuel));
    }
  }

  /** An arm of a two-way conditional ended in `r`; `front` ends with the branch to the second arm. */
  lemma ElseShows(front: Code, x: Code, skip: Code, y: Code, first: bool, r: SOut)
    requires Shows(if first then x else y, r)
    requires front != [] && front[|front| - 1].op == OpBranchFalse(|x| + |skip| + 1)
    requires skip == if ReachesEnd(x) then [I(OpBranch(|y| + 1, ModNone))] else []
    ensures Shows(front + x + skip + y, r)
  {
    var whole := front + x + skip + y;
    if first {
      if r.Normal? { BranchEnd(whole, |front| + |x|); }
      assert whole == front + x + (skip + y);
      if r.Broke? { PendingIn(front, x, skip + y, ModBreak); }
      if r.Continued? { PendingIn(front, x, skip + y, ModContinue); }
    } else {
      if r.Normal? {
        if y == [] { BranchEnd(whole, |front| - 1); } else { ReachRight(front + x + skip, y); }
      }
      assert whole == front + x + skip + y + [];
      if r.Broke? { PendingIn(front + x + skip, y, [], ModBreak); }
      if r.Continued? { PendingIn(front + x + skip, y, [], ModContinue); }
    }
  }

  /** Breaks and continues do not leave a loop. */
  lemma {:induction false} LoopResult(p: Prog, s: Stmt, box: nat, st: Store, fuel: nat)
    requires s.While? || s.DoWhile?
    ensures !Exec(p, s, box, st, fuel).Broke? && !Exec(p, s, box, st, fuel).Continued?
    decreases fuel
  {
    if fuel > 0 {
      if s.While? {
        var t := EvalBool(p, s.test, box, st, fuel);
        if t.EVal? && t.v.b {
          var r := Exec(p, s.body, box, t.st, fuel);
          if Loops(r) { LoopResult(p, s, box, r.st, fuel - 1); }
        }
      } else {
        var r := Exec(p, s.body, box, st, fuel);
        if Loops(r) {
          var t := EvalBool(p, s.test, box, r.st, fuel);
          if t.EVal? && t.v.b { LoopResult(p, s, box, t.st, fuel - 1); }
        }
      }
    }
  }

  lemma {:induction false} WhileShows(p: Prog, s: Stmt, inner: bool, box: nat, st: Store, fuel: nat)
    requires !StmtErr(p.prims, s, Ctx(true, true), false) && s.While?
    ensures Shows(StmtCode(p.prims, s, inner), Exec(p, s, box, st, fuel))
    decreases fuel, s, 0
  {
    hide ArmsCode, BlockCode, BlockErr, BranchesToEnd, CasesErr, DefaultArm, DefaultStart, Eval, EvalOpt, ExecArms;
    hide ExecBlock, ExprErr, ForCode, ForLoop, FromE, HasPending, IsConst, LeaveSwitch, Length, OptCode, OptErr;
    hide Patch, Select, SetPush, TestsCode;
    var pr := p.prims;
    var c, x := ExprCode(pr, s.test), StmtCode(pr, s.body, true);
    assert !BoolErr(pr, s.test);
    LoopResult(p, s, box, st, fuel);
    if IsConst(c) && IsTrue(c) && fuel > 0 {
      ConstMeaning(p, s.test, box, st, fuel);
      StmtShows(p, s.body, true, box, st, fuel);
      var r := Exec(p, s.body, box, st, fuel);
      if Loops(r) {
        StmtShows(p, s, inner, box, r.st, fuel - 1);
      } else if r.Broke? {
        PatchedEnd([], x, [I(OpBranch(-|x|, ModNone))], At(|x| + 1), At(|x|), ModBreak);
        assert [] + Patch(x, At(|x| + 1), At(|x|)) == Patch(x, At(|x| + 1), At(|x|));
      }
    }
  }

  /**
   * The body of a loop in front of `test`: a break goes to the end, and so does an end of the body if there is
   * no test.
   */
  lemma BodyShows(x: Code, test: Code, r: SOut)
    requires Shows(x, r)
    ensures r.Broke? || (Loops(r) && test == []) ==> ReachesEnd(Patch(x, At(|x| + |test|), At(|x|)) + test)
  {
    var brk, cont := At(|x| + |test|), At(|x|);
    assert [] + Patch(x, brk, cont) == Patch(x, brk, cont);
    if r.Broke? {
      PatchedEnd([], x, test, brk, cont, ModBreak);
    } else if r.Continued? && test == [] {
      PatchedEnd([], x, test, brk, cont, ModContinue);
    } else if r.Normal? && test == [] {
      PatchReaches(x, brk, cont);
      assert Patch(x, brk, cont) + test == Patch(x, brk, cont);
    }
  }

  lemma {:induction false} DoShows(p: Prog, s: Stmt, inner: bool, box: nat, st: Store, fuel: nat)
    requires !StmtErr(p.prims, s, Ctx(true, true), false) && s.DoWhile?
    ensures Shows(StmtCode(p.prims, s, inner), Exec(p, s, box, st, fuel))
    decreases fuel, s, 0
  {
    assert !BoolErr(p.prims, s.test);
    LoopResult(p, s, box, st, fuel);
    if IsConst(ExprCode(p.prims, s.test)) && fuel > 0 { DoConstShows(p, s, inner, box, st, fuel); }
  }

  /** What is left of the test of a do statement that folded to a constant. */
  function ConstTest(pr: Prims, s: Stmt): Code
    requires s.DoWhile?
  {
    if IsTrue(ExprCode(pr, s.test)) then [I(OpBranch(-|StmtCode(pr, s.body, true)|, ModNone))] else []
  }

  lemma DoCode(pr: Prims, s: Stmt, inner: bool)
    requires s.DoWhile? && IsConst(ExprCode(pr, s.test))
    ensures
      var x, test := StmtCode(pr, s.body, true), ConstTest(pr, s);
      StmtCode(pr, s, inner) == Patch(x, At(|x| + |test|), At(|x|)) + test
  {
  }

  lemma {:induction false} DoConstShows(p: Prog, s: Stmt, inner: bool, box: nat, st: Store, fuel: nat)
    requires s.DoWhile? && IsConst(ExprCode(p.prims, s.test)) && fuel > 0
    requires !ExprErr(p.prims, s.test) && !StmtErr(p.prims, s.body, Ctx(true, true), false)
    requires !StmtErr(p.prims, s, Ctx(true, true), false)
    ensures Exec(p, s, box, st, fuel).Normal? ==> ReachesEnd(StmtCode(p.prims, s, inner))
    decreases fuel, s, -1
  {
    var x, test := StmtCode(p.prims, s.body, true), ConstTest(p.prims, s);
    DoCode(p.prims, s, inner);
    hide ReachesEnd, HasPending, Eval, StmtCode, ExprCode, Patch;
    StmtShows(p, s.body, true, box, st, fuel);
    var r := Exec(p, s.body, box, st, fuel);
    BodyShows(x, test, r);
    if Loops(r) {
      ConstMeaning(p, s.test, box, r.st, fuel);
      if IsTrue(ExprCode(p.prims, s.test)) {
        StmtShows(p, s, inner, box, r.st, fuel - 1);
        assert Exec(p, s, box, st, fuel) == Exec(p, s, box, r.st, fuel - 1);
      } else {
        assert test == [];
      }
    } else {
      assert Exec(p, s, box, st, fuel) == Leave(r);
    }
  }

  lemma {:induction false} ForShows(p: Prog, s: Stmt, inner: bool, box: nat, st: Store, fuel: nat)
    requires !StmtErr(p.prims, s, Ctx(true, true), false) && s.For?
    ensures Shows(StmtCode(p.prims, s, inner), Exec(p, s, box, st, fuel))
    decreases fuel, s, 0
  {
    var pr := p.prims;
    var i := OptCode(pr, s.init);
    var loop := ForCode(OptCode(pr, s.cond), OptCode(pr, s.step), StmtCode(pr, s.body, true), s.cond.Some?);
    var r := EvalOpt(p, s.init, box, st, fuel);
    if r.Normal? {
      ForLoopShows(p, s, box, r.st, fuel);
      if s.init.Some? { ExprReaches(pr, s.init.value); }
      if ForLoop(p, s, box, r.st, fuel).Normal? { ReachRight(i, loop); }
    }
  }

  /** A break ends a for statement without a test. */
  lemma EndlessEnd(x: Code, n: Code, hasCond: bool)
    requires HasPending(x, ModBreak)
    ensures
      var front := if hasCond then [I(OpBranch(|x| + |n| + 1, ModNone))] else [];
      var body := Patch(x, At(|x| + |n| + 1), At(|x|));
      var back := [I(OpBranch(-(|x| + |n|), ModNone))];
      ReachesEnd(front + body + n + back) && (!hasCond ==> ReachesEnd(body + n + back))
  {
    var front := if hasCond then [I(OpBranch(|x| + |n| + 1, ModNone))] else [];
    var back := [I(OpBranch(-(|x| + |n|), ModNone))];
    var body := Patch(x, At(|x| + |n| + 1), At(|x|));
    PatchedEnd(front, x, n + back, At(|x| + |n| + 1), At(|x|), ModBreak);
    assert front + body + (n + back) == front + body + n + back;
    assert [] + body == body;
  }

  lemma {:induction false} ForLoopShows(p: Prog, s: Stmt, box: nat, st: Store, fuel: nat)
    requires !StmtErr(p.prims, s, Ctx(true, true), false) && s.For?
    ensures
      var loop := ForCode(OptCode(p.prims, s.cond), OptCode(p.prims, s.step), StmtCode(p.prims, s.body, true),
        s.cond.Some?);
      ForLoop(p, s, box, st, fuel).Normal? ==> ReachesEnd(loop)
    ensures !ForLoop(p, s, box, st, fuel).Broke? && !ForLoop(p, s, box, st, fuel).Continued?
    decreases fuel, s, -1
  {
    var pr := p.prims;
    var c, n, x := OptCode(pr, s.cond), OptCode(pr, s.step), StmtCode(pr, s.body, true);
    if fuel > 0 {
      if s.cond.Some? {
        assert !BoolErr(pr, s.cond.value);
        if IsConst(c) { ConstMeaning(p, s.cond.value, box, st, fuel); }
      }
      var t := if s.cond.Some? then EvalBool(p, s.cond.value, box, st, fuel) else EVal(TrueVal, st);
      if t.EVal? && t.v.b {
        StmtShows(p, s.body, true, box, t.st, fuel);
        var r := Exec(p, s.body, box, t.st, fuel);
        if Loops(r) {
          var k := EvalOpt(p, s.step, box, r.st, fuel);
          if k.Normal? { ForLoopShows(p, s, box, k.st, fuel - 1); }
        } else if r.Broke? && (s.cond.None? || IsConst(c)) {
          EndlessEnd(x, n, s.cond.Some?);
        }
      }
    }
  }

  lemma {:induction false} BlockShows(p: Prog, ss: Stmts, inner: bool, box: nat, st: Store, fuel: nat)
    requires !BlockErr(p.prims, ss, Ctx(true, true), false)
    ensures Shows(BlockCode(p.prims, ss, inner), ExecBlock(p, ss, box, st, fuel))
    decreases fuel, ss, 0
  {
    match ss
    case Nil =>
    case Cons(s, tl) =>
      StmtShows(p, s, inner, box, st, fuel);
      var r := Exec(p, s, box, st, fuel);
      var a, b := StmtCode(p.prims, s, inner), BlockCode(p.prims, tl, inner);
      if r.Normal? { BlockShows(p, tl, inner, box, r.st, fuel); }
      ConcatShows(a, b, r, ExecBlock(p, tl, box, if r.Normal? then r.st else st, fuel));
  }

  /** Two pieces of code one after the other. */
  lemma ConcatShows(a: Code, b: Code, r: SOut, q: SOut)
    requires Shows(a, r) && (r.Normal? ==> Shows(b, q))
    ensures Shows(a + b, if r.Normal? then q else r)
  {
    var o := if r.Normal? then q else r;
    assert [] + a + b == a + b && a + b + [] == a + b;
    if o.Normal? { ReachRight(a, b); }
    if o.Broke? { if r.Normal? { PendingIn(a, b, [], ModBreak); } else { PendingIn([], a, b, ModBreak); } }
    if o.Continued? { if r.Normal? { PendingIn(a, b, [], ModContinue); } else { PendingIn([], a, b, ModContinue); } }
  }

  lemma {:induction false} ArmsShow(p: Prog, cs: Cases, box: nat, st: Store, fuel: nat)
    requires !CasesErr(p.prims, cs, Ctx(true, true), false)
    ensures Shows(ArmsCode(p.prims, cs), ExecArms(p, cs, box, st, fuel))
    decreases fuel, cs, 0
  {
    match cs
    case NoCases =>
    case Arm(_, b, rest) =>
      BlockShows(p, b, true, box, st, fuel);
      var r := ExecBlock(p, b, box, st, fuel);
      if r.Normal? { ArmsShow(p, rest, box, r.st, fuel); }
      ConcatShows(BlockCode(p.prims, b, true), ArmsCode(p.prims, rest), r,
                  ExecArms(p, rest, box, if r.Normal? then r.st else st, fuel));
  }

  /** `arms` is what remains of `cs` from some arm on. */
  ghost predicate Suffix(arms: Cases, cs: Cases) {
    arms == cs || (cs.Arm? && Suffix(arms, cs.rest))
  }

  /** Where the code of a suffix starts in the code of all arms. */
  function StartOf(pr: Prims, arms: Cases, cs: Cases): nat
    requires Suffix(arms, cs)
  {
    if arms == cs then 0 else |BlockCode(pr, cs.body, true)| + StartOf(pr, arms, cs.rest)
  }

  lemma {:induction false} SuffixCode(pr: Prims, arms: Cases, cs: Cases, x: Ctx)
    requires Suffix(arms, cs)
    ensures StartOf(pr, arms, cs) + |ArmsCode(pr, arms)| == |ArmsCode(pr, cs)|
    ensures ArmsCode(pr, cs)[StartOf(pr, arms, cs)..] == ArmsCode(pr, arms)
    ensures !CasesErr(pr, cs, x, false) ==> !CasesErr(pr, arms, x, false)
    decreases cs
  {
    if arms != cs {
      SuffixCode(pr, arms, cs.rest, x);
    }
  }

  lemma {:induction false} DefaultSuffix(pr: Prims, cs: Cases)
    ensures Suffix(DefaultArm(cs), cs) && StartOf(pr, DefaultArm(cs), cs) == DefaultStart(pr, cs)
    decreases cs
  {
    match cs
    case NoCases =>
    case Arm(l, _, rest) => if l.Some? { DefaultSuffix(pr, rest); SelfNot(DefaultArm(rest), cs); }
  }

  /** A proper suffix is smaller. */
  lemma {:induction false} SelfNot(arms: Cases, cs: Cases)
    requires cs.Arm? && Suffix(arms, cs.rest)
    ensures arms != cs
  {
    SuffixSize(arms, cs.rest);
  }

  function Size(cs: Cases): nat {
    match cs
    case NoCases => 0
    case Arm(_, _, rest) => 1 + Size(rest)
  }

  lemma {:induction false} SuffixSize(arms: Cases, cs: Cases)
    requires Suffix(arms, cs)
    ensures Size(arms) <= Size(cs)
    decreases cs
  {
    if arms != cs { SuffixSize(arms, cs.rest); }
  }

  /** The comparison at `i` in the tests of `cs` leads to `arms`. */
  ghost predicate LeadsTo(pr: Prims, cs: Cases, start: nat, arms: Cases, i: nat) {
    var tests := TestsCode(pr, cs, start);
    Suffix(arms, cs) && i < |tests| && tests[i].op == OpCase(|tests| - i + 1 + start + StartOf(pr, arms, cs))
  }

  lemma LeadsOn(pr: Prims, cs: Cases, start: nat, arms: Cases, k: nat) returns (i: nat)
    requires cs.Arm? && LeadsTo(pr, cs.rest, start + |BlockCode(pr, cs.body, true)|, arms, k)
    ensures LeadsTo(pr, cs, start, arms, i)
  {
    SelfNot(arms, cs);
    i := if cs.labelled.Some? then |ExprCode(pr, cs.labelled.value)| + 1 + k else k;
  }

  /** A selected arm is the target of a comparison. */
  lemma {:induction false} SelectedHasCase(p: Prog, cs: Cases, v: Value, box: nat, st: Store, fuel: nat, start: nat)
    returns (i: nat)
    requires Select(p, cs, v, box, st, fuel).Selected?
    ensures LeadsTo(p.prims, cs, start, Select(p, cs, v, box, st, fuel).arms, i)
    decreases cs
  {
    var st1 := st;
    if cs.labelled.Some? {
      var r := Eval(p, cs.labelled.value, box, st, fuel);
      if p.prims.equal(v, r.v).v == TrueVal {
        i := |ExprCode(p.prims, cs.labelled.value)|;
        return;
      }
      st1 := r.st;
    }
    hide TestsCode, LeadsTo;
    var k := SelectedHasCase(p, cs.rest, v, box, st1, fuel, start + |BlockCode(p.prims, cs.body, true)|);
    i := LeadsOn(p.prims, cs, start, Select(p, cs, v, box, st, fuel).arms, k);
  }

  lemma {:induction false} SwitchShows(p: Prog, s: Stmt, inner: bool, box: nat, st: Store, fuel: nat)
    requires !StmtErr(p.prims, s, Ctx(true, true), false) && s.Switch?
    ensures Shows(StmtCode(p.prims, s, inner), Exec(p, s, box, st, fuel))
    decreases fuel, s, 0
  {
    hide ArmsCode, BlockCode, Eval, EvalBool, ForCode, ForLoop, Select, TestsCode, ReachesEnd, Patch;
    var pr, cs := p.prims, s.cases;
    var head, tests, bodies := SetPush(ExprCode(pr, s.subject)), TestsCode(pr, cs, 0), ArmsCode(pr, cs);
    var dflt := I(OpDefault(1 + DefaultStart(pr, cs)));
    var front := head + tests + [dflt];
    var r := Eval(p, s.subject, box, st, fuel);
    if r.EVal? {
      var sel := Select(p, cs, r.v, box, r.st, fuel);
      if sel.Selected? || sel.Unmatched? {
        var arms := if sel.Selected? then sel.arms else DefaultArm(cs);
        var at: nat;
        if sel.Selected? {
          var i := SelectedHasCase(p, cs, r.v, box, r.st, fuel, 0);
          at := |head| + i;
          assert front[at] == tests[i];
        } else {
          DefaultSuffix(pr, cs);
          at := |head| + |tests|;
        }
        SuffixCode(pr, arms, cs, Ctx(true, true));
        ArmsShow(p, arms, box, sel.st, fuel);
        ArmsInSwitch(front, at, bodies, StartOf(pr, arms, cs), ExecArms(p, arms, box, sel.st, fuel));
      }
    }
  }

  /** The arms from `start` on ended in `r`; the instruction at `at` branches to them. */
  lemma ArmsInSwitch(front: Code, at: nat, bodies: Code, start: nat, r: SOut)
    requires at < |front| && start <= |bodies|
    requires IsBranch(front[at].op) && at + front[at].op.offset == |front| + start
    requires Shows(bodies[start..], r)
    ensures Shows(front + Patch(bodies, At(|bodies|), Keep), LeaveSwitch(r))
  {
    var arms, brk := bodies[start..], At(|bodies|);
    var patched := Patch(bodies, brk, Keep);
    var whole := front + patched;
    assert whole + [] == whole;
    assert bodies == bodies[..start] + arms + [];
    if r.Broke? {
      PendingIn(bodies[..start], arms, [], ModBreak);
      PatchedEnd(front, bodies, [], brk, Keep, ModBreak);
    }
    if r.Continued? {
      PendingIn(bodies[..start], arms, [], ModContinue);
      var i :| 0 <= i < |bodies| && Pending(bodies[i], ModContinue);
      assert whole[|front| + i] == bodies[i];
    }
    if r.Normal? {
      if arms == [] {
        BranchEnd(whole, at);
      } else {
        ReachRight(bodies[..start], arms);
        PatchReaches(bodies, brk, Keep);
        ReachRight(front, patched);
      }
    }
  }
}
