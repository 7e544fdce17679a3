/** Every branch of compiled code stays inside of the code it was compiled for. */
module Layout {
  import opened Values
  import opened Machine
  import opened Syntax
  import opened Codegen

  /** The branch at `i` of a piece of code of length `n` goes to a place in it or to its end. */
  ghost predicate In(op: Op, i: int, n: int) {
    IsBranch(op) ==> 0 <= i + op.offset <= n
  }

  ghost predicate Inside(c: Code) {
    forall i :: 0 <= i < |c| ==> In(c[i].op, i, |c|)
  }

  lemma InsideConcat(a: Code, b: Code)
    requires Inside(a) && Inside(b)
    ensures Inside(a + b)
  {
    var c := a + b;
    forall i | 0 <= i < |c| ensures In(c[i].op, i, |c|) {
      if i < |a| { assert In(a[i].op, i, |a|); } else { assert In(b[i - |a|].op, i - |a|, |b|); }
    }
  }

  /** A branch put in front of code, behind code or between two pieces of code. */
  lemma InsideBranch(a: Code, i: Inst, b: Code)
    requires Inside(a) && Inside(b) && In(i.op, |a|, |a| + 1 + |b|)
    ensures Inside(a + [i] + b)
  {
    var c := a + [i] + b;
    forall k | 0 <= k < |c| ensures In(c[k].op, k, |c|) {
      if k < |a| {
        assert In(a[k].op, k, |a|);
      } else if k > |a| {
        assert In(b[k - |a| - 1].op, k - |a| - 1, |b|);
      }
    }
  }

  lemma InsideLast(a: Code, i: Inst)
    requires Inside(a) && In(i.op, |a|, |a| + 1)
    ensures Inside(a + [i])
  {
    InsideBranch(a, i, []);
    assert a + [i] + [] == a + [i];
  }

  lemma InsidePush(a: Code)
    requires Inside(a)
    ensures Inside(SetPush(a))
  {
    var c := SetPush(a);
    forall k | 0 <= k < |c| ensures In(c[k].op, k, |c|) { assert In(a[k].op, k, |a|); }
  }

  lemma InsideArms(t: Code, x: Code, y: Code, tail: Code)
    requires Inside(t) && Inside(x) && Inside(y) && Inside(tail)
    ensures Inside(t + [I(OpBranchFalse(|x| + 2))] + x + [I(OpBranch(|y| + 1, ModNone))] + y + tail)
  {
    var bf, br := I(OpBranchFalse(|x| + 2)), I(OpBranch(|y| + 1, ModNone));
    InsideConcat(y, tail);
    InsideBranch(x, br, y + tail);
    InsideBranch(t, bf, x + [br] + (y + tail));
    assert t + [bf] + (x + [br] + (y + tail)) == t + [bf] + x + [br] + y + tail;
  }

  lemma {:induction false} ExprInside(pr: Prims, e: Expr)
    ensures Inside(ExprCode(pr, e))
    decreases e, 0
  {
    hide AssignIfCode, AssignInst, AssignOpInst, IsConst, IsTrue, Length, SetPush, ThreadCall;
    match e
    case Const(_) =>
    case Var(_) =>
    case Unary(op, a) =>
      ExprInside(pr, a);
      InsideConcat(ExprCode(pr, a), [I(OpUn(op))]);
    case Binary(op, l, r) =>
      var a, b := ExprCode(pr, l), ExprCode(pr, r);
      ExprInside(pr, l); ExprInside(pr, r);
      InsidePush(a);
      InsideConcat(SetPush(a), b);
      InsideConcat(SetPush(a) + b, [I(OpBin(op))]);
    case Quest(t, y, n) =>
      ExprInside(pr, t); ExprInside(pr, y); ExprInside(pr, n);
      InsideArms(ExprCode(pr, t), ExprCode(pr, y), ExprCode(pr, n), [I(OpNoop)]);
    case And(l, r) =>
      var a, b := ExprCode(pr, l), ExprCode(pr, r);
      ExprInside(pr, l); ExprInside(pr, r);
      InsideBranch(a, I(OpBranchFalse(|b| + 1)), b);
      InsideConcat(a + [I(OpBranchFalse(|b| + 1))] + b, [I(OpNoop)]);
    case Or(l, r) =>
      var a, b := ExprCode(pr, l), ExprCode(pr, r);
      ExprInside(pr, l); ExprInside(pr, r);
      InsideBranch(a, I(OpBranchTrue(|b| + 1)), b);
      InsideConcat(a + [I(OpBranchTrue(|b| + 1))] + b, [I(OpNoop)]);
    case Assign(lv, r) =>
      ExprInside(pr, r);
      InsideConcat([P(RefStoreOp(lv))], ExprCode(pr, r));
      InsideConcat([P(RefStoreOp(lv))] + ExprCode(pr, r), [I(Op.OpAssign)]);
    case AssignOp(lv, op, r) =>
      ExprInside(pr, r);
      InsideConcat([P(RefOp(lv)), P(OpFetch)], ExprCode(pr, r));
      InsideConcat([P(RefOp(lv)), P(OpFetch)] + ExprCode(pr, r), [I(OpAssignOp(op))]);
    case AssignAnd(lv, r) => ExprInside(pr, r); InsideAssignIf(lv, ExprCode(pr, r), true);
    case AssignOr(lv, r) => ExprInside(pr, r); InsideAssignIf(lv, ExprCode(pr, r), false);
    case IncDec(_, _, _) =>
    case Comma(l, r) =>
      ExprInside(pr, l); ExprInside(pr, r);
      InsideConcat(if IsConst(ExprCode(pr, l)) then [] else ExprCode(pr, l), ExprCode(pr, r));
    case Call(f, args, _) =>
      ExprInside(pr, f);
      PrefixInside(pr, ExprCode(pr, f), args);
      InsideConcat(CallPrefix(pr, ExprCode(pr, f), args), [I(OpCall(Length(args))), I(OpNoop)]);
  }

  lemma InsideAssignIf(lv: Lval, c: Code, sense: bool)
    requires Inside(c)
    ensures Inside(AssignIfCode(lv, c, sense))
  {
    var front, tail := [P(RefOp(lv)), I(OpFetch)], [I(Op.OpAssign), I(OpBranch(2, ModNone)), I(OpDrop), I(OpNoop)];
    var br := I(if sense then OpBranchFalse(|c| + 1) else OpBranchTrue(|c| + 1));
    InsideConcat(c, tail);
    InsideBranch(front, br, c + tail);
    assert front + [br] + (c + tail) == AssignIfCode(lv, c, sense);
  }

  lemma {:induction false} PrefixInside(pr: Prims, c: Code, args: Exprs)
    requires Inside(c)
    ensures Inside(CallPrefix(pr, c, args))
    decreases args, 1
  {
    match args
    case NoArgs =>
    case Arg(e, tl) =>
      ExprInside(pr, e);
      PrefixInside(pr, ExprCode(pr, e), tl);
      InsidePush(c);
      InsideConcat(SetPush(c), CallPrefix(pr, ExprCode(pr, e), tl));
  }

  // ----- statements -----

  lemma InsidePatched(a: Code, x: Code, b: Code, brk: Target, cont: Target)
    requires Inside(a) && Inside(x) && Inside(b)
    requires brk.At? ==> 0 <= brk.i <= |x| + |b|
    requires cont.At? ==> 0 <= cont.i <= |x| + |b|
    ensures Inside(a + Patch(x, brk, cont) + b)
  {
    var y := Patch(x, brk, cont);
    var c := a + y + b;
    forall k | 0 <= k < |c| ensures In(c[k].op, k, |c|) {
      if k < |a| {
        assert In(a[k].op, k, |a|);
      } else if k < |a| + |x| {
        assert In(x[k - |a|].op, k - |a|, |x|);
        assert c[k] == Resolve(x[k - |a|], k - |a|, brk, cont);
      } else {
        assert In(b[k - |a| - |x|].op, k - |a| - |x|, |b|);
      }
    }
  }

  lemma OneInside(i: Inst)
    requires In(i.op, 0, 1)
    ensures Inside([i])
  {
  }

  lemma NoneInside()
    ensures Inside([])
  {
  }

  lemma {:induction false} StmtInside(pr: Prims, s: Stmt, inner: bool)
    ensures Inside(StmtCode(pr, s, inner))
    decreases s, 0
  {
    hide Inside, Patch, ReachesEnd, SetPush;
    NoneInside();
    match s
    case If(t, a) =>
      ExprInside(pr, t); StmtInside(pr, a, inner);
      InsideBranch(ExprCode(pr, t), I(OpBranchFalse(|StmtCode(pr, a, inner)| + 1)), StmtCode(pr, a, inner));
    case IfElse(t, a, b) =>
      ExprInside(pr, t); StmtInside(pr, a, inner); StmtInside(pr, b, inner);
      InsideElse(ExprCode(pr, t), StmtCode(pr, a, inner), StmtCode(pr, b, inner));
    case While(t, b) =>
      ExprInside(pr, t); StmtInside(pr, b, true);
      InsideWhile(ExprCode(pr, t), StmtCode(pr, b, true));
    case DoWhile(b, t) =>
      ExprInside(pr, t); StmtInside(pr, b, true);
      InsideDo(ExprCode(pr, t), StmtCode(pr, b, true));
    case For(_, _, _, b) =>
      StmtInside(pr, b, true);
      ForInside(pr, s, inner);
    case Switch(_, cs) =>
      ArmsInside(pr, cs);
      SwitchInside(pr, s, inner);
    case Break => OneInside(I(OpBranch(0, ModBreak)));
    case Continue => OneInside(I(OpBranch(0, ModContinue)));
    case Return(e) => ReturnInside(pr, e, inner);
    case ReturnVoid => OneInside(I(Op.OpReturnVoid));
    case ExprStat(e) => ExprInside(pr, e);
    case Semi =>
    case Block(ss) => BlockInside(pr, ss, inner);
  }

  lemma ForInside(pr: Prims, s: Stmt, inner: bool)
    requires s.For? && Inside(StmtCode(pr, s.body, true))
    ensures Inside(StmtCode(pr, s, inner))
  {
    if s.init.Some? { ExprInside(pr, s.init.value); }
    if s.cond.Some? { ExprInside(pr, s.cond.value); }
    if s.step.Some? { ExprInside(pr, s.step.value); }
    var c, n, x := OptCode(pr, s.cond), OptCode(pr, s.step), StmtCode(pr, s.body, true);
    InsideFor(c, n, x, s.cond.Some?);
    InsideConcat(OptCode(pr, s.init), ForCode(c, n, x, s.cond.Some?));
  }

  lemma SwitchInside(pr: Prims, s: Stmt, inner: bool)
    requires s.Switch? && Inside(ArmsCode(pr, s.cases))
    ensures Inside(StmtCode(pr, s, inner))
  {
    var c, tests, bodies := ExprCode(pr, s.subject), TestsCode(pr, s.cases, 0), ArmsCode(pr, s.cases);
    ExprInside(pr, s.subject);
    InsidePush(c);
    TestsInside(pr, s.cases, 0, |bodies|);
    DefaultInside(pr, s.cases);
    InsideSwitch(SetPush(c), tests, 1 + DefaultStart(pr, s.cases), bodies);
  }

  lemma ReturnInside(pr: Prims, e: Expr, inner: bool)
    ensures Inside(StmtCode(pr, Return(e), inner))
  {
    ExprInside(pr, e);
    InsideConcat(ExprCode(pr, e), [I(Op.OpReturn)]);
    if e.Call? {
      ExprInside(pr, e.fn);
      PrefixInside(pr, ExprCode(pr, e.fn), e.args);
      InsideConcat(CallPrefix(pr, ExprCode(pr, e.fn), e.args), [I(OpTailCall(Length(e.args)))]);
    }
  }

  lemma InsideElse(c: Code, x: Code, y: Code)
    requires Inside(c) && Inside(x) && Inside(y)
    ensures
      var skip := if ReachesEnd(x) then [I(OpBranch(|y| + 1, ModNone))] else [];
      Inside(c + [I(OpBranchFalse(|x| + |skip| + 1))] + x + skip + y)
  {
    if ReachesEnd(x) {
      InsideArms(c, x, y, []);
      var all := c + [I(OpBranchFalse(|x| + 2))] + x + [I(OpBranch(|y| + 1, ModNone))] + y;
      assert all + [] == all;
    } else {
      var bf := I(OpBranchFalse(|x| + 0 + 1));
      InsideConcat(x, y);
      InsideBranch(c, bf, x + y);
      assert c + [bf] + (x + y) == c + [bf] + x + [] + y;
    }
  }

  lemma InsideWhile(c: Code, x: Code)
    requires Inside(c) && Inside(x)
    ensures Inside([I(OpBranch(|x| + 1, ModNone))] + Patch(x, At(|x| + |c| + 1), At(|x|)) + c +
      [I(OpBranchTrue(-(|x| + |c|)))])
    ensures Inside(Patch(x, At(|x| + 1), At(|x|)) + [I(OpBranch(-|x|, ModNone))])
  {
    InsideTested(x, [], c, At(|x| + |c| + 1));
    var entry, body, back := [I(OpBranch(|x| + 1, ModNone))], Patch(x, At(|x| + |c| + 1), At(|x|)),
      [I(OpBranchTrue(-(|x| + |c|)))];
    assert entry + (body + [] + c + back) == entry + body + c + back;
    InsideEndless(x, []);
    var body1, back1 := Patch(x, At(|x| + 1), At(|x|)), [I(OpBranch(-|x|, ModNone))];
    assert body1 + [] + back1 == body1 + back1;
  }

  /** Body, step, test and the branch back, with and without the branch that enters them at the test. */
  lemma InsideTested(x: Code, n: Code, c: Code, brk: Target)
    requires Inside(x) && Inside(n) && Inside(c) && brk == At(|x| + |n| + |c| + 1)
    ensures
      var loop := Patch(x, brk, At(|x|)) + n + c + [I(OpBranchTrue(-(|x| + |n| + |c|)))];
      Inside(loop) && Inside([I(OpBranch(|x| + |n| + 1, ModNone))] + loop)
  {
    var body, back := Patch(x, brk, At(|x|)), I(OpBranchTrue(-(|x| + |n| + |c|)));
    var entry := I(OpBranch(|x| + |n| + 1, ModNone));
    InsideConcat(n, c);
    LoopInside(x, n + c, brk, At(|x|), back);
    assert body + (n + c) + [back] == body + n + c + [back];
    InsideBranch([], entry, body + n + c + [back]);
    assert [] + [entry] + (body + n + c + [back]) == [entry] + (body + n + c + [back]);
  }

  lemma LoopInside(x: Code, b: Code, brk: Target, cont: Target, back: Inst)
    requires Inside(x) && Inside(b) && In(back.op, |x| + |b|, |x| + |b| + 1)
    requires brk.At? ==> 0 <= brk.i <= |x| + |b| + 1
    requires cont.At? ==> 0 <= cont.i <= |x| + |b| + 1
    ensures Inside(Patch(x, brk, cont) + b + [back])
  {
    var y := Patch(x, brk, cont);
    var c := y + b + [back];
    forall k | 0 <= k < |c| ensures In(c[k].op, k, |c|) {
      if k < |x| {
        assert In(x[k].op, k, |x|);
        assert c[k] == Resolve(x[k], k, brk, cont);
      } else if k < |x| + |b| {
        assert In(b[k - |x|].op, k - |x|, |b|);
      }
    }
  }

  lemma InsideEndless(x: Code, n: Code)
    requires Inside(x) && Inside(n)
    ensures
      var loop := Patch(x, At(|x| + |n| + 1), At(|x|)) + n + [I(OpBranch(-(|x| + |n|), ModNone))];
      Inside(loop) && Inside([I(OpBranch(|x| + |n| + 1, ModNone))] + loop)
  {
    var body, back := Patch(x, At(|x| + |n| + 1), At(|x|)), I(OpBranch(-(|x| + |n|), ModNone));
    var entry := I(OpBranch(|x| + |n| + 1, ModNone));
    LoopInside(x, n, At(|x| + |n| + 1), At(|x|), back);
    InsideBranch([], entry, body + n + [back]);
    assert [] + [entry] + (body + n + [back]) == [entry] + (body + n + [back]);
  }

  lemma InsideDo(c: Code, x: Code)
    requires Inside(c) && Inside(x)
    ensures
      var test := if !IsConst(c) then c + [I(OpBranchTrue(-(|x| + |c|)))]
                  else if IsTrue(c) then [I(OpBranch(-|x|, ModNone))]
                  else [];
      Inside(Patch(x, At(|x| + |test|), At(|x|)) + test)
  {
    if !IsConst(c) {
      InsideTested(x, [], c, At(|x| + |c| + 1));
      var body, back := Patch(x, At(|x| + |c| + 1), At(|x|)), [I(OpBranchTrue(-(|x| + |c|)))];
      assert body + [] + c + back == body + (c + back);
    } else if IsTrue(c) {
      InsideEndless(x, []);
      var body, back := Patch(x, At(|x| + 1), At(|x|)), [I(OpBranch(-|x|, ModNone))];
      assert body + [] + back == body + back;
    } else {
      InsidePatched([], x, [], At(|x|), At(|x|));
      var body := Patch(x, At(|x|), At(|x|));
      assert [] + body + [] == body + [];
    }
  }

  lemma InsideFor(c: Code, n: Code, x: Code, hasCond: bool)
    requires Inside(c) && Inside(n) && Inside(x)
    ensures Inside(ForCode(c, n, x, hasCond))
  {
    InsideEndless(x, n);
    InsideTested(x, n, c, At(|x| + |n| + |c| + 1));
    var entry := [I(OpBranch(|x| + |n| + 1, ModNone))];
    var body, back := Patch(x, At(|x| + |n| + 1), At(|x|)), [I(OpBranch(-(|x| + |n|), ModNone))];
    assert entry + (body + n + back) == entry + body + n + back;
    var body1, back1 := Patch(x, At(|x| + |n| + |c| + 1), At(|x|)), [I(OpBranchTrue(-(|x| + |n| + |c|)))];
    assert entry + (body1 + n + c + back1) == entry + body1 + n + c + back1;
  }

  lemma {:induction false} BlockInside(pr: Prims, ss: Stmts, inner: bool)
    ensures Inside(BlockCode(pr, ss, inner))
    decreases ss, 0
  {
    match ss
    case Nil =>
    case Cons(s, tl) =>
      StmtInside(pr, s, inner);
      BlockInside(pr, tl, inner);
      InsideConcat(StmtCode(pr, s, inner), BlockCode(pr, tl, inner));
  }

  lemma {:induction false} ArmsInside(pr: Prims, cs: Cases)
    ensures Inside(ArmsCode(pr, cs))
    decreases cs, 0
  {
    match cs
    case NoCases =>
    case Arm(_, b, rest) =>
      BlockInside(pr, b, true);
      ArmsInside(pr, rest);
      InsideConcat(BlockCode(pr, b, true), ArmsCode(pr, rest));
  }

  /** The tests of a switch branch within the tests, the default instruction and the arms. */
  ghost predicate InTests(tests: Code, len: nat) {
    forall i :: 0 <= i < |tests| ==> In(tests[i].op, i, |tests| + 1 + len)
  }

  lemma {:induction false} TestsInside(pr: Prims, cs: Cases, start: nat, len: nat)
    requires start + |ArmsCode(pr, cs)| == len
    ensures InTests(TestsCode(pr, cs, start), len)
    decreases cs
  {
    match cs
    case NoCases =>
    case Arm(l, b, rest) =>
      var start1 := start + |BlockCode(pr, b, true)|;
      TestsInside(pr, rest, start1, len);
      if l.Some? {
        var c, more := ExprCode(pr, l.value), TestsCode(pr, rest, start1);
        ExprInside(pr, l.value);
        TestInside(c, OpCase(2 + |more| + start), more, len);
      }
  }

  lemma TestInside(c: Code, op: Op, more: Code, len: nat)
    requires Inside(c) && InTests(more, len) && In(op, |c|, |c| + 1 + |more| + 1 + len)
    ensures InTests(c + [I(op)] + more, len)
  {
    var tests := c + [I(op)] + more;
    forall i | 0 <= i < |tests| ensures In(tests[i].op, i, |tests| + 1 + len) {
      if i < |c| {
        assert In(c[i].op, i, |c|);
      } else if i > |c| {
        assert In(more[i - |c| - 1].op, i - |c| - 1, |more| + 1 + len);
      }
    }
  }

  lemma {:induction false} DefaultInside(pr: Prims, cs: Cases)
    ensures DefaultStart(pr, cs) <= |ArmsCode(pr, cs)|
  {
    match cs
    case NoCases =>
    case Arm(l, _, rest) => DefaultInside(pr, rest);
  }

  lemma InsideSwitch(head: Code, tests: Code, off: nat, bodies: Code)
    requires Inside(head) && InTests(tests, |bodies|) && Inside(bodies) && off <= 1 + |bodies|
    ensures Inside(head + tests + [I(OpDefault(off))] + Patch(bodies, At(|bodies|), Keep))
  {
    var y := Patch(bodies, At(|bodies|), Keep);
    var c := head + tests + [I(OpDefault(off))] + y;
    forall k | 0 <= k < |c| ensures In(c[k].op, k, |c|) {
      if k < |head| {
        assert In(head[k].op, k, |head|);
      } else if k < |head| + |tests| {
        assert c[k] == tests[k - |head|];
        assert In(tests[k - |head|].op, k - |head|, |tests| + 1 + |bodies|);
      } else if k > |head| + |tests| {
        var j := k - |head| - |tests| - 1;
        assert In(bodies[j].op, j, |bodies|);
        assert c[k] == Resolve(bodies[j], j, At(|bodies|), Keep);
      }
    }
  }

  /** Where control goes from the instruction at `i`, apart from calls and returns. */
  ghost predicate Successor(c: Code, i: int, j: int) {
    0 <= i < |c| && ((IsBranch(c[i].op) && j == i + c[i].op.offset) || (!IsUnconditional(c[i].op) && j == i + 1))
  }

  /** Control never leaves the code of a function other than by returning or calling: no branch and no fall-through. */
  lemma BodyClosed(pr: Prims, s: Stmt, i: int, j: int)
    requires Successor(BodyCode(pr, s), i, j)
    ensures 0 <= j < |BodyCode(pr, s)|
  {
    var c, body := StmtCode(pr, s, false), BodyCode(pr, s);
    StmtInside(pr, s, false);
    if i < |c| { assert body[i] == c[i] && In(c[i].op, i, |c|); }
  }
}
