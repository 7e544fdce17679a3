/** Chains of tail calls run in one frame. */
module TailRuns {
  import opened Options
  import opened Values
  import opened Machine
  import opened Syntax
  import opened Codegen
  import opened Correctness
  import Heights

  // ----- the calls in code -----

  /** How many ordinary calls there are in the code. */
  function OpCalls(c: Code): nat {
    if c == [] then 0 else (if c[0].op.OpCall? then 1 else 0) + OpCalls(c[1..])
  }

  lemma {:induction false} OpCallsConcat(a: Code, b: Code)
    ensures OpCalls(a + b) == OpCalls(a) + OpCalls(b)
    decreases |a|
  {
    if a == [] {
      assert a + b == b;
    } else {
      assert (a + b)[1..] == a[1..] + b;
      OpCallsConcat(a[1..], b);
    }
  }

  /** A typed call that is returned, outside of loops and switches, is no ordinary call; any other is one. */
  lemma ReturnedCall(pr: Prims, f: Expr, args: Exprs, typed: bool, inner: bool)
    ensures
      var c := StmtCode(pr, Return(Call(f, args, typed)), inner);
      && OpCalls(c) == OpCalls(CallPrefix(pr, ExprCode(pr, f), args)) + (if typed && !inner then 0 else 1)
      && c != [] && (c[|c| - 1].op == OpTailCall(Length(args)) <==> typed && !inner)
  {
    var a := CallPrefix(pr, ExprCode(pr, f), args);
    var last := if typed && !inner then [I(OpTailCall(Length(args)))]
                else [I(OpCall(Length(args)))] + [I(OpNoop)] + [I(OpReturn)];
    assert StmtCode(pr, Return(Call(f, args, typed)), inner) == a + last;
    OpCallsConcat(a, last);
    assert OpCalls(last) == if typed && !inner then 0 else 1 by {
      if !(typed && !inner) {
        OpCallsConcat([I(OpCall(Length(args)))] + [I(OpNoop)], [I(OpReturn)]);
        OpCallsConcat([I(OpCall(Length(args)))], [I(OpNoop)]);
      }
    }
  }

  // ----- programs with tail calls only -----

  predicate CallFree(e: Expr) {
    match e
    case Const(_) => true
    case Var(_) => true
    case Unary(_, a) => CallFree(a)
    case Binary(_, l, r) => CallFree(l) && CallFree(r)
    case Quest(t, y, n) => CallFree(t) && CallFree(y) && CallFree(n)
    case And(l, r) => CallFree(l) && CallFree(r)
    case Or(l, r) => CallFree(l) && CallFree(r)
    case Assign(_, r) => CallFree(r)
    case AssignOp(_, _, r) => CallFree(r)
    case AssignAnd(_, r) => CallFree(r)
    case AssignOr(_, r) => CallFree(r)
    case IncDec(_, _, _) => true
    case Comma(l, r) => CallFree(l) && CallFree(r)
    case Call(_, _, _) => false
  }

  predicate ArgsCallFree(args: Exprs) {
    match args
    case NoArgs => true
    case Arg(e, tl) => CallFree(e) && ArgsCallFree(tl)
  }

  predicate OptCallFree(e: Option<Expr>) { e.Some? ==> CallFree(e.value) }

  /** The only calls are typed ones that are returned outside of loops and switches. */
  predicate TailOnly(s: Stmt, inner: bool) {
    match s
    case If(t, a) => CallFree(t) && TailOnly(a, inner)
    case IfElse(t, a, b) => CallFree(t) && TailOnly(a, inner) && TailOnly(b, inner)
    case While(t, b) => CallFree(t) && TailOnly(b, true)
    case DoWhile(b, t) => CallFree(t) && TailOnly(b, true)
    case For(i, c, n, b) => OptCallFree(i) && OptCallFree(c) && OptCallFree(n) && TailOnly(b, true)
    case Switch(e, cs) => CallFree(e) && ArmsTailOnly(cs)
    case Return(e) =>
      CallFree(e) || (!inner && e.Call? && e.typed && CallFree(e.fn) && ArgsCallFree(e.args))
    case ExprStat(e) => CallFree(e)
    case Block(ss) => AllTailOnly(ss, inner)
    case _ => true
  }

  predicate AllTailOnly(ss: Stmts, inner: bool) {
    match ss
    case Nil => true
    case Cons(s, tl) => TailOnly(s, inner) && AllTailOnly(tl, inner)
  }

  predicate ArmsTailOnly(cs: Cases) {
    match cs
    case NoCases => true
    case Arm(l, b, rest) => OptCallFree(l) && AllTailOnly(b, true) && ArmsTailOnly(rest)
  }

  // ----- their code has no ordinary call -----

  ghost predicate NoCalls(c: Code) {
    forall k :: 0 <= k < |c| ==> !c[k].op.OpCall?
  }

  lemma NoCallsConcat(a: Code, b: Code)
    requires NoCalls(a) && NoCalls(b)
    ensures NoCalls(a + b)
  {
  }

  lemma BinaryNoCalls(a: Code, b: Code, op: Op)
    requires NoCalls(a) && NoCalls(b) && !op.OpCall?
    ensures NoCalls(SetPush(a) + b + [I(op)])
  {
  }

  lemma QuestNoCalls(c: Code, a: Code, b: Code, br: Op, skip: Op)
    requires NoCalls(c) && NoCalls(a) && NoCalls(b) && !br.OpCall? && !skip.OpCall?
    ensures NoCalls(c + [I(br)] + a + [I(skip)] + b + [I(OpNoop)])
  {
  }

  lemma ShortNoCalls(a: Code, b: Code, br: Op)
    requires NoCalls(a) && NoCalls(b) && !br.OpCall?
    ensures NoCalls(a + [I(br)] + b + [I(OpNoop)])
  {
  }

  lemma AssignNoCalls(lv: Lval, c: Code, op: nat, sense: bool)
    requires NoCalls(c)
    ensures NoCalls([P(RefStoreOp(lv))] + c + [I(OpAssign)])
    ensures NoCalls([P(RefOp(lv)), P(OpFetch)] + c + [I(OpAssignOp(op))])
    ensures NoCalls(AssignIfCode(lv, c, sense))
  {
  }

  lemma {:induction false} ExprNoCalls(pr: Prims, e: Expr)
    requires CallFree(e)
    ensures NoCalls(ExprCode(pr, e))
  {
    hide NoCalls, SetPush, AssignIfCode, IsTrue, Folded;
    match e
    case Const(_) => OneNoCall(OpConst(e.v));
    case Var(lv) => LoadNoCall(lv, true, 0);
    case Unary(op, a) =>
      ExprNoCalls(pr, a);
      UnaryNoCalls(ExprCode(pr, a), op);
      if IsConst(ExprCode(pr, a)) { FoldedNoCalls(pr.unary(op, ExprCode(pr, a)[0].op.constant)); }
    case Binary(op, l, r) =>
      ExprNoCalls(pr, l);
      ExprNoCalls(pr, r);
      var a, b := ExprCode(pr, l), ExprCode(pr, r);
      if IsConst(a) && IsConst(b) { FoldedNoCalls(pr.binary(op, a[0].op.constant, b[0].op.constant)); }
      BinaryNoCalls(ExprCode(pr, l), ExprCode(pr, r), OpBin(op));
    case Quest(t, y, n) =>
      ExprNoCalls(pr, t);
      ExprNoCalls(pr, y);
      ExprNoCalls(pr, n);
      var a, b := ExprCode(pr, y), ExprCode(pr, n);
      QuestNoCalls(ExprCode(pr, t), a, b, OpBranchFalse(|a| + 2), OpBranch(|b| + 1, ModNone));
    case And(l, r) =>
      ExprNoCalls(pr, l);
      ExprNoCalls(pr, r);
      ShortNoCalls(ExprCode(pr, l), ExprCode(pr, r), OpBranchFalse(|ExprCode(pr, r)| + 1));
    case Or(l, r) =>
      ExprNoCalls(pr, l);
      ExprNoCalls(pr, r);
      ShortNoCalls(ExprCode(pr, l), ExprCode(pr, r), OpBranchTrue(|ExprCode(pr, r)| + 1));
    case Assign(lv, r) =>
      ExprNoCalls(pr, r);
      AssignNoCalls(lv, ExprCode(pr, r), 0, true);
    case AssignOp(lv, op, r) =>
      ExprNoCalls(pr, r);
      AssignNoCalls(lv, ExprCode(pr, r), op, true);
    case AssignAnd(lv, r) =>
      ExprNoCalls(pr, r);
      AssignNoCalls(lv, ExprCode(pr, r), 0, true);
    case AssignOr(lv, r) =>
      ExprNoCalls(pr, r);
      AssignNoCalls(lv, ExprCode(pr, r), 0, false);
    case IncDec(lv, op, pre) => LoadNoCall(lv, pre, op);
    case Comma(l, r) =>
      ExprNoCalls(pr, l);
      ExprNoCalls(pr, r);
      CommaNoCalls(ExprCode(pr, l), ExprCode(pr, r));
  }

  lemma OneNoCall(op: Op)
    requires !op.OpCall?
    ensures NoCalls([I(op)])
  {
  }

  lemma FoldedNoCalls(r: OpResult)
    ensures NoCalls(Folded(r))
  {
  }

  lemma LoadNoCall(lv: Lval, pre: bool, op: nat)
    ensures NoCalls([I(LoadOp(lv))]) && NoCalls([I(RefOp(lv)), I(if pre then OpPre(op) else OpPost(op))])
  {
  }

  lemma UnaryNoCalls(a: Code, op: nat)
    requires NoCalls(a)
    ensures NoCalls(a + [I(OpUn(op))])
  {
  }

  lemma CommaNoCalls(a: Code, b: Code)
    requires NoCalls(a) && NoCalls(b)
    ensures NoCalls(a + b) && NoCalls([] + b)
  {
  }

  lemma {:induction false} PrefixNoCalls(pr: Prims, c: Code, args: Exprs)
    requires NoCalls(c) && ArgsCallFree(args)
    ensures NoCalls(CallPrefix(pr, c, args))
    decreases args
  {
    match args
    case NoArgs =>
    case Arg(e, tl) =>
      ExprNoCalls(pr, e);
      PrefixNoCalls(pr, ExprCode(pr, e), tl);
      assert NoCalls(SetPush(c));
  }

  lemma OptNoCalls(pr: Prims, e: Option<Expr>)
    requires OptCallFree(e)
    ensures NoCalls(OptCode(pr, e))
  {
    if e.Some? { ExprNoCalls(pr, e.value); }
  }

  lemma PatchNoCalls(c: Code, brk: Target, cont: Target)
    requires NoCalls(c)
    ensures NoCalls(Patch(c, brk, cont))
  {
  }

  lemma IfNoCalls(c: Code, x: Code, y: Code)
    requires NoCalls(c) && NoCalls(x) && NoCalls(y)
    ensures NoCalls([]) && NoCalls(c + [I(OpBranchFalse(|x| + 1))] + x)
    ensures
      var skip := if ReachesEnd(x) then [I(OpBranch(|y| + 1, ModNone))] else [];
      NoCalls(c + [I(OpBranchFalse(|x| + |skip| + 1))] + x + skip + y)
  {
    hide ReachesEnd;
  }

  lemma LoopNoCalls(c: Code, x: Code)
    requires NoCalls(c) && NoCalls(x)
    ensures NoCalls(Patch(x, At(|x| + 1), At(|x|)) + [I(OpBranch(-|x|, ModNone))])
    ensures NoCalls([I(OpBranch(|x| + 1, ModNone))] + Patch(x, At(|x| + |c| + 1), At(|x|)) + c +
                    [I(OpBranchTrue(-(|x| + |c|)))])
  {
    forall brk, cont ensures NoCalls(Patch(x, brk, cont)) { PatchNoCalls(x, brk, cont); }
    hide Patch;
  }

  lemma ReturnNoCalls(c: Code)
    requires NoCalls(c)
    ensures NoCalls(c + [I(Op.OpReturn)]) && forall n: nat :: NoCalls(c + [I(OpTailCall(n))])
  {
  }

  lemma JumpNoCalls()
    ensures NoCalls([I(OpBranch(0, ModBreak))]) && NoCalls([I(OpBranch(0, ModContinue))])
    ensures NoCalls([I(Op.OpReturnVoid)]) && NoCalls([])
  {
  }

  lemma {:induction false} StmtNoCalls(pr: Prims, s: Stmt, inner: bool)
    requires TailOnly(s, inner)
    ensures NoCalls(StmtCode(pr, s, inner))
    decreases s, 0
  {
    JumpNoCalls();
    hide ReachesEnd, ExprCode, Patch, NoCalls, SetPush, ForCode, IsConst, IsTrue;
    match s
    case If(t, a) =>
      ExprNoCalls(pr, t);
      StmtNoCalls(pr, a, inner);
      IfNoCalls(ExprCode(pr, t), StmtCode(pr, a, inner), []);
    case IfElse(t, a, b) =>
      ExprNoCalls(pr, t);
      StmtNoCalls(pr, a, inner);
      StmtNoCalls(pr, b, inner);
      IfNoCalls(ExprCode(pr, t), StmtCode(pr, a, inner), StmtCode(pr, b, inner));
    case While(t, b) =>
      ExprNoCalls(pr, t);
      StmtNoCalls(pr, b, true);
      LoopNoCalls(ExprCode(pr, t), StmtCode(pr, b, true));
    case DoWhile(b, t) =>
      ExprNoCalls(pr, t);
      StmtNoCalls(pr, b, true);
      DoNoCalls(ExprCode(pr, t), StmtCode(pr, b, true));
    case For(i, c, n, b) =>
      OptNoCalls(pr, i);
      OptNoCalls(pr, c);
      OptNoCalls(pr, n);
      StmtNoCalls(pr, b, true);
      ForNoCalls(OptCode(pr, c), OptCode(pr, n), StmtCode(pr, b, true), c.Some?);
      NoCallsConcat(OptCode(pr, i), ForCode(OptCode(pr, c), OptCode(pr, n), StmtCode(pr, b, true), c.Some?));
    case Switch(e, cs) =>
      ExprNoCalls(pr, e);
      TestsNoCalls(pr, cs, 0);
      ArmsNoCalls(pr, cs);
      SwitchNoCalls(ExprCode(pr, e), TestsCode(pr, cs, 0), I(OpDefault(1 + DefaultStart(pr, cs))), ArmsCode(pr, cs));
    case Return(e) =>
      if e.Call? {
        ExprNoCalls(pr, e.fn);
        PrefixNoCalls(pr, ExprCode(pr, e.fn), e.args);
        ReturnNoCalls(CallPrefix(pr, ExprCode(pr, e.fn), e.args));
      } else {
        ExprNoCalls(pr, e);
        ReturnNoCalls(ExprCode(pr, e));
      }
    case ExprStat(e) => ExprNoCalls(pr, e);
    case Block(ss) => BlockNoCalls(pr, ss, inner);
    case _ =>
  }

  lemma DoNoCalls(c: Code, x: Code)
    requires NoCalls(c) && NoCalls(x)
    ensures
      var test := if !IsConst(c) then c + [I(OpBranchTrue(-(|x| + |c|)))]
                  else if IsTrue(c) then [I(OpBranch(-|x|, ModNone))]
                  else [];
      NoCalls(Patch(x, At(|x| + |test|), At(|x|)) + test)
  {
    forall brk, cont ensures NoCalls(Patch(x, brk, cont)) { PatchNoCalls(x, brk, cont); }
    hide Patch;
  }

  lemma ForNoCalls(c: Code, n: Code, x: Code, hasCond: bool)
    requires NoCalls(c) && NoCalls(n) && NoCalls(x)
    ensures NoCalls(ForCode(c, n, x, hasCond))
  {
    forall brk, cont ensures NoCalls(Patch(x, brk, cont)) { PatchNoCalls(x, brk, cont); }
    hide Patch;
  }

  lemma SwitchNoCalls(e: Code, tests: Code, dflt: Inst, arms: Code)
    requires NoCalls(e) && NoCalls(tests) && NoCalls(arms) && !dflt.op.OpCall?
    ensures NoCalls(SetPush(e) + tests + [dflt] + Patch(arms, At(|arms|), Keep))
  {
    PatchNoCalls(arms, At(|arms|), Keep);
    hide Patch;
    assert NoCalls(SetPush(e));
  }

  lemma {:induction false} BlockNoCalls(pr: Prims, ss: Stmts, inner: bool)
    requires AllTailOnly(ss, inner)
    ensures NoCalls(BlockCode(pr, ss, inner))
    decreases ss, 0
  {
    match ss
    case Nil =>
    case Cons(s, tl) => StmtNoCalls(pr, s, inner); BlockNoCalls(pr, tl, inner);
  }

  lemma {:induction false} TestsNoCalls(pr: Prims, cs: Cases, start: nat)
    requires ArmsTailOnly(cs)
    ensures NoCalls(TestsCode(pr, cs, start))
    decreases cs, 0
  {
    match cs
    case NoCases =>
    case Arm(l, b, rest) =>
      if l.Some? { ExprNoCalls(pr, l.value); }
      TestsNoCalls(pr, rest, start + |BlockCode(pr, b, true)|);
  }

  lemma {:induction false} ArmsNoCalls(pr: Prims, cs: Cases)
    requires ArmsTailOnly(cs)
    ensures NoCalls(ArmsCode(pr, cs))
    decreases cs, 0
  {
    match cs
    case NoCases =>
    case Arm(_, b, rest) => BlockNoCalls(pr, b, true); ArmsNoCalls(pr, rest);
  }

  ghost predicate TailCallsOnly(p: Prog) {
    forall i :: 0 <= i < |p.funs| ==> TailOnly(p.funs[i].body, false)
  }

  lemma ObjectNoCalls(p: Prog, main: nat, obj: nat)
    requires TailCallsOnly(p) && obj < |p.funs|
    ensures NoCalls(CodeOf(WorldOf(p, main), obj))
  {
    StmtNoCalls(p.prims, p.funs[obj].body, false);
    var c := StmtCode(p.prims, p.funs[obj].body, false);
    hide StmtCode, ReachesEnd;
    assert CodeOf(WorldOf(p, main), obj) == BodyCode(p.prims, p.funs[obj].body);
  }

  // ----- runs -----

  /** In a function there is the one frame of the call that the program starts with; outside there is none. */
  ghost predicate OneFrame(p: Prog, c: Conf) {
    c.Running? ==>
      if c.m.obj < |p.funs| then
        c.m.frame.Frame? && c.m.frame.previous == NoFrame && c.m.frame.saveObj >= |p.funs|
      else c.m.frame == NoFrame
  }

  lemma CallOneFrame(p: Prog, w: World, m: Mach, i: Inst)
    requires |w.objs| == |p.funs| && OneFrame(p, Running(m))
    requires (i.op.OpCall? && m.obj >= |p.funs|) || (i.op.OpTailCall? && m.obj < |p.funs|)
    ensures OneFrame(p, ExecInst(w, m, i))
  {
    hide Args, Alloc, NewBox, Elt, Dropped, Height;
  }

  lemma ReturnOneFrame(p: Prog, w: World, m: Mach, i: Inst)
    requires |w.objs| == |p.funs| && OneFrame(p, Running(m)) && (i.op.OpReturn? || i.op.OpReturnVoid?)
    ensures OneFrame(p, ExecInst(w, m, i))
  {
    hide Dropped, Height;
  }

  lemma StepOneFrame(p: Prog, main: nat, c: Conf)
    requires TailCallsOnly(p) && OneFrame(p, c)
    ensures OneFrame(p, Step(WorldOf(p, main), c))
  {
    var w := WorldOf(p, main);
    if c.Running? && 0 <= c.m.pc < |CodeOf(w, c.m.obj)| {
      var m, code := c.m, CodeOf(w, c.m.obj);
      var i := code[m.pc];
      assert c == Running(m) && Step(w, c) == ExecInst(w, m, i);
      if m.obj < |p.funs| {
        ObjectNoCalls(p, main, m.obj);
      } else {
        assert code == StartCode(main);
      }
      assert i.op.OpCall? ==> m.obj >= |p.funs|;
      assert i.op.OpTailCall? ==> m.obj < |p.funs|;
      hide Step, ExecInst, CodeOf, TailCallsOnly, StartCode;
      if i.op.OpCall? || i.op.OpTailCall? {
        CallOneFrame(p, w, m, i);
      } else if i.op.OpReturn? || i.op.OpReturnVoid? {
        ReturnOneFrame(p, w, m, i);
      } else {
        Heights.StaysIn(w, m, i);
      }
    }
  }

  lemma {:induction false} StepsOneFrame(p: Prog, main: nat, c: Conf, n: nat)
    requires TailCallsOnly(p) && OneFrame(p, c)
    ensures OneFrame(p, Steps(WorldOf(p, main), c, n))
    decreases n
  {
    if n > 0 {
      StepOneFrame(p, main, c);
      hide Step, OneFrame, TailCallsOnly;
      StepsOneFrame(p, main, Step(WorldOf(p, main), c), n - 1);
    }
  }

  /** A program whose only calls are such returns never has more than one frame, however many calls it makes. */
  lemma ConstantDepth(p: Prog, main: nat, st: Store, n: nat)
    requires TailCallsOnly(p) && Run(p, main, st, n).Running?
    ensures Depth(Run(p, main, st, n).m.frame) <= 1
  {
    StepsOneFrame(p, main, Running(StartMach(p, st)), n);
  }

  // ----- a chain without end -----

  /** A function that returns a call of itself. */
  function Again(pr: Prims): Prog {
    Prog(pr, [Fun(0, 0, Return(Call(Const(Func(0)), NoArgs, true)))])
  }

  lemma {:induction false} AgainTimesOut(pr: Prims, st: Store, fuel: nat)
    ensures Apply(Again(pr), Func(0), [], st, fuel) == ETimeout
    decreases fuel
  {
    var p := Again(pr);
    if fuel > 0 {
      var box, st1 := |st.boxes|, Alloc(st, NewBox([], 0));
      assert Eval(p, Const(Func(0)), box, st1, fuel - 1) == EVal(Func(0), st1);
      assert EvalArgs(p, NoArgs, box, st1, fuel - 1) == AVals([], st1);
      AgainTimesOut(pr, st1, fuel - 1);
      assert Eval(p, Call(Const(Func(0)), NoArgs, true), box, st1, fuel - 1) == ETimeout;
      assert Exec(p, p.funs[0].body, box, st1, fuel - 1) == STimeout;
    }
  }

  /** It calls itself forever, in one frame. */
  lemma EndlessChain(pr: Prims, st: Store, n: nat)
    ensures var c := Run(Again(pr), 0, st, n); c.Running? && Depth(c.m.frame) <= 1
  {
    var p := Again(pr);
    forall fuel ensures Meaning(p, 0, st, fuel) == ETimeout { AgainTimesOut(pr, st, fuel); }
    assert Clean(p);
    DivergesAlike(p, 0, st);
    ConstantDepth(p, 0, st, n);
  }
}
