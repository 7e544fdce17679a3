/** Making calls in return position tail calls changes nothing but the depth of frames. */
module TailCalls {
  import opened Options
  import opened Values
  import opened Machine
  import opened Syntax
  import opened Codegen
  import opened Correctness

  // ----- the same program without tail calls -----

  function PlainExpr(e: Expr): Expr {
    match e
    case Const(v) => e
    case Var(lv) => e
    case Unary(op, a) => Unary(op, PlainExpr(a))
    case Binary(op, l, r) => Binary(op, PlainExpr(l), PlainExpr(r))
    case Quest(t, y, n) => Quest(PlainExpr(t), PlainExpr(y), PlainExpr(n))
    case And(l, r) => And(PlainExpr(l), PlainExpr(r))
    case Or(l, r) => Or(PlainExpr(l), PlainExpr(r))
    case Assign(lv, r) => Assign(lv, PlainExpr(r))
    case AssignOp(lv, op, r) => AssignOp(lv, op, PlainExpr(r))
    case AssignAnd(lv, r) => AssignAnd(lv, PlainExpr(r))
    case AssignOr(lv, r) => AssignOr(lv, PlainExpr(r))
    case IncDec(lv, op, pre) => e
    case Comma(l, r) => Comma(PlainExpr(l), PlainExpr(r))
    case Call(f, args, _) => Call(PlainExpr(f), PlainArgs(args), false)
  }

  function PlainArgs(args: Exprs): (r: Exprs)
    ensures Length(r) == Length(args)
  {
    match args
    case NoArgs => NoArgs
    case Arg(e, tl) => Arg(PlainExpr(e), PlainArgs(tl))
  }

  function PlainOpt(e: Option<Expr>): Option<Expr> {
    match e
    case None => None
    case Some(x) => Some(PlainExpr(x))
  }

  function PlainStmt(s: Stmt): Stmt {
    match s
    case If(t, a) => If(PlainExpr(t), PlainStmt(a))
    case IfElse(t, a, b) => IfElse(PlainExpr(t), PlainStmt(a), PlainStmt(b))
    case While(t, b) => While(PlainExpr(t), PlainStmt(b))
    case DoWhile(b, t) => DoWhile(PlainStmt(b), PlainExpr(t))
    case For(i, c, n, b) => For(PlainOpt(i), PlainOpt(c), PlainOpt(n), PlainStmt(b))
    case Switch(e, cs) => Switch(PlainExpr(e), PlainCases(cs))
    case Break => s
    case Continue => s
    case Return(e) => Return(PlainExpr(e))
    case ReturnVoid => s
    case ExprStat(e) => ExprStat(PlainExpr(e))
    case Semi => s
    case Block(ss) => Block(PlainStmts(ss))
  }

  function PlainStmts(ss: Stmts): Stmts {
    match ss
    case Nil => Nil
    case Cons(s, tl) => Cons(PlainStmt(s), PlainStmts(tl))
  }

  function PlainCases(cs: Cases): Cases {
    match cs
    case NoCases => NoCases
    case Arm(l, b, rest) => Arm(PlainOpt(l), PlainStmts(b), PlainCases(rest))
  }

  function Plain(p: Prog): (r: Prog)
    ensures |r.funs| == |p.funs| && r.prims == p.prims
  {
    Prog(p.prims, seq(|p.funs|, i requires 0 <= i < |p.funs| =>
      Fun(p.funs[i].argc, p.funs[i].autos, PlainStmt(p.funs[i].body))))
  }

  // ----- it means the same -----

  lemma {:induction false} SameEval(p: Prog, e: Expr, box: nat, st: Store, fuel: nat)
    ensures Eval(Plain(p), PlainExpr(e), box, st, fuel) == Eval(p, e, box, st, fuel)
    decreases fuel, 1, e, 0
  {
    hide Plain, Read, Store1;
    match e
    case Const(_) =>
    case Var(_) =>
    case Unary(_, a) => SameEval(p, a, box, st, fuel);
    case Binary(_, l, r) =>
      SameEval(p, l, box, st, fuel);
      var a := Eval(p, l, box, st, fuel);
      if a.EVal? { SameEval(p, r, box, a.st, fuel); }
    case Quest(t, y, n) =>
      SameBool(p, t, box, st, fuel);
      var c := EvalBool(p, t, box, st, fuel);
      if c.EVal? {
        SameEval(p, y, box, c.st, fuel);
        SameEval(p, n, box, c.st, fuel);
      }
    case And(l, r) =>
      SameBool(p, l, box, st, fuel);
      var c := EvalBool(p, l, box, st, fuel);
      if c.EVal? { SameEval(p, r, box, c.st, fuel); }
    case Or(l, r) =>
      SameBool(p, l, box, st, fuel);
      var c := EvalBool(p, l, box, st, fuel);
      if c.EVal? { SameEval(p, r, box, c.st, fuel); }
    case Assign(_, r) => SameEval(p, r, box, st, fuel);
    case AssignOp(_, _, r) => SameEval(p, r, box, st, fuel);
    case AssignAnd(_, r) => SameEval(p, r, box, st, fuel);
    case AssignOr(_, r) => SameEval(p, r, box, st, fuel);
    case IncDec(_, _, _) =>
    case Comma(l, r) =>
      SameEval(p, l, box, st, fuel);
      var a := Eval(p, l, box, st, fuel);
      if a.EVal? { SameEval(p, r, box, a.st, fuel); }
    case Call(f, args, _) =>
      SameEval(p, f, box, st, fuel);
      var a := Eval(p, f, box, st, fuel);
      if a.EVal? {
        SameArgs(p, args, box, a.st, fuel);
        var vs := EvalArgs(p, args, box, a.st, fuel);
        if vs.AVals? { SameApply(p, a.v, vs.vs, vs.st, fuel); }
      }
  }

  lemma {:induction false} SameBool(p: Prog, e: Expr, box: nat, st: Store, fuel: nat)
    ensures EvalBool(Plain(p), PlainExpr(e), box, st, fuel) == EvalBool(p, e, box, st, fuel)
    decreases fuel, 1, e, 1
  {
    SameEval(p, e, box, st, fuel);
  }

  lemma {:induction false} SameOpt(p: Prog, e: Option<Expr>, box: nat, st: Store, fuel: nat)
    ensures EvalOpt(Plain(p), PlainOpt(e), box, st, fuel) == EvalOpt(p, e, box, st, fuel)
    decreases fuel, 1, e, 1
  {
    if e.Some? { SameEval(p, e.value, box, st, fuel); }
  }

  lemma {:induction false} SameArgs(p: Prog, args: Exprs, box: nat, st: Store, fuel: nat)
    ensures EvalArgs(Plain(p), PlainArgs(args), box, st, fuel) == EvalArgs(p, args, box, st, fuel)
    decreases fuel, 1, args, 0
  {
    match args
    case NoArgs =>
    case Arg(e, tl) =>
      SameEval(p, e, box, st, fuel);
      var a := Eval(p, e, box, st, fuel);
      if a.EVal? { SameArgs(p, tl, box, a.st, fuel); }
  }

  lemma {:induction false} SameApply(p: Prog, f: Value, vs: seq<Value>, st: Store, fuel: nat)
    ensures Apply(Plain(p), f, vs, st, fuel) == Apply(p, f, vs, st, fuel)
    decreases fuel, 0
  {
    if f.Func? && f.f < |p.funs| && |vs| == p.funs[f.f].argc && fuel > 0 {
      var fn := p.funs[f.f];
      SameExec(p, fn.body, |st.boxes|, Alloc(st, NewBox(vs, fn.autos)), fuel - 1);
    }
  }

  lemma {:induction false} SameExec(p: Prog, s: Stmt, box: nat, st: Store, fuel: nat)
    ensures Exec(Plain(p), PlainStmt(s), box, st, fuel) == Exec(p, s, box, st, fuel)
    decreases fuel, 1, s, 1
  {
    hide Plain, PlainExpr, Eval, EvalBool;
    match s
    case If(t, a) =>
      SameBool(p, t, box, st, fuel);
      var c := EvalBool(p, t, box, st, fuel);
      if c.EVal? { SameExec(p, a, box, c.st, fuel); }
    case IfElse(t, a, b) =>
      SameBool(p, t, box, st, fuel);
      var c := EvalBool(p, t, box, st, fuel);
      if c.EVal? {
        SameExec(p, a, box, c.st, fuel);
        SameExec(p, b, box, c.st, fuel);
      }
    case While(t, b) => SameWhile(p, s, box, st, fuel);
    case DoWhile(b, t) => SameDo(p, s, box, st, fuel);
    case For(i, c, n, b) =>
      SameOpt(p, i, box, st, fuel);
      var r := EvalOpt(p, i, box, st, fuel);
      if r.Normal? { SameFor(p, s, box, r.st, fuel); }
    case Switch(e, cs) => SameSwitch(p, s, box, st, fuel);
    case Break =>
    case Continue =>
    case Return(e) => SameEval(p, e, box, st, fuel);
    case ReturnVoid =>
    case ExprStat(e) => SameEval(p, e, box, st, fuel);
    case Semi =>
    case Block(ss) => SameBlock(p, ss, box, st, fuel);
  }

  lemma {:induction false} SameWhile(p: Prog, s: Stmt, box: nat, st: Store, fuel: nat)
    requires s.While?
    ensures Exec(Plain(p), PlainStmt(s), box, st, fuel) == Exec(p, s, box, st, fuel)
    decreases fuel, 1, s, 0
  {
    if fuel > 0 {
      SameBool(p, s.test, box, st, fuel);
      var c := EvalBool(p, s.test, box, st, fuel);
      if c.EVal? && c.v.b {
        SameExec(p, s.body, box, c.st, fuel);
        var r := Exec(p, s.body, box, c.st, fuel);
        if Loops(r) { SameExec(p, s, box, r.st, fuel - 1); }
      }
    }
  }

  lemma {:induction false} SameDo(p: Prog, s: Stmt, box: nat, st: Store, fuel: nat)
    requires s.DoWhile?
    ensures Exec(Plain(p), PlainStmt(s), box, st, fuel) == Exec(p, s, box, st, fuel)
    decreases fuel, 1, s, 0
  {
    if fuel > 0 {
      SameExec(p, s.body, box, st, fuel);
      var r := Exec(p, s.body, box, st, fuel);
      if Loops(r) {
        SameBool(p, s.test, box, r.st, fuel);
        var c := EvalBool(p, s.test, box, r.st, fuel);
        if c.EVal? && c.v.b { SameExec(p, s, box, c.st, fuel - 1); }
      }
    }
  }

  lemma {:induction false} SameFor(p: Prog, s: Stmt, box: nat, st: Store, fuel: nat)
    requires s.For?
    ensures ForLoop(Plain(p), PlainStmt(s), box, st, fuel) == ForLoop(p, s, box, st, fuel)
    decreases fuel, 1, s, 0
  {
    if fuel > 0 {
      if s.cond.Some? { SameBool(p, s.cond.value, box, st, fuel); }
      var c := if s.cond.Some? then EvalBool(p, s.cond.value, box, st, fuel) else EVal(TrueVal, st);
      if c.EVal? && c.v.b {
        SameExec(p, s.body, box, c.st, fuel);
        var r := Exec(p, s.body, box, c.st, fuel);
        if Loops(r) {
          SameOpt(p, s.step, box, r.st, fuel);
          var n := EvalOpt(p, s.step, box, r.st, fuel);
          if n.Normal? { SameFor(p, s, box, n.st, fuel - 1); }
        }
      }
    }
  }

  lemma {:induction false} SameSwitch(p: Prog, s: Stmt, box: nat, st: Store, fuel: nat)
    requires s.Switch?
    ensures Exec(Plain(p), PlainStmt(s), box, st, fuel) == Exec(p, s, box, st, fuel)
    decreases fuel, 1, s, 0
  {
    SameEval(p, s.subject, box, st, fuel);
    var r := Eval(p, s.subject, box, st, fuel);
    if r.EVal? {
      SameSelect(p, s.cases, r.v, box, r.st, fuel);
      SameDefault(s.cases);
      var sel := Select(p, s.cases, r.v, box, r.st, fuel);
      if sel.Selected? { SameArms(p, sel.arms, box, sel.st, fuel); }
      if sel.Unmatched? { SameArms(p, DefaultArm(s.cases), box, sel.st, fuel); }
    }
  }

  lemma {:induction false} SameDefault(cs: Cases)
    ensures DefaultArm(PlainCases(cs)) == PlainCases(DefaultArm(cs))
  {
    match cs
    case NoCases =>
    case Arm(l, b, rest) => if l.Some? { SameDefault(rest); }
  }

  lemma {:induction false} SameSelect(p: Prog, cs: Cases, v: Value, box: nat, st: Store, fuel: nat)
    ensures
      Select(Plain(p), PlainCases(cs), v, box, st, fuel) ==
      match Select(p, cs, v, box, st, fuel)
      case Selected(arms, st1) => Selected(PlainCases(arms), st1)
      case other => other
    decreases fuel, 1, cs, 0
  {
    match cs
    case NoCases =>
    case Arm(None, _, rest) => SameSelect(p, rest, v, box, st, fuel);
    case Arm(Some(e), _, rest) =>
      SameEval(p, e, box, st, fuel);
      var r := Eval(p, e, box, st, fuel);
      if r.EVal? { SameSelect(p, rest, v, box, r.st, fuel); }
  }

  lemma {:induction false} SameBlock(p: Prog, ss: Stmts, box: nat, st: Store, fuel: nat)
    ensures ExecBlock(Plain(p), PlainStmts(ss), box, st, fuel) == ExecBlock(p, ss, box, st, fuel)
    decreases fuel, 1, ss, 0
  {
    match ss
    case Nil =>
    case Cons(s, tl) =>
      SameExec(p, s, box, st, fuel);
      var r := Exec(p, s, box, st, fuel);
      if r.Normal? { SameBlock(p, tl, box, r.st, fuel); }
  }

  lemma {:induction false} SameArms(p: Prog, cs: Cases, box: nat, st: Store, fuel: nat)
    ensures ExecArms(Plain(p), PlainCases(cs), box, st, fuel) == ExecArms(p, cs, box, st, fuel)
    decreases fuel, 1, cs, 0
  {
    match cs
    case NoCases =>
    case Arm(_, b, rest) =>
      SameBlock(p, b, box, st, fuel);
      var r := ExecBlock(p, b, box, st, fuel);
      if r.Normal? { SameArms(p, rest, box, r.st, fuel); }
  }

  // ----- it compiles alike -----

  lemma {:induction false} ExprAlike(pr: Prims, e: Expr)
    ensures ExprCode(pr, PlainExpr(e)) == ExprCode(pr, e) && ExprErr(pr, PlainExpr(e)) == ExprErr(pr, e)
    decreases e, 0
  {
    hide ArgsErr, AssignIfCode, AssignInst, AssignOpInst, BadBool, Folded, I, IsConst, IsTrue, Length, LoadOp, P;
    hide PlainArgs, RefOp, RefStoreOp, SetPush, ThreadCall;
    match e
    case Const(_) =>
    case Var(_) =>
    case Unary(_, a) => ExprAlike(pr, a);
    case Binary(_, l, r) => ExprAlike(pr, l); ExprAlike(pr, r);
    case Quest(t, y, n) => ExprAlike(pr, t); ExprAlike(pr, y); ExprAlike(pr, n);
    case And(l, r) => ExprAlike(pr, l); ExprAlike(pr, r);
    case Or(l, r) => ExprAlike(pr, l); ExprAlike(pr, r);
    case Assign(_, r) => ExprAlike(pr, r);
    case AssignOp(_, _, r) => ExprAlike(pr, r);
    case AssignAnd(_, r) => ExprAlike(pr, r);
    case AssignOr(_, r) => ExprAlike(pr, r);
    case IncDec(_, _, _) =>
    case Comma(l, r) => ExprAlike(pr, l); ExprAlike(pr, r);
    case Call(f, args, _) => ExprAlike(pr, f); ArgsAlike(pr, ExprCode(pr, f), args);
  }

  lemma {:induction false} ArgsAlike(pr: Prims, c: Code, args: Exprs)
    ensures CallPrefix(pr, c, PlainArgs(args)) == CallPrefix(pr, c, args) &&
      ArgsErr(pr, PlainArgs(args)) == ArgsErr(pr, args)
    decreases args, 1
  {
    match args
    case NoArgs =>
    case Arg(e, tl) => ExprAlike(pr, e); ArgsAlike(pr, ExprCode(pr, e), tl);
  }

  lemma {:induction false} ErrAlike(pr: Prims, s: Stmt, x: Ctx, flag: bool)
    ensures StmtErr(pr, PlainStmt(s), x, flag) == StmtErr(pr, s, x, flag)
    decreases s
  {
    hide ExprCode, ExprErr;
    match s
    case If(t, a) => ExprAlike(pr, t); ErrAlike(pr, a, x, flag);
    case IfElse(t, a, b) => ExprAlike(pr, t); ErrAlike(pr, a, x, flag); ErrAlike(pr, b, x, flag);
    case While(t, b) => ExprAlike(pr, t); ErrAlike(pr, b, Ctx(true, true), flag);
    case DoWhile(b, t) => ExprAlike(pr, t); ErrAlike(pr, b, Ctx(true, true), flag);
    case For(i, c, n, b) =>
      if i.Some? { ExprAlike(pr, i.value); }
      if c.Some? { ExprAlike(pr, c.value); }
      if n.Some? { ExprAlike(pr, n.value); }
      ErrAlike(pr, b, Ctx(true, true), flag);
    case Switch(e, cs) => ExprAlike(pr, e); CasesAlike(pr, cs, x.(brk := true), flag);
    case Return(e) => ExprAlike(pr, e);
    case ExprStat(e) => ExprAlike(pr, e);
    case Block(ss) => BlockAlike(pr, ss, x, flag);
    case _ =>
  }

  lemma {:induction false} BlockAlike(pr: Prims, ss: Stmts, x: Ctx, flag: bool)
    ensures BlockErr(pr, PlainStmts(ss), x, flag) == BlockErr(pr, ss, x, flag)
    decreases ss
  {
    match ss
    case Nil =>
    case Cons(s, tl) => ErrAlike(pr, s, x, flag); BlockAlike(pr, tl, x, flag);
  }

  lemma {:induction false} CasesAlike(pr: Prims, cs: Cases, x: Ctx, flag: bool)
    ensures CasesErr(pr, PlainCases(cs), x, flag) == CasesErr(pr, cs, x, flag)
    decreases cs
  {
    match cs
    case NoCases =>
    case Arm(l, b, rest) =>
      if l.Some? { ExprAlike(pr, l.value); }
      BlockAlike(pr, b, x, flag);
      CasesAlike(pr, rest, x, flag);
  }

  /**
   * Compiled with and without tail calls, a program stops with the same value, exception and
   * store, or runs forever both times.
   */
  lemma TailCallsInvisible(p: Prog, main: nat, st: Store, c: Conf)
    requires Clean(p) && !c.Running?
    ensures Clean(Plain(p))
    ensures (exists n :: Run(p, main, st, n) == c) <==> (exists n :: Run(Plain(p), main, st, n) == c)
  {
    forall i | 0 <= i < |p.funs| ensures !FunErr(p.prims, Plain(p).funs[i]) {
      assert !FunErr(p.prims, p.funs[i]);
      ErrAlike(p.prims, p.funs[i].body, Toplevel, false);
    }
    CompiledCorrectly(p, main, st, c);
    CompiledCorrectly(Plain(p), main, st, c);
    forall fuel ensures Meaning(Plain(p), main, st, fuel) == Meaning(p, main, st, fuel) {
      SameApply(p, Func(main), [], st, fuel);
    }
  }
}
