/** The compiled code simulates the reference semantics. */
module Simulation {
  import opened Options
  import opened Values
  import opened Machine
  import opened Syntax
  import opened Codegen
  import opened Placement
  import opened Compose
  import opened Reach

  /** The world holds exactly the compiled functions of a program that compiled cleanly. */
  ghost predicate Linked(w: World, p: Prog) {
    w.prims == p.prims && w.objs == Objects(p) && Clean(p)
  }

  /** The machine stands in a function of the program, in front of the code of `e`. */
  ghost predicate ExprHere(w: World, p: Prog, e: Expr, m: Mach, push: bool) {
    && !ExprErr(p.prims, e)
    && m.frame.Frame?
    && CodeAt(CodeOf(w, m.obj), m.pc, WithPush(ExprCode(p.prims, e), push))
  }

  // ----- expressions -----

  lemma {:induction false} EvalSim(w: World, p: Prog, e: Expr, m: Mach, fuel: nat, push: bool) returns (n: nat)
    requires Linked(w, p) && ExprHere(w, p, e, m, push)
    ensures EvalDone(w, m, Eval(p, e, m.frame.box, m.store, fuel), |ExprCode(p.prims, e)|, push, fuel, n)
    decreases fuel, 1, e, 3
  {
    if IsConst(ExprCode(p.prims, e)) {
      n := ConstSim(w, p, e, m, fuel, push);
    } else {
      match e
      case Const(_) => assert false;
      case Var(_) => n := VarSim(w, p, e, m, fuel, push);
      case Unary(_, _) => n := UnarySim(w, p, e, m, fuel, push);
      case Binary(_, _, _) => n := BinarySim(w, p, e, m, fuel, push);
      case Quest(_, _, _) => n := QuestSim(w, p, e, m, fuel, push);
      case And(l, r) => n := ShortSim(w, p, e, l, r, true, m, fuel, push);
      case Or(l, r) => n := ShortSim(w, p, e, l, r, false, m, fuel, push);
      case Assign(_, _) => n := AssignSim(w, p, e, m, fuel, push);
      case AssignOp(_, _, _) => n := AssignOpSim(w, p, e, m, fuel, push);
      case AssignAnd(lv, r) => n := AssignIfSim(w, p, lv, r, true, m, fuel, push);
      case AssignOr(lv, r) => n := AssignIfSim(w, p, lv, r, false, m, fuel, push);
      case IncDec(_, _, _) => n := IncDecSim(w, p, e, m, fuel, push);
      case Comma(_, _) => n := CommaSim(w, p, e, m, fuel, push);
      case Call(_, _, _) => n := CallSim(w, p, e, m, fuel, push);
    }
  }

  lemma ConstSim(w: World, p: Prog, e: Expr, m: Mach, fuel: nat, push: bool) returns (n: nat)
    requires Linked(w, p) && ExprHere(w, p, e, m, push) && IsConst(ExprCode(p.prims, e))
    ensures EvalDone(w, m, Eval(p, e, m.frame.box, m.store, fuel), |ExprCode(p.prims, e)|, push, fuel, n)
  {
    var code := ExprCode(p.prims, e);
    ConstMeaning(p, e, m.frame.box, m.store, fuel);
    var op := code[0].op;
    assert code == [I(op)] && WithPush(code, push) == [Inst(op, push)];
    n := 0;
    StepConst(w, m, n, m, op.constant, push);
    n := n + 1;
  }

  lemma VarSim(w: World, p: Prog, e: Expr, m: Mach, fuel: nat, push: bool) returns (n: nat)
    requires Linked(w, p) && ExprHere(w, p, e, m, push) && e.Var?
    ensures EvalDone(w, m, Eval(p, e, m.frame.box, m.store, fuel), |ExprCode(p.prims, e)|, push, fuel, n)
  {
    assert WithPush([I(LoadOp(e.lv))], push) == [Inst(LoadOp(e.lv), push)];
    n := 0;
    StepLoad(w, m, n, m, e.lv, push);
    n := n + 1;
  }

  lemma {:induction false} UnarySim(w: World, p: Prog, e: Expr, m: Mach, fuel: nat, push: bool) returns (n: nat)
    requires Linked(w, p) && ExprHere(w, p, e, m, push) && e.Unary? && !IsConst(ExprCode(p.prims, e))
    ensures EvalDone(w, m, Eval(p, e, m.frame.box, m.store, fuel), |ExprCode(p.prims, e)|, push, fuel, n)
    decreases fuel, 1, e, 2
  {
    var a, last := ExprCode(p.prims, e.arg), Inst(OpUn(e.uop), push);
    PushLast(a, last.op, push);
    Split(CodeOf(w, m.obj), m.pc, a, [last]);
    var k := EvalSim(w, p, e.arg, m, fuel, false);
    n := UnRun(w, m, Eval(p, e.arg, m.frame.box, m.store, fuel), |a|, e.uop, push, fuel, k);
  }

  lemma {:induction false} BinarySim(w: World, p: Prog, e: Expr, m: Mach, fuel: nat, push: bool) returns (n: nat)
    requires Linked(w, p) && ExprHere(w, p, e, m, push) && e.Binary? && !IsConst(ExprCode(p.prims, e))
    ensures EvalDone(w, m, Eval(p, e, m.frame.box, m.store, fuel), |ExprCode(p.prims, e)|, push, fuel, n)
    decreases fuel, 1, e, 2
  {
    var a, b, last := ExprCode(p.prims, e.left), ExprCode(p.prims, e.right), Inst(OpBin(e.bop), push);
    PushLast(SetPush(a) + b, last.op, push);
    Split3(CodeOf(w, m.obj), m.pc, SetPush(a), b, [last]);
    hide CodeAt, Linked, SetPush;
    var k1 := EvalSim(w, p, e.left, m, fuel, true);
    var k2 := 0;
    var r := Eval(p, e.left, m.frame.box, m.store, fuel);
    var s := r;
    if r.EVal? {
      k2 := EvalSim(w, p, e.right, After(m, |a|, r.v, true, r.st), fuel, false);
      s := Eval(p, e.right, m.frame.box, r.st, fuel);
    }
    n := BinRun(w, m, r, |a|, s, |b|, e.bop, push, fuel, k1, k2);
  }

  lemma {:induction false} TestSim(w: World, p: Prog, t: Expr, sense: bool, off: int, m: Mach, fuel: nat)
    returns (n: nat)
    requires Linked(w, p) && ExprHere(w, p, t, m, false)
    requires CodeAt(CodeOf(w, m.obj), m.pc + |ExprCode(p.prims, t)|, [I(TestOp(sense, off))])
    ensures TestDone(w, m, EvalBool(p, t, m.frame.box, m.store, fuel), |ExprCode(p.prims, t)|, sense, off, fuel, n)
    decreases fuel, 1, t, 4
  {
    var k := EvalSim(w, p, t, m, fuel, false);
    n := TestRun(w, m, Eval(p, t, m.frame.box, m.store, fuel), |ExprCode(p.prims, t)|, sense, off, fuel, k);
  }

  lemma {:induction false} QuestSim(w: World, p: Prog, e: Expr, m: Mach, fuel: nat, push: bool) returns (n: nat)
    requires Linked(w, p) && ExprHere(w, p, e, m, push) && e.Quest? && !IsConst(ExprCode(p.prims, e))
    ensures EvalDone(w, m, Eval(p, e, m.frame.box, m.store, fuel), |ExprCode(p.prims, e)|, push, fuel, n)
    decreases fuel, 1, e, 2
  {
    var c, a, b := ExprCode(p.prims, e.test), ExprCode(p.prims, e.yes), ExprCode(p.prims, e.no);
    assert !BoolErr(p.prims, e.test);
    if IsConst(c) {
      ConstMeaning(p, e.test, m.frame.box, m.store, fuel);
      n := EvalSim(w, p, if IsTrue(c) then e.yes else e.no, m, fuel, push);
    } else {
      SplitQuest(CodeOf(w, m.obj), m.pc, c, a, b, push);
      hide CodeAt, Linked, SetPush, Steps;
      n := QuestSim2(w, p, e, m, fuel, push);
    }
  }

  lemma SplitQuest(code: Code, pc: int, c: Code, a: Code, b: Code, push: bool)
    requires CodeAt(code, pc, WithPush(
      c + [I(OpBranchFalse(|a| + 2))] + a + [I(OpBranch(|b| + 1, ModNone))] + b + [I(OpNoop)], push))
    ensures CodeAt(code, pc, c)
    ensures CodeAt(code, pc + |c|, [I(OpBranchFalse(|a| + 2))])
    ensures CodeAt(code, pc + |c| + 1, a)
    ensures CodeAt(code, pc + |c| + |a| + 1, [I(OpBranch(|b| + 1, ModNone))])
    ensures CodeAt(code, pc + |c| + |a| + 2, b)
    ensures CodeAt(code, pc + |c| + |a| + |b| + 2, [Inst(OpNoop, push)])
  {
    var bf, br, noop := I(OpBranchFalse(|a| + 2)), I(OpBranch(|b| + 1, ModNone)), Inst(OpNoop, push);
    PushLast(c + [bf] + a + [br] + b, OpNoop, push);
    Split3(code, pc, c + [bf] + a + [br], b, [noop]);
    Split3(code, pc, c + [bf], a, [br]);
    Split(code, pc, c, [bf]);
  }

  lemma {:induction false} QuestSim2(w: World, p: Prog, e: Expr, m: Mach, fuel: nat, push: bool) returns (n: nat)
    requires Linked(w, p) && e.Quest? && ExprHere(w, p, e.test, m, false)
    requires !ExprErr(p.prims, e.yes) && !ExprErr(p.prims, e.no)
    requires
      var code, c, a, b := CodeOf(w, m.obj), ExprCode(p.prims, e.test), ExprCode(p.prims, e.yes),
        ExprCode(p.prims, e.no);
      && CodeAt(code, m.pc + |c|, [I(OpBranchFalse(|a| + 2))])
      && CodeAt(code, m.pc + |c| + 1, a)
      && CodeAt(code, m.pc + |c| + |a| + 1, [I(OpBranch(|b| + 1, ModNone))])
      && CodeAt(code, m.pc + |c| + |a| + 2, b)
      && CodeAt(code, m.pc + |c| + |a| + |b| + 2, [Inst(OpNoop, push)])
    ensures
      var len := |ExprCode(p.prims, e.test)| + |ExprCode(p.prims, e.yes)| + |ExprCode(p.prims, e.no)| + 3;
      EvalDone(w, m, Eval(p, e, m.frame.box, m.store, fuel), len, push, fuel, n)
    decreases fuel, 1, e, 1
  {
    var c, a, b := ExprCode(p.prims, e.test), ExprCode(p.prims, e.yes), ExprCode(p.prims, e.no);
    var k1 := TestSim(w, p, e.test, true, |a| + 2, m, fuel);
    var k2 := 0;
    var t := EvalBool(p, e.test, m.frame.box, m.store, fuel);
    var s := t;
    if t.EVal? {
      var arm := if t.v.b then e.yes else e.no;
      k2 := EvalSim(w, p, arm, AfterTest(m, t, |c|, true, |a| + 2), fuel, false);
      s := Eval(p, arm, m.frame.box, t.st, fuel);
    }
    n := QuestRun(w, m, t, |c|, s, |a|, |b|, push, fuel, k1, k2);
  }

  /** `l && r` (sense true) and `l || r` (sense false). */
  lemma {:induction false} ShortSim(w: World, p: Prog, e: Expr, l: Expr, r: Expr, sense: bool,
                                    m: Mach, fuel: nat, push: bool) returns (n: nat)
    requires Linked(w, p) && ExprHere(w, p, e, m, push) && !IsConst(ExprCode(p.prims, e))
    requires e == if sense then And(l, r) else Or(l, r)
    ensures EvalDone(w, m, Eval(p, e, m.frame.box, m.store, fuel), |ExprCode(p.prims, e)|, push, fuel, n)
    decreases fuel, 1, e, 2
  {
    hide Apply, ArgsErr, AssignIf, AssignIfCode, Both, CodeOf, EvalArgs, Folded, IsConst, Length, LiftOp, Linked;
    hide LoadOp, LocOf, P, Read, RefOp, RefStoreOp, Steps, Store1;
    hide Steps;
    var a, b := ExprCode(p.prims, l), ExprCode(p.prims, r);
    assert !BoolErr(p.prims, l) && !BoolErr(p.prims, r);
    if IsConst(a) {
      ConstMeaning(p, l, m.frame.box, m.store, fuel);
      n := EvalSim(w, p, r, m, fuel, push);
    } else {
      var code, br, noop := CodeOf(w, m.obj), I(TestOp(sense, |b| + 1)), Inst(OpNoop, push);
      PushLast(a + [br] + b, OpNoop, push);
      Split3(code, m.pc, a + [br], b, [noop]);
      Split(code, m.pc, a, [br]);
      hide CodeAt, Linked, SetPush;
      n := ShortSim2(w, p, e, l, r, sense, m, fuel, push);
    }
  }

  lemma {:induction false} ShortSim2(w: World, p: Prog, e: Expr, l: Expr, r: Expr, sense: bool,
                                     m: Mach, fuel: nat, push: bool) returns (n: nat)
    requires Linked(w, p) && ExprHere(w, p, l, m, false) && !ExprErr(p.prims, r)
    requires e == if sense then And(l, r) else Or(l, r)
    requires
      var code, a, b := CodeOf(w, m.obj), ExprCode(p.prims, l), ExprCode(p.prims, r);
      && CodeAt(code, m.pc + |a|, [I(TestOp(sense, |b| + 1))])
      && CodeAt(code, m.pc + |a| + 1, b)
      && CodeAt(code, m.pc + |a| + |b| + 1, [Inst(OpNoop, push)])
    ensures EvalDone(w, m, Eval(p, e, m.frame.box, m.store, fuel),
                     |ExprCode(p.prims, l)| + |ExprCode(p.prims, r)| + 2, push, fuel, n)
    decreases fuel, 1, e, 1
  {
    hide Apply, AssignIf, CodeOf, EvalArgs, EvalBool, ExprErr, I, LiftOp, Linked, LocOf, Read, SetPush, Steps;
    hide Store1, TestOp;
    var a, b := ExprCode(p.prims, l), ExprCode(p.prims, r);
    var k1 := TestSim(w, p, l, sense, |b| + 1, m, fuel);
    var k2 := 0;
    var t := EvalBool(p, l, m.frame.box, m.store, fuel);
    var s := t;
    if t.EVal? && t.v.b == sense {
      k2 := EvalSim(w, p, r, AfterTest(m, t, |a|, sense, |b| + 1), fuel, false);
      s := Eval(p, r, m.frame.box, t.st, fuel);
    }
    n := ShortRun(w, m, t, |a|, s, |b|, sense, push, fuel, k1, k2);
  }

  lemma {:induction false} AssignSim(w: World, p: Prog, e: Expr, m: Mach, fuel: nat, push: bool) returns (n: nat)
    requires Linked(w, p) && ExprHere(w, p, e, m, push) && e.Assign?
    ensures EvalDone(w, m, Eval(p, e, m.frame.box, m.store, fuel), |ExprCode(p.prims, e)|, push, fuel, n)
    decreases fuel, 1, e, 2
  {
    var ref, b, last := P(RefStoreOp(e.lv)), ExprCode(p.prims, e.rhs), Inst(Op.OpAssign, push);
    PushLast([ref] + b, last.op, push);
    Split3(CodeOf(w, m.obj), m.pc, [ref], b, [last]);
    var loc := LocOf(e.lv, m.frame.box);
    var k := EvalSim(w, p, e.rhs, After(m, 1, Ref(loc), true, m.store), fuel, false);
    n := AssignRun(w, m, e.lv, loc, Eval(p, e.rhs, m.frame.box, m.store, fuel), |b|, push, fuel, k);
  }

  lemma {:induction false} AssignOpSim(w: World, p: Prog, e: Expr, m: Mach, fuel: nat, push: bool) returns (n: nat)
    requires Linked(w, p) && ExprHere(w, p, e, m, push) && e.AssignOp?
    ensures EvalDone(w, m, Eval(p, e, m.frame.box, m.store, fuel), |ExprCode(p.prims, e)|, push, fuel, n)
    decreases fuel, 1, e, 2
  {
    var ref, fetch, b, last := P(RefOp(e.lv)), P(OpFetch), ExprCode(p.prims, e.rhs), Inst(OpAssignOp(e.aop), push);
    PushLast([ref, fetch] + b, last.op, push);
    assert [ref, fetch] == [ref] + [fetch];
    Split3(CodeOf(w, m.obj), m.pc, [ref] + [fetch], b, [last]);
    Split(CodeOf(w, m.obj), m.pc, [ref], [fetch]);
    var loc := LocOf(e.lv, m.frame.box);
    var c, k := Read(m.store, loc), 0;
    if c.Some? {
      k := EvalSim(w, p, e.rhs, After(After(m, 1, Ref(loc), true, m.store), 1, c.value, true, m.store), fuel, false);
    }
    n := AssignOpRun(w, m, e.lv, loc, e.aop, Eval(p, e.rhs, m.frame.box, m.store, fuel), |b|, push, fuel, k);
  }

  lemma {:induction false} AssignIfSim(w: World, p: Prog, lv: Lval, rhs: Expr, sense: bool, m: Mach, fuel: nat,
      push: bool)
    returns (n: nat)
    requires Linked(w, p) && !BoolErr(p.prims, rhs) && m.frame.Frame?
    requires CodeAt(CodeOf(w, m.obj), m.pc, WithPush(AssignIfCode(lv, ExprCode(p.prims, rhs), sense), push))
    ensures EvalDone(w, m, AssignIf(p, lv, rhs, sense, m.frame.box, m.store, fuel), |ExprCode(p.prims, rhs)| + 7,
      push, fuel, n)
    decreases fuel, 1, rhs, 5
  {
    var code, c, loc := CodeOf(w, m.obj), ExprCode(p.prims, rhs), LocOf(lv, m.frame.box);
    SplitAssignIf(code, m.pc, lv, c, sense, push);
    hide CodeAt, Linked, SetPush, Steps;
    var cell, k := Read(m.store, loc), 0;
    if cell == Some(Bool(sense)) {
      k := EvalSim(w, p, rhs, After(After(m, 1, Ref(loc), true, m.store), 2, cell.value, false, m.store), fuel, false);
    }
    n := AssignIfRun(w, m, lv, loc, sense, Eval(p, rhs, m.frame.box, m.store, fuel), |c|, push, fuel, k);
  }

  lemma SplitAssignIf(code: Code, pc: int, lv: Lval, c: Code, sense: bool, push: bool)
    requires CodeAt(code, pc, WithPush(AssignIfCode(lv, c, sense), push))
    ensures CodeAt(code, pc, [P(RefOp(lv))])
    ensures CodeAt(code, pc + 1, [I(OpFetch)])
    ensures CodeAt(code, pc + 2, [I(TestOp(sense, |c| + 1))])
    ensures CodeAt(code, pc + 3, c)
    ensures CodeAt(code, pc + 3 + |c|, [I(Op.OpAssign)])
    ensures CodeAt(code, pc + 4 + |c|, [I(OpBranch(2, ModNone))])
    ensures CodeAt(code, pc + 6 + |c|, [Inst(OpNoop, push)])
  {
    var ref, fetch, br := P(RefOp(lv)), I(OpFetch), I(TestOp(sense, |c| + 1));
    var asg, go, drop, noop := I(Op.OpAssign), I(OpBranch(2, ModNone)), I(OpDrop), Inst(OpNoop, push);
    var front := [ref] + [fetch] + [br];
    assert AssignIfCode(lv, c, sense) == front + c + [asg] + [go] + [drop] + [I(OpNoop)];
    PushLast(front + c + [asg] + [go] + [drop], OpNoop, push);
    Split3(code, pc, front + c + [asg] + [go], [drop], [noop]);
    Split3(code, pc, front + c, [asg], [go]);
    Split(code, pc, front, c);
    Split3(code, pc, [ref], [fetch], [br]);
  }

  lemma {:induction false} IncDecSim(w: World, p: Prog, e: Expr, m: Mach, fuel: nat, push: bool) returns (n: nat)
    requires Linked(w, p) && ExprHere(w, p, e, m, push) && e.IncDec?
    ensures EvalDone(w, m, Eval(p, e, m.frame.box, m.store, fuel), |ExprCode(p.prims, e)|, push, fuel, n)
  {
    hide Apply, AssignIf, AssignIfCode, EvalArgs, EvalBool, Folded, IsConst, IsTrue, LoadOp, LocOf, RefOp, RefStoreOp;
    var ref, last := I(RefOp(e.lv)), Inst(if e.pre then OpPre(e.iop) else OpPost(e.iop), push);
    assert ExprCode(p.prims, e) == [ref] + [I(last.op)];
    PushLast([ref], last.op, push);
    Split(CodeOf(w, m.obj), m.pc, [ref], [last]);
    n := IncDecRun(w, m, e.lv, LocOf(e.lv, m.frame.box), e.iop, e.pre, push, fuel);
  }

  lemma {:induction false} CommaSim(w: World, p: Prog, e: Expr, m: Mach, fuel: nat, push: bool) returns (n: nat)
    requires Linked(w, p) && ExprHere(w, p, e, m, push) && e.Comma?
    ensures EvalDone(w, m, Eval(p, e, m.frame.box, m.store, fuel), |ExprCode(p.prims, e)|, push, fuel, n)
    decreases fuel, 1, e, 2
  {
    var a, b := ExprCode(p.prims, e.left), ExprCode(p.prims, e.right);
    NonEmpty(p.prims, e.right);
    if IsConst(a) {
      ConstMeaning(p, e.left, m.frame.box, m.store, fuel);
      assert [] + b == b;
      n := EvalSim(w, p, e.right, m, fuel, push);
    } else {
      PushRight(a, b, push);
      Split(CodeOf(w, m.obj), m.pc, a, WithPush(b, push));
      hide CodeAt, Linked, SetPush;
      var k1 := EvalSim(w, p, e.left, m, fuel, false);
      var k2 := 0;
      var r := Eval(p, e.left, m.frame.box, m.store, fuel);
      var s := r;
      if r.EVal? {
        k2 := EvalSim(w, p, e.right, After(m, |a|, r.v, false, r.st), fuel, push);
        s := Eval(p, e.right, m.frame.box, r.st, fuel);
      }
      n := CommaRun(w, m, r, |a|, s, |b|, push, fuel, k1, k2);
    }
  }

  // ----- calls -----

  lemma {:induction false} ArgsSim(w: World, p: Prog, args: Exprs, m: Mach, fuel: nat) returns (n: nat)
    requires Linked(w, p) && args.Arg? && !ArgsErr(p.prims, args) && m.frame.Frame?
    requires CodeAt(CodeOf(w, m.obj), m.pc, CallPrefix(p.prims, ExprCode(p.prims, args.hd), args.tl))
    ensures ArgsDone(w, m, EvalArgs(p, args, m.frame.box, m.store, fuel),
                     |CallPrefix(p.prims, ExprCode(p.prims, args.hd), args.tl)|, fuel, n)
    decreases fuel, 1, args, 1
  {
    var pr, e, tl := p.prims, args.hd, args.tl;
    var a := ExprCode(pr, e);
    var r := Eval(p, e, m.frame.box, m.store, fuel);
    match tl
    case NoArgs =>
      n := EvalSim(w, p, e, m, fuel, false);
      SingleRun(w, m, r, |a|, fuel, n);
    case Arg(e1, tl1) =>
      var more := CallPrefix(pr, ExprCode(pr, e1), tl1);
      Split(CodeOf(w, m.obj), m.pc, SetPush(a), more);
      var k1 := EvalSim(w, p, e, m, fuel, true);
      var k2 := 0;
      var rest := AVals([], m.store);
      if r.EVal? {
        k2 := ArgsSim(w, p, tl, After(m, |a|, r.v, true, r.st), fuel);
        rest := EvalArgs(p, tl, m.frame.box, r.st, fuel);
      }
      n := PrependRun(w, m, r, |a|, rest, |more|, fuel, k1, k2);
  }

  /** Function value and arguments of a call, as one list. */
  ghost function EvalCall(p: Prog, f: Expr, args: Exprs, box: nat, st: Store, fuel: nat): AOut {
    var r := Eval(p, f, box, st, fuel);
    Prepend(r, if r.EVal? then EvalArgs(p, args, box, r.st, fuel) else ATimeout)
  }

  lemma {:induction false} PrefixSim(w: World, p: Prog, f: Expr, args: Exprs, e: Expr, m: Mach, fuel: nat)
    returns (n: nat)
    requires Linked(w, p) && m.frame.Frame? && !ExprErr(p.prims, f) && !ArgsErr(p.prims, args)
    requires CodeAt(CodeOf(w, m.obj), m.pc, CallPrefix(p.prims, ExprCode(p.prims, f), args))
    requires f < e && args < e
    ensures ArgsDone(w, m, EvalCall(p, f, args, m.frame.box, m.store, fuel),
                     |CallPrefix(p.prims, ExprCode(p.prims, f), args)|, fuel, n)
    decreases fuel, 1, e, 0
  {
    hide Steps;
    var pr := p.prims;
    var a := ExprCode(pr, f);
    var r := Eval(p, f, m.frame.box, m.store, fuel);
    match args
    case NoArgs =>
      n := EvalSim(w, p, f, m, fuel, false);
      SingleRun(w, m, r, |a|, fuel, n);
    case Arg(e1, tl1) =>
      var more := CallPrefix(pr, ExprCode(pr, e1), tl1);
      Split(CodeOf(w, m.obj), m.pc, SetPush(a), more);
      var k1 := EvalSim(w, p, f, m, fuel, true);
      var k2 := 0;
      var rest := ATimeout;
      if r.EVal? {
        k2 := ArgsSim(w, p, args, After(m, |a|, r.v, true, r.st), fuel);
        rest := EvalArgs(p, args, m.frame.box, r.st, fuel);
      }
      n := PrependRun(w, m, r, |a|, rest, |more|, fuel, k1, k2);
  }

  lemma {:induction false} CallSim(w: World, p: Prog, e: Expr, m: Mach, fuel: nat, push: bool) returns (n: nat)
    requires Linked(w, p) && ExprHere(w, p, e, m, push) && e.Call?
    ensures EvalDone(w, m, Eval(p, e, m.frame.box, m.store, fuel), |ExprCode(p.prims, e)|, push, fuel, n)
    decreases fuel, 1, e, 2
  {
    var pre := CallPrefix(p.prims, ExprCode(p.prims, e.fn), e.args);
    var call := I(OpCall(Length(e.args)));
    assert pre + [call, I(OpNoop)] == pre + [call] + [I(OpNoop)];
    PushLast(pre + [call], OpNoop, push);
    Split3(CodeOf(w, m.obj), m.pc, pre, [call], [Inst(OpNoop, push)]);
    var k1 := PrefixSim(w, p, e.fn, e.args, e, m, fuel);
    hide CodeAt, Linked;
    var a := EvalCall(p, e.fn, e.args, m.frame.box, m.store, fuel);
    if a.AVals? {
      n := CallSim2(w, p, e, a, m, fuel, push, k1);
    } else {
      n := k1;
    }
  }

  lemma {:induction false} CallSim2(w: World, p: Prog, e: Expr, a: AOut, m: Mach, fuel: nat, push: bool, k1: nat)
    returns (n: nat)
    requires Linked(w, p) && m.frame.Frame? && e.Call? && a.AVals? && |a.vs| == Length(e.args) + 1
    requires
      var len := |CallPrefix(p.prims, ExprCode(p.prims, e.fn), e.args)|;
      && ArgsDone(w, m, a, len, fuel, k1)
      && CodeAt(CodeOf(w, m.obj), m.pc + len, [I(OpCall(Length(e.args)))])
      && CodeAt(CodeOf(w, m.obj), m.pc + len + 1, [Inst(OpNoop, push)])
    ensures EvalDone(w, m, Apply(p, a.vs[0], a.vs[1..], a.st, fuel),
                     |CallPrefix(p.prims, ExprCode(p.prims, e.fn), e.args)| + 2, push, fuel, n)
    decreases fuel, 1, e, 1
  {
    var len := |CallPrefix(p.prims, ExprCode(p.prims, e.fn), e.args)|;
    var last := m.(pc := m.pc + len, value := a.vs[|a.vs| - 1], store := a.st);
    var c := Called(w, last, a.vs[0], a.vs[1..], m.stack, false);
    var r := Apply(p, a.vs[0], a.vs[1..], a.st, fuel);
    var m1, k2 := m, 0;
    if c.Running? {
      m1 := c.m;
      if fuel > 0 { k2 := BodySim(w, p, a.vs[0].f, m1, fuel - 1); }
    }
    n := CallRun(w, m, a, len, m1, r, push, fuel, k1, k2);
  }

  /** A function entered at its start returns the result of its body. */
  lemma {:induction false} BodySim(w: World, p: Prog, f: nat, m: Mach, fuel: nat) returns (n: nat)
    requires Linked(w, p) && f < |p.funs| && m.obj == f && m.pc == 0 && m.frame.Frame?
    ensures ReturnDone(w, m, BodyResult(Exec(p, p.funs[f].body, m.frame.box, m.store, fuel)), fuel, n)
    decreases fuel, 2
  {
    var pr, body := p.prims, p.funs[f].body;
    assert !FunErr(pr, p.funs[f]);
    var c := StmtCode(pr, body, false);
    var code := CodeOf(w, m.obj);
    assert code == BodyCode(pr, body);
    assert Placed(code, 0, c, Keep, Keep);
    n := ExecSim(w, p, body, m, Toplevel, Keep, Keep, fuel);
    var r := Exec(p, body, m.frame.box, m.store, fuel);
    if r.Normal? {
      ErrMono(pr, body, Toplevel);
      StmtShows(p, body, false, m.frame.box, m.store, fuel);
      var ret := I(OpReturnVoid);
      assert CodeAt(code, |c|, [ret]);
      StepReturn(w, m, n, Steps(w, Running(m), n).m, ret);
      n := n + 1;
    }
  }

  // ----- statements -----

  /** The machine stands in a function of the program, in front of the code of `s`. */
  ghost predicate StmtHere(w: World, p: Prog, s: Stmt, m: Mach, x: Ctx, brk: Target, cont: Target) {
    && !StmtErr(p.prims, s, x, false)
    && (x.brk ==> brk.At?) && (x.cont ==> cont.At?)
    && m.frame.Frame?
    && Placed(CodeOf(w, m.obj), m.pc, StmtCode(p.prims, s, x.brk), brk, cont)
  }

  lemma {:induction false} ExecSim(w: World, p: Prog, s: Stmt, m: Mach, x: Ctx, brk: Target, cont: Target, fuel: nat)
    returns (n: nat)
    requires Linked(w, p) && StmtHere(w, p, s, m, x, brk, cont)
    ensures StmtDone(w, m, Exec(p, s, m.frame.box, m.store, fuel), m.pc + |StmtCode(p.prims, s, x.brk)|, brk, cont,
      fuel, n)
    decreases fuel, 1, s, 5
  {
    match s
    case If(_, _) => n := IfSim(w, p, s, m, x, brk, cont, fuel);
    case IfElse(t, _, _) =>
      if IsConst(ExprCode(p.prims, t)) {
        n := IfElseConst(w, p, s, m, x, brk, cont, fuel);
      } else {
        n := IfElseTest(w, p, s, m, x, brk, cont, fuel);
      }
    case While(_, _) => n := WhileSim(w, p, s, m, x, brk, cont, fuel);
    case DoWhile(_, _) => n := DoSim(w, p, s, m, x, brk, cont, fuel);
    case For(_, _, _, _) => n := ForSim(w, p, s, m, x, brk, cont, fuel);
    case Switch(_, _) => n := SwitchSim(w, p, s, m, x, brk, cont, fuel);
    case Break => n := JumpSim(w, p, s, m, x, brk, cont, fuel);
    case Continue => n := JumpSim(w, p, s, m, x, brk, cont, fuel);
    case Return(_) => n := ReturnSim(w, p, s, m, x, brk, cont, fuel);
    case ReturnVoid =>
      assert [I(Op.OpReturnVoid)][0] == I(Op.OpReturnVoid);
      n := 0;
      StepReturn(w, m, n, m, I(Op.OpReturnVoid));
      n := n + 1;
    case ExprStat(e) =>
      ExprSettled(p.prims, e);
      PlacedSettled(CodeOf(w, m.obj), m.pc, ExprCode(p.prims, e), brk, cont);
      n := EvalSim(w, p, e, m, fuel, false);
    case Semi => n := 0;
    case Block(ss) => n := BlockSim(w, p, ss, m, x, brk, cont, fuel);
  }

  lemma JumpSim(w: World, p: Prog, s: Stmt, m: Mach, x: Ctx, brk: Target, cont: Target, fuel: nat) returns (n: nat)
    requires Linked(w, p) && StmtHere(w, p, s, m, x, brk, cont) && (s.Break? || s.Continue?)
    ensures StmtDone(w, m, Exec(p, s, m.frame.box, m.store, fuel), m.pc + |StmtCode(p.prims, s, x.brk)|, brk, cont,
      fuel, n)
  {
    var mod := if s.Break? then ModBreak else ModContinue;
    var off := if s.Break? then brk.i - m.pc else cont.i - m.pc;
    assert [I(OpBranch(0, mod))][0] == I(OpBranch(0, mod));
    n := 0;
    StepBranch(w, m, n, m, off, mod);
    n := n + 1;
  }

  lemma {:induction false} BlockSim(w: World, p: Prog, ss: Stmts, m: Mach, x: Ctx, brk: Target, cont: Target, fuel: nat)
    returns (n: nat)
    requires Linked(w, p) && !BlockErr(p.prims, ss, x, false) && m.frame.Frame?
    requires (x.brk ==> brk.At?) && (x.cont ==> cont.At?)
    requires Placed(CodeOf(w, m.obj), m.pc, BlockCode(p.prims, ss, x.brk), brk, cont)
    ensures StmtDone(w, m, ExecBlock(p, ss, m.frame.box, m.store, fuel), m.pc + |BlockCode(p.prims, ss, x.brk)|,
                     brk, cont, fuel, n)
    decreases fuel, 1, ss, 1
  {
    match ss
    case Nil => n := 0;
    case Cons(s, tl) =>
      var a, b := StmtCode(p.prims, s, x.brk), BlockCode(p.prims, tl, x.brk);
      SplitPlaced(CodeOf(w, m.obj), m.pc, a, b, brk, cont);
      n := ExecSim(w, p, s, m, x, brk, cont, fuel);
      var r := Exec(p, s, m.frame.box, m.store, fuel);
      if r.Normal? {
        var m1 := Steps(w, Running(m), n).m;
        var k := BlockSim(w, p, tl, m1, x, brk, cont, fuel);
        Shift(w, m, n, m1, ExecBlock(p, tl, m.frame.box, r.st, fuel), m.pc + |a| + |b|, brk, cont, fuel, k, fuel);
        n := n + k;
      }
  }

  lemma {:induction false} IfSim(w: World, p: Prog, s: Stmt, m: Mach, x: Ctx, brk: Target, cont: Target, fuel: nat)
    returns (n: nat)
    requires Linked(w, p) && StmtHere(w, p, s, m, x, brk, cont) && s.If?
    ensures StmtDone(w, m, Exec(p, s, m.frame.box, m.store, fuel), m.pc + |StmtCode(p.prims, s, x.brk)|, brk, cont,
      fuel, n)
    decreases fuel, 1, s, 4
  {
    var pr, code := p.prims, CodeOf(w, m.obj);
    var c, b := ExprCode(pr, s.test), StmtCode(pr, s.then_, x.brk);
    assert !BoolErr(pr, s.test);
    if IsConst(c) {
      ConstMeaning(p, s.test, m.frame.box, m.store, fuel);
      if IsTrue(c) { n := ExecSim(w, p, s.then_, m, x, brk, cont, fuel); } else { n := 0; }
    } else {
      var test := OpBranchFalse(|b| + 1);
      SplitPlaced(code, m.pc, c + [I(test)], b, brk, cont);
      PlacedTest(pr, s.test, test, code, m.pc, brk, cont);
      n := ArmSim(w, p, s, s.then_, |b| + 1, m.pc + |c| + |b| + 1, m, x, brk, cont, fuel);
    }
  }

  /** A test and the statement it guards: control goes `off` instructions on, to `end`, if the test is false. */
  lemma {:induction false} ArmSim(w: World, p: Prog, s: Stmt, arm: Stmt, off: nat, end: int,
                                  m: Mach, x: Ctx, brk: Target, cont: Target, fuel: nat) returns (n: nat)
    requires Linked(w, p) && s.If? && arm == s.then_
    requires ExprHere(w, p, s.test, m, false) && !StmtErr(p.prims, arm, x, false)
    requires (x.brk ==> brk.At?) && (x.cont ==> cont.At?)
    requires CodeAt(CodeOf(w, m.obj), m.pc + |ExprCode(p.prims, s.test)|, [I(OpBranchFalse(off))])
    requires Placed(CodeOf(w, m.obj), m.pc + |ExprCode(p.prims, s.test)| + 1, StmtCode(p.prims, arm, x.brk), brk, cont)
    requires off == |StmtCode(p.prims, arm, x.brk)| + 1 && end == m.pc + |ExprCode(p.prims, s.test)| + off
    ensures StmtDone(w, m, Exec(p, s, m.frame.box, m.store, fuel), end, brk, cont, fuel, n)
    decreases fuel, 1, s, 3
  {
    var c := ExprCode(p.prims, s.test);
    var k1 := TestSim(w, p, s.test, true, off, m, fuel);
    var k2 := 0;
    var t := EvalBool(p, s.test, m.frame.box, m.store, fuel);
    var r := STimeout;
    if t.EVal? && t.v.b {
      k2 := ExecSim(w, p, arm, AfterTest(m, t, |c|, true, off), x, brk, cont, fuel);
      r := Exec(p, arm, m.frame.box, t.st, fuel);
    } else if t.EVal? {
      r := Normal(t.st);
    }
    n := CondRun(w, m, t, |c|, true, off, r, end, brk, cont, fuel, k1, k2);
  }

  lemma {:induction false} IfElseConst(w: World, p: Prog, s: Stmt, m: Mach, x: Ctx, brk: Target, cont: Target,
      fuel: nat)
    returns (n: nat)
    requires Linked(w, p) && StmtHere(w, p, s, m, x, brk, cont) && s.IfElse? && IsConst(ExprCode(p.prims, s.test))
    ensures StmtDone(w, m, Exec(p, s, m.frame.box, m.store, fuel), m.pc + |StmtCode(p.prims, s, x.brk)|, brk, cont,
      fuel, n)
    decreases fuel, 1, s, 4
  {
    var c := ExprCode(p.prims, s.test);
    assert !BoolErr(p.prims, s.test);
    hide Placed, CodeAt, ReachesEnd, Linked;
    ConstMeaning(p, s.test, m.frame.box, m.store, fuel);
    if IsTrue(c) {
      assert StmtCode(p.prims, s, x.brk) == StmtCode(p.prims, s.then_, x.brk);
      n := ExecSim(w, p, s.then_, m, x, brk, cont, fuel);
    } else {
      assert StmtCode(p.prims, s, x.brk) == StmtCode(p.prims, s.else_, x.brk);
      n := ExecSim(w, p, s.else_, m, x, brk, cont, fuel);
    }
  }

  lemma {:induction false} IfElseTest(w: World, p: Prog, s: Stmt, m: Mach, x: Ctx, brk: Target, cont: Target, fuel: nat)
    returns (n: nat)
    requires Linked(w, p) && StmtHere(w, p, s, m, x, brk, cont) && s.IfElse? && !IsConst(ExprCode(p.prims, s.test))
    ensures StmtDone(w, m, Exec(p, s, m.frame.box, m.store, fuel), m.pc + |StmtCode(p.prims, s, x.brk)|, brk, cont,
      fuel, n)
    decreases fuel, 1, s, 4
  {
    hide ArmsCode, BadBool, BlockCode, BlockErr, CasesErr, CodeAt, CodeOf, DefaultStart, ElseAt, Exec, ExprErr;
    hide ForCode, I, IsConst, IsTrue, Length, Linked, OptCode, OptErr, Patch, Placed, ReachesEnd, SetPush, Settled;
    hide StmtDone, TestsCode;
    var pr, code := p.prims, CodeOf(w, m.obj);
    var c, a, b := ExprCode(pr, s.test), StmtCode(pr, s.then_, x.brk), StmtCode(pr, s.else_, x.brk);
    assert !BoolErr(pr, s.test);
    hide Placed, CodeAt, ReachesEnd, Linked;
    var skip := SkipCode(a, b);
    assert StmtCode(pr, s, x.brk) == c + [I(OpBranchFalse(|a| + |skip| + 1))] + a + skip + b;
    assert !StmtErr(pr, s.then_, x, false) && !StmtErr(pr, s.else_, x, false);
    hide StmtCode, StmtErr, ExprCode, Exec, SkipCode, ElseAt;
    PlacedElse(pr, s.test, a, skip, b, code, m.pc, brk, cont);
    n := ArmsSim2(w, p, s, skip, m, x, brk, cont, fuel);
  }

  /** The branch over the second arm `b`, present only where the first arm `a` may end normally. */
  function SkipCode(a: Code, b: Code): (skip: Code)
    ensures Settled(skip)
  {
    if ReachesEnd(a) then [I(OpBranch(|b| + 1, ModNone))] else []
  }

  lemma {:induction false} ArmsSim2(w: World, p: Prog, s: Stmt, skip: Code, m: Mach, x: Ctx, brk: Target, cont: Target,
                                    fuel: nat) returns (n: nat)
    requires Linked(w, p) && s.IfElse? && m.frame.Frame?
    requires !ExprErr(p.prims, s.test) && !StmtErr(p.prims, s.then_, x, false) && !StmtErr(p.prims, s.else_, x, false)
    requires (x.brk ==> brk.At?) && (x.cont ==> cont.At?)
    requires skip == SkipCode(StmtCode(p.prims, s.then_, x.brk), StmtCode(p.prims, s.else_, x.brk))
    requires ElseAt(CodeOf(w, m.obj), m.pc, ExprCode(p.prims, s.test), StmtCode(p.prims, s.then_, x.brk), skip,
                    StmtCode(p.prims, s.else_, x.brk), brk, cont)
    ensures
      var end := m.pc + |ExprCode(p.prims, s.test)| + |StmtCode(p.prims, s.then_, x.brk)| +
                 |StmtCode(p.prims, s.else_, x.brk)| + |skip| + 1;
      StmtDone(w, m, Exec(p, s, m.frame.box, m.store, fuel), end, brk, cont, fuel, n)
    decreases fuel, 1, s, 3
  {
    hide Steps;
    var c, a, b := ExprCode(p.prims, s.test), StmtCode(p.prims, s.then_, x.brk), StmtCode(p.prims, s.else_, x.brk);
    var off := |a| + |skip| + 1;
    hide Placed, CodeAt, ReachesEnd, Linked;
    var end := m.pc + |c| + off + |b|;
    var k1 := TestSim(w, p, s.test, true, off, m, fuel);
    var k2 := 0;
    var t := EvalBool(p, s.test, m.frame.box, m.store, fuel);
    var r := STimeout;
    if t.EVal? && t.v.b {
      var m1 := AfterTest(m, t, |c|, true, off);
      k2 := ExecSim(w, p, s.then_, m1, x, brk, cont, fuel);
      k2 := SkipElse(w, p, s.then_, m1, x, brk, cont, skip, |b|, fuel, k2);
      r := Exec(p, s.then_, m.frame.box, t.st, fuel);
    } else if t.EVal? {
      k2 := ExecSim(w, p, s.else_, AfterTest(m, t, |c|, true, off), x, brk, cont, fuel);
      r := Exec(p, s.else_, m.frame.box, t.st, fuel);
    }
    n := CondRun(w, m, t, |c|, true, off, r, end, brk, cont, fuel, k1, k2);
  }

  /** After the first arm of a two-way conditional: branch over the second, if there is such a branch. */
  lemma SkipElse(w: World, p: Prog, a: Stmt, m: Mach, x: Ctx, brk: Target, cont: Target, skip: Code, lb: nat,
                 fuel: nat, k: nat) returns (n: nat)
    requires m.frame.Frame? && !StmtErr(p.prims, a, x, false)
    requires skip == if ReachesEnd(StmtCode(p.prims, a, x.brk)) then [I(OpBranch(lb + 1, ModNone))] else []
    requires CodeAt(CodeOf(w, m.obj), m.pc + |StmtCode(p.prims, a, x.brk)|, skip)
    requires StmtDone(w, m, Exec(p, a, m.frame.box, m.store, fuel), m.pc + |StmtCode(p.prims, a, x.brk)|, brk, cont,
      fuel, k)
    ensures StmtDone(w, m, Exec(p, a, m.frame.box, m.store, fuel),
                     m.pc + |StmtCode(p.prims, a, x.brk)| + |skip| + lb, brk, cont, fuel, n)
  {
    hide Steps;
    n := k;
    if Exec(p, a, m.frame.box, m.store, fuel).Normal? {
      ErrMono(p.prims, a, x);
      StmtShows(p, a, x.brk, m.frame.box, m.store, fuel);
      StepBranch(w, m, n, Steps(w, Running(m), n).m, lb + 1, ModNone);
      n := n + 1;
    }
  }

  lemma {:induction false} ReturnSim(w: World, p: Prog, s: Stmt, m: Mach, x: Ctx, brk: Target, cont: Target, fuel: nat)
    returns (n: nat)
    requires Linked(w, p) && StmtHere(w, p, s, m, x, brk, cont) && s.Return?
    ensures StmtDone(w, m, Exec(p, s, m.frame.box, m.store, fuel), m.pc + |StmtCode(p.prims, s, x.brk)|, brk, cont,
      fuel, n)
    decreases fuel, 1, s, 4
  {
    var pr, code, e := p.prims, CodeOf(w, m.obj), s.result;
    if e.Call? && e.typed && !x.brk {
      n := TailSim(w, p, s, m, x, brk, cont, fuel);
    } else {
      var c, ret := ExprCode(pr, e), I(Op.OpReturn);
      PlacedTest(pr, e, Op.OpReturn, code, m.pc, brk, cont);
      hide CodeAt, Linked, Placed;
      n := EvalSim(w, p, e, m, fuel, false);
      var r := Eval(p, e, m.frame.box, m.store, fuel);
      if r.EVal? {
        StepReturn(w, m, n, After(m, |c|, r.v, false, r.st), ret);
        n := n + 1;
      }
    }
  }

  lemma {:induction false} TailSim(w: World, p: Prog, s: Stmt, m: Mach, x: Ctx, brk: Target, cont: Target, fuel: nat)
    returns (n: nat)
    requires Linked(w, p) && StmtHere(w, p, s, m, x, brk, cont)
    requires s.Return? && s.result.Call? && s.result.typed && !x.brk
    ensures StmtDone(w, m, Exec(p, s, m.frame.box, m.store, fuel), m.pc + |StmtCode(p.prims, s, x.brk)|, brk, cont,
      fuel, n)
    decreases fuel, 1, s, 3
  {
    hide Apply, ArgsErr, AssignIf, BlockCode, BlockErr, BoolErr, CasesErr, CodeAt, CodeOf, DefaultArm, DefaultStart;
    hide EvalArgs, EvalBool, EvalOpt, ExecArms, ExecBlock, ForCode, ForLoop, IsConst, IsTrue, Kept, LeaveSwitch;
    hide Length, LiftOp, Linked, LocOf, Loops, OptCode, OptErr, Patch, PushAll, ReachesEnd, Read, Resolve;
    hide ReturnDone, Same, Select, SetPush, Settled, Steps, Store1, TestsCode, ThreadCall;
    hide Steps;
    var pr, code, e := p.prims, CodeOf(w, m.obj), s.result;
    var pre, call := CallPrefix(pr, ExprCode(pr, e.fn), e.args), I(OpTailCall(Length(e.args)));
    ExprSettled(pr, e.fn);
    PrefixSettled(pr, ExprCode(pr, e.fn), e.args);
    SettledConcat(pre, [call]);
    PlacedSettled(code, m.pc, pre + [call], brk, cont);
    Split(code, m.pc, pre, [call]);
    hide CodeAt, Linked, Placed, Settled;
    n := PrefixSim(w, p, e.fn, e.args, e, m, fuel);
    var a := EvalCall(p, e.fn, e.args, m.frame.box, m.store, fuel);
    if a.AVals? {
      n := TailSim2(w, p, s, a, m, fuel, n);
    }
  }

  lemma {:induction false} TailSim2(w: World, p: Prog, s: Stmt, a: AOut, m: Mach, fuel: nat, k: nat) returns (n: nat)
    requires Linked(w, p) && m.frame.Frame? && s.Return? && s.result.Call? && a.AVals?
    requires |a.vs| == Length(s.result.args) + 1
    requires
      var len := |CallPrefix(p.prims, ExprCode(p.prims, s.result.fn), s.result.args)|;
      && ArgsDone(w, m, a, len, fuel, k)
      && CodeAt(CodeOf(w, m.obj), m.pc + len, [I(OpTailCall(Length(s.result.args)))])
    ensures ReturnDone(w, m, Apply(p, a.vs[0], a.vs[1..], a.st, fuel), fuel, n)
    decreases fuel, 1, s, 2
  {
    var len := |CallPrefix(p.prims, ExprCode(p.prims, s.result.fn), s.result.args)|;
    var last := m.(pc := m.pc + len, value := a.vs[|a.vs| - 1], store := a.st);
    var c := Called(w, last, a.vs[0], a.vs[1..], m.stack, true);
    var r := Apply(p, a.vs[0], a.vs[1..], a.st, fuel);
    var m1, k2 := m, 0;
    if c.Running? {
      m1 := c.m;
      if fuel > 0 { k2 := BodySim(w, p, a.vs[0].f, m1, fuel - 1); }
    }
    n := TailRun(w, m, a, len, m1, r, fuel, k, k2);
  }

  // ----- loops -----

  lemma {:induction false} WhileSim(w: World, p: Prog, s: Stmt, m: Mach, x: Ctx, brk: Target, cont: Target, fuel: nat)
    returns (n: nat)
    requires Linked(w, p) && StmtHere(w, p, s, m, x, brk, cont) && s.While?
    ensures StmtDone(w, m, Exec(p, s, m.frame.box, m.store, fuel), m.pc + |StmtCode(p.prims, s, x.brk)|, brk, cont,
      fuel, n)
    decreases fuel, 1, s, 4
  {
    hide Steps;
    var pr, code := p.prims, CodeOf(w, m.obj);
    var c, b := ExprCode(pr, s.test), StmtCode(pr, s.body, true);
    assert !BoolErr(pr, s.test);
    if IsConst(c) {
      n := WhileConst(w, p, s, m, x, brk, cont, fuel);
    } else {
      n := WhileEnter(w, p, s, m, x, brk, cont, fuel);
    }
  }

  lemma {:induction false} WhileEnter(w: World, p: Prog, s: Stmt, m: Mach, x: Ctx, brk: Target, cont: Target, fuel: nat)
    returns (n: nat)
    requires Linked(w, p) && StmtHere(w, p, s, m, x, brk, cont) && s.While? && !IsConst(ExprCode(p.prims, s.test))
    ensures StmtDone(w, m, Exec(p, s, m.frame.box, m.store, fuel), m.pc + |StmtCode(p.prims, s, x.brk)|, brk, cont,
      fuel, n)
    decreases fuel, 1, s, 3
  {
    hide ArmsCode, BadBool, BlockCode, BlockErr, CasesErr, CodeAt, CodeOf, DefaultStart, Exec, ExprErr, ForCode, I;
    hide IsConst, IsTrue, Length, Linked, LoopAt, OptCode, OptErr, Placed, ReachesEnd, Resolve, SetPush, Settled;
    hide Steps, TestsCode;
    hide Steps;
    var pr, code := p.prims, CodeOf(w, m.obj);
    var c, b := ExprCode(pr, s.test), StmtCode(pr, s.body, true);
    assert !BoolErr(pr, s.test);
    ExprSettled(pr, s.test);
    var body, back := Patch(b, At(|b| + 0 + |c| + 1), At(|b|)), [I(OpBranchTrue(-(|b| + 0 + |c|)))];
    assert StmtCode(pr, s, x.brk) == [I(OpBranch(|b| + 1, ModNone))] + body + [] + c + back;
    PlacedEntryLoop(code, m.pc, c, [], b, brk, cont);
    hide CodeAt, Linked, Placed, LoopAt, StmtCode;
    n := WhileLoop(w, p, s, m.(pc := m.pc + |b| + 1), fuel);
    n := EnterRun(w, m, m.pc + |b| + 1, Exec(p, s, m.frame.box, m.store, fuel), m.pc + |b| + |c| + 2, fuel, n);
  }

  /** A while statement, from its test on. */
  lemma {:induction false} WhileLoop(w: World, p: Prog, s: Stmt, m: Mach, fuel: nat) returns (n: nat)
    requires Linked(w, p) && s.While? && m.frame.Frame?
    requires !ExprErr(p.prims, s.test) && !StmtErr(p.prims, s.body, Ctx(true, true), false)
    requires LoopAt(CodeOf(w, m.obj), m.pc, ExprCode(p.prims, s.test), [], StmtCode(p.prims, s.body, true))
    ensures StmtDone(w, m, Exec(p, s, m.frame.box, m.store, fuel), m.pc + |ExprCode(p.prims, s.test)| + 1, Keep, Keep,
      fuel, n)
    decreases fuel, 1, s, 2
  {
    n := 0;
    if fuel > 0 {
      hide Steps;
      var c, b := ExprCode(p.prims, s.test), StmtCode(p.prims, s.body, true);
      var off, end := -(|b| + 0 + |c|), m.pc + |c| + 1;
      var k1 := TestSim(w, p, s.test, false, off, m, fuel);
      var k2, k3 := 0, 0;
      var t := EvalBool(p, s.test, m.frame.box, m.store, fuel);
      var r, again := STimeout, STimeout;
      if t.EVal? && t.v.b {
        var m1 := AfterTest(m, t, |c|, false, off);
        k2 := ExecSim(w, p, s.body, m1, Ctx(true, true), At(end), At(m.pc), fuel);
        r := Exec(p, s.body, m.frame.box, t.st, fuel);
        if Loops(r) {
          k3 := WhileLoop(w, p, s, Later(w, m1, k2), fuel - 1);
          again := Exec(p, s, m.frame.box, r.st, fuel - 1);
        }
      }
      n := TestedRun(w, m, t, |c|, off, r, if Loops(r) then Normal(r.st) else STimeout, again, fuel, k1, k2, k3);
    }
  }

  lemma {:induction false} WhileConst(w: World, p: Prog, s: Stmt, m: Mach, x: Ctx, brk: Target, cont: Target, fuel: nat)
    returns (n: nat)
    requires Linked(w, p) && StmtHere(w, p, s, m, x, brk, cont) && s.While? && IsConst(ExprCode(p.prims, s.test))
    ensures StmtDone(w, m, Exec(p, s, m.frame.box, m.store, fuel), m.pc + |StmtCode(p.prims, s, x.brk)|, brk, cont,
      fuel, n)
    decreases fuel, 1, s, 3
  {
    var pr, code := p.prims, CodeOf(w, m.obj);
    var c, b := ExprCode(pr, s.test), StmtCode(pr, s.body, true);
    assert !BoolErr(pr, s.test);
    ConstMeaning(p, s.test, m.frame.box, m.store, fuel);
    n := 0;
    if IsTrue(c) {
      var body := Patch(b, At(|b| + 0 + 1), At(|b|));
      assert StmtCode(pr, s, x.brk) == body + [] + [I(OpBranch(-(|b| + 0), ModNone))];
      PlacedEndless(code, m.pc, [], b, brk, cont);
      hide CodeAt, Linked, Placed, EndlessAt, StmtCode;
      n := WhileTrue(w, p, s, m, fuel);
    }
  }

  /** A while statement whose test is constantly true. */
  lemma {:induction false} WhileTrue(w: World, p: Prog, s: Stmt, m: Mach, fuel: nat) returns (n: nat)
    requires Linked(w, p) && s.While? && m.frame.Frame? && IsTrue(ExprCode(p.prims, s.test))
    requires !ExprErr(p.prims, s.test) && !StmtErr(p.prims, s.body, Ctx(true, true), false)
    requires EndlessAt(CodeOf(w, m.obj), m.pc, [], StmtCode(p.prims, s.body, true))
    ensures StmtDone(w, m, Exec(p, s, m.frame.box, m.store, fuel), m.pc + |StmtCode(p.prims, s.body, true)| + 1, Keep,
      Keep, fuel, n)
    decreases fuel, 1, s, 2
  {
    n := 0;
    if fuel > 0 {
      hide Steps;
      ConstMeaning(p, s.test, m.frame.box, m.store, fuel);
      var b := StmtCode(p.prims, s.body, true);
      var t := m.pc + |b| + 0;
      var k1 := ExecSim(w, p, s.body, m, Ctx(true, true), At(t + 1), At(t), fuel);
      var k2 := 0;
      var r := Exec(p, s.body, m.frame.box, m.store, fuel);
      var again := STimeout;
      if Loops(r) {
        k2 := WhileTrue(w, p, s, Later(w, m, k1).(pc := m.pc), fuel - 1);
        again := Exec(p, s, m.frame.box, r.st, fuel - 1);
      }
      var nx := if Loops(r) then Normal(r.st) else STimeout;
      assert Exec(p, s, m.frame.box, m.store, fuel) == Round(r, nx, again);
      hide Exec, EndlessAt;
      n := EndlessRun(w, m, r, nx, again, t, fuel, k1, k2);
    }
  }

  lemma {:induction false} DoSim(w: World, p: Prog, s: Stmt, m: Mach, x: Ctx, brk: Target, cont: Target, fuel: nat)
    returns (n: nat)
    requires Linked(w, p) && StmtHere(w, p, s, m, x, brk, cont) && s.DoWhile?
    ensures StmtDone(w, m, Exec(p, s, m.frame.box, m.store, fuel), m.pc + |StmtCode(p.prims, s, x.brk)|, brk, cont,
      fuel, n)
    decreases fuel, 1, s, 4
  {
    hide BadBool, BlockCode, BlockErr, CasesErr, CodeAt, CodeOf, DefaultStart, Exec, ExprErr, ForCode, I, IsConst;
    hide IsTrue, Kept, Length, Linked, LoopAt, OptCode, OptErr, Placed, ReachesEnd, Resolve, Same, SetPush, Settled;
    hide Steps, TestsCode;
    hide Steps;
    var pr, code := p.prims, CodeOf(w, m.obj);
    var c, b := ExprCode(pr, s.test), StmtCode(pr, s.body, true);
    assert !BoolErr(pr, s.test);
    if IsConst(c) {
      n := DoConst(w, p, s, m, x, brk, cont, fuel);
    } else {
      ExprSettled(pr, s.test);
      var body, back := Patch(b, At(|b| + 0 + |c| + 1), At(|b|)), [I(OpBranchTrue(-(|b| + 0 + |c|)))];
      assert StmtCode(pr, s, x.brk) == body + [] + c + back;
      PlacedLoop(code, m.pc, c, [], b, brk, cont);
      hide CodeAt, Linked, Placed, LoopAt, StmtCode;
      n := DoLoop(w, p, s, m, fuel);
    }
  }

  /** A do statement whose test is not constant. */
  lemma {:induction false} DoLoop(w: World, p: Prog, s: Stmt, m: Mach, fuel: nat) returns (n: nat)
    requires Linked(w, p) && s.DoWhile? && m.frame.Frame?
    requires !ExprErr(p.prims, s.test) && !StmtErr(p.prims, s.body, Ctx(true, true), false)
    requires LoopAt(CodeOf(w, m.obj), m.pc + |StmtCode(p.prims, s.body, true)|, ExprCode(p.prims, s.test), [],
                    StmtCode(p.prims, s.body, true))
    ensures StmtDone(w, m, Exec(p, s, m.frame.box, m.store, fuel),
                     m.pc + |StmtCode(p.prims, s.body, true)| + |ExprCode(p.prims, s.test)| + 1, Keep, Keep, fuel, n)
    decreases fuel, 1, s, 3
  {
    n := 0;
    if fuel > 0 {
      hide Steps;
      var c, b := ExprCode(p.prims, s.test), StmtCode(p.prims, s.body, true);
      var off, test := -(|b| + 0 + |c|), m.pc + |b|;
      hide CodeAt, Linked, Placed;
      var k1 := ExecSim(w, p, s.body, m, Ctx(true, true), At(test + |c| + 1), At(test), fuel);
      var k2, k3 := 0, 0;
      var r := Exec(p, s.body, m.frame.box, m.store, fuel);
      var t, again := ETimeout, STimeout;
      if Loops(r) {
        var m1 := Later(w, m, k1);
        k2 := TestSim(w, p, s.test, false, off, m1, fuel);
        t := EvalBool(p, s.test, m.frame.box, r.st, fuel);
        if t.EVal? && t.v.b {
          k3 := DoLoop(w, p, s, AfterTest(m1, t, |c|, false, off), fuel - 1);
          again := Exec(p, s, m.frame.box, t.st, fuel - 1);
        }
      }
      n := LastTestRun(w, m, r, t, |c|, off, again, test, fuel, k1, k2, k3);
    }
  }

  lemma {:induction false} DoConst(w: World, p: Prog, s: Stmt, m: Mach, x: Ctx, brk: Target, cont: Target, fuel: nat)
    returns (n: nat)
    requires Linked(w, p) && StmtHere(w, p, s, m, x, brk, cont) && s.DoWhile? && IsConst(ExprCode(p.prims, s.test))
    ensures StmtDone(w, m, Exec(p, s, m.frame.box, m.store, fuel), m.pc + |StmtCode(p.prims, s, x.brk)|, brk, cont,
      fuel, n)
    decreases fuel, 1, s, 3
  {
    hide BlockCode, BlockErr, CasesErr, CodeAt, CodeOf, DefaultArm, DefaultStart, EndlessAt, Eval, EvalOpt, ExecArms;
    hide ExecBlock, ExprErr, ForCode, ForLoop, FromE, I, Kept, LeaveSwitch, Length, Linked, OptCode, OptErr;
    hide ReachesEnd, Resolve, Select, SetPush, Settled, Step, TestsCode;
    var pr, code := p.prims, CodeOf(w, m.obj);
    var c, b := ExprCode(pr, s.test), StmtCode(pr, s.body, true);
    assert !BoolErr(pr, s.test);
    if IsTrue(c) {
      hide Steps;
      var body := Patch(b, At(|b| + 0 + 1), At(|b|));
      assert StmtCode(pr, s, x.brk) == body + [] + [I(OpBranch(-(|b| + 0), ModNone))];
      PlacedEndless(code, m.pc, [], b, brk, cont);
      hide CodeAt, Linked, Placed, EndlessAt, StmtCode;
      n := DoTrue(w, p, s, m, fuel);
    } else {
      n := 0;
      var body := Patch(b, At(|b| + 0), At(|b|));
      assert StmtCode(pr, s, x.brk) == body + [] == body;
      PlacedPatch(code, m.pc, b, At(|b|), At(|b|), brk, cont);
      hide CodeAt, Linked, Placed, StmtCode;
      if fuel > 0 {
        n := ExecSim(w, p, s.body, m, Ctx(true, true), At(m.pc + |b|), At(m.pc + |b|), fuel);
        var r := Exec(p, s.body, m.frame.box, m.store, fuel);
        if Loops(r) { ConstMeaning(p, s.test, m.frame.box, r.st, fuel); }
      }
    }
  }

  /** A do statement whose test is constantly true. */
  lemma {:induction false} DoTrue(w: World, p: Prog, s: Stmt, m: Mach, fuel: nat) returns (n: nat)
    requires Linked(w, p) && s.DoWhile? && m.frame.Frame? && IsTrue(ExprCode(p.prims, s.test))
    requires !ExprErr(p.prims, s.test) && !StmtErr(p.prims, s.body, Ctx(true, true), false)
    requires EndlessAt(CodeOf(w, m.obj), m.pc, [], StmtCode(p.prims, s.body, true))
    ensures StmtDone(w, m, Exec(p, s, m.frame.box, m.store, fuel), m.pc + |StmtCode(p.prims, s.body, true)| + 1, Keep,
      Keep, fuel, n)
    decreases fuel, 1, s, 2
  {
    n := 0;
    if fuel > 0 {
      hide Steps;
      var b := StmtCode(p.prims, s.body, true);
      var t := m.pc + |b| + 0;
      var k1 := ExecSim(w, p, s.body, m, Ctx(true, true), At(t + 1), At(t), fuel);
      var k2 := 0;
      var r := Exec(p, s.body, m.frame.box, m.store, fuel);
      var again := STimeout;
      if Loops(r) {
        ConstMeaning(p, s.test, m.frame.box, r.st, fuel);
        k2 := DoTrue(w, p, s, Later(w, m, k1).(pc := m.pc), fuel - 1);
        again := Exec(p, s, m.frame.box, r.st, fuel - 1);
      }
      var nx := if Loops(r) then Normal(r.st) else STimeout;
      assert Exec(p, s, m.frame.box, m.store, fuel) == Round(r, nx, again);
      hide Exec, EndlessAt;
      n := EndlessRun(w, m, r, nx, again, t, fuel, k1, k2);
    }
  }

  /** An optional expression evaluated for its effect. */
  lemma {:induction false} OptSim(w: World, p: Prog, e: Option<Expr>, m: Mach, brk: Target, cont: Target, fuel: nat)
    returns (n: nat)
    requires Linked(w, p) && !OptErr(p.prims, e) && m.frame.Frame?
    requires CodeAt(CodeOf(w, m.obj), m.pc, OptCode(p.prims, e))
    ensures StmtDone(w, m, EvalOpt(p, e, m.frame.box, m.store, fuel), m.pc + |OptCode(p.prims, e)|, brk, cont, fuel, n)
    ensures !EvalOpt(p, e, m.frame.box, m.store, fuel).Broke? && !EvalOpt(p, e, m.frame.box, m.store, fuel).Continued?
    decreases fuel, 1, e, 4
  {
    n := 0;
    if e.Some? { n := EvalSim(w, p, e.value, m, fuel, false); }
  }

  lemma OptSettled(pr: Prims, e: Option<Expr>)
    ensures Settled(OptCode(pr, e))
  {
    if e.Some? { ExprSettled(pr, e.value); }
  }

  lemma {:induction false} ForSim(w: World, p: Prog, s: Stmt, m: Mach, x: Ctx, brk: Target, cont: Target, fuel: nat)
    returns (n: nat)
    requires Linked(w, p) && StmtHere(w, p, s, m, x, brk, cont) && s.For?
    ensures StmtDone(w, m, Exec(p, s, m.frame.box, m.store, fuel), m.pc + |StmtCode(p.prims, s, x.brk)|, brk, cont,
      fuel, n)
    decreases fuel, 1, s, 4
  {
    var pr, code := p.prims, CodeOf(w, m.obj);
    var i := OptCode(pr, s.init);
    var loop := ForCode(OptCode(pr, s.cond), OptCode(pr, s.step), StmtCode(pr, s.body, true), s.cond.Some?);
    SplitPlaced(code, m.pc, i, loop, brk, cont);
    OptSettled(pr, s.init);
    PlacedSettled(code, m.pc, i, brk, cont);
    hide CodeAt, Linked, Placed, ForCode;
    n := OptSim(w, p, s.init, m, brk, cont, fuel);
    var r := EvalOpt(p, s.init, m.frame.box, m.store, fuel);
    if r.Normal? {
      var m1 := Later(w, m, n);
      var k := ForBody(w, p, s, m1, brk, cont, fuel);
      Shift(w, m, n, m1, ForLoop(p, s, m.frame.box, r.st, fuel), m.pc + |i| + |loop|, Keep, Keep, fuel, k, fuel);
      n := n + k;
    }
  }

  /** What the parts of a for statement must satisfy. */
  ghost predicate ForClean(pr: Prims, s: Stmt)
    requires s.For?
  {
    && (s.cond.Some? ==> !ExprErr(pr, s.cond.value))
    && !OptErr(pr, s.step)
    && !StmtErr(pr, s.body, Ctx(true, true), false)
  }

  /** A for statement behind its initialiser. */
  lemma {:induction false} ForBody(w: World, p: Prog, s: Stmt, m: Mach, brk: Target, cont: Target, fuel: nat)
      returns (n: nat)
    requires Linked(w, p) && s.For? && m.frame.Frame? && ForClean(p.prims, s)
    requires s.cond.Some? ==> !BoolErr(p.prims, s.cond.value)
    requires Placed(CodeOf(w, m.obj), m.pc,
      ForCode(OptCode(p.prims, s.cond), OptCode(p.prims, s.step), StmtCode(p.prims, s.body, true), s.cond.Some?), brk,
          cont)
    ensures
      var loop := ForCode(OptCode(p.prims, s.cond), OptCode(p.prims, s.step), StmtCode(p.prims, s.body, true),
        s.cond.Some?);
      StmtDone(w, m, ForLoop(p, s, m.frame.box, m.store, fuel), m.pc + |loop|, Keep, Keep, fuel, n)
    decreases fuel, 1, s, 3
  {
    var pr, code := p.prims, CodeOf(w, m.obj);
    var c, k, b := OptCode(pr, s.cond), OptCode(pr, s.step), StmtCode(pr, s.body, true);
    OptSettled(pr, s.cond);
    OptSettled(pr, s.step);
    hide Settled;
    if s.cond.None? {
      PlacedEndless(code, m.pc, k, b, brk, cont);
      hide CodeAt, Linked, Placed, EndlessAt;
      n := ForEver(w, p, s, m, fuel);
    } else if !IsConst(c) {
      n := ForEnter(w, p, s, m, brk, cont, fuel);
    } else {
      n := ForConst(w, p, s, m, brk, cont, fuel);
    }
  }

  /** The leading branch of a for statement with a test. */
  lemma {:induction false} ForEnter(w: World, p: Prog, s: Stmt, m: Mach, brk: Target, cont: Target, fuel: nat)
      returns (n: nat)
    requires Linked(w, p) && s.For? && m.frame.Frame? && ForClean(p.prims, s)
    requires s.cond.Some? && !IsConst(ExprCode(p.prims, s.cond.value))
    requires Placed(CodeOf(w, m.obj), m.pc,
      ForCode(ExprCode(p.prims, s.cond.value), OptCode(p.prims, s.step), StmtCode(p.prims, s.body, true), true), brk,
          cont)
    ensures
      var loop := ForCode(ExprCode(p.prims, s.cond.value), OptCode(p.prims, s.step), StmtCode(p.prims, s.body, true),
        true);
      StmtDone(w, m, ForLoop(p, s, m.frame.box, m.store, fuel), m.pc + |loop|, Keep, Keep, fuel, n)
    decreases fuel, 1, s, 2
  {
    hide Steps;
    var pr, code := p.prims, CodeOf(w, m.obj);
    var c, k, b := ExprCode(pr, s.cond.value), OptCode(pr, s.step), StmtCode(pr, s.body, true);
    ExprSettled(pr, s.cond.value);
    OptSettled(pr, s.step);
    PlacedEntryLoop(code, m.pc, c, k, b, brk, cont);
    hide CodeAt, Linked, Placed, LoopAt;
    var t := m.pc + |b| + |k| + 1;
    n := ForTest(w, p, s, m.(pc := t), fuel);
    n := EnterRun(w, m, t, ForLoop(p, s, m.frame.box, m.store, fuel), t + |c| + 1, fuel, n);
  }

  lemma {:induction false} ForConst(w: World, p: Prog, s: Stmt, m: Mach, brk: Target, cont: Target, fuel: nat)
      returns (n: nat)
    requires Linked(w, p) && s.For? && m.frame.Frame? && ForClean(p.prims, s)
    requires s.cond.Some? && IsConst(ExprCode(p.prims, s.cond.value)) && !BoolErr(p.prims, s.cond.value)
    requires Placed(CodeOf(w, m.obj), m.pc,
      ForCode(ExprCode(p.prims, s.cond.value), OptCode(p.prims, s.step), StmtCode(p.prims, s.body, true), true), brk,
          cont)
    ensures
      var loop := ForCode(ExprCode(p.prims, s.cond.value), OptCode(p.prims, s.step), StmtCode(p.prims, s.body, true),
        true);
      StmtDone(w, m, ForLoop(p, s, m.frame.box, m.store, fuel), m.pc + |loop|, Keep, Keep, fuel, n)
    decreases fuel, 1, s, 2
  {
    var pr, code := p.prims, CodeOf(w, m.obj);
    var c, k, b := ExprCode(pr, s.cond.value), OptCode(pr, s.step), StmtCode(pr, s.body, true);
    n := 0;
    ConstMeaning(p, s.cond.value, m.frame.box, m.store, fuel);
    if IsTrue(c) {
      hide Steps;
      OptSettled(pr, s.step);
      PlacedEntryEndless(code, m.pc, k, b, brk, cont);
      hide CodeAt, Linked, Placed, EndlessAt;
      var t := m.pc + |b| + |k| + 1;
      var r := ForLoop(p, s, m.frame.box, m.store, fuel);
      n := ForEver(w, p, s, m.(pc := m.pc + 1), fuel);
      n := EnterRun(w, m.(pc := t), m.pc + 1, r, t + 1, fuel, n);
      n := EnterRun(w, m, t, r, t + 1, fuel, n);
    }
  }

  /** A for statement from its test on. */
  lemma {:induction false} ForTest(w: World, p: Prog, s: Stmt, m: Mach, fuel: nat) returns (n: nat)
    requires Linked(w, p) && s.For? && m.frame.Frame? && ForClean(p.prims, s) && s.cond.Some?
    requires LoopAt(CodeOf(w, m.obj), m.pc, ExprCode(p.prims, s.cond.value), OptCode(p.prims, s.step),
                    StmtCode(p.prims, s.body, true))
    ensures StmtDone(w, m, ForLoop(p, s, m.frame.box, m.store, fuel), m.pc + |ExprCode(p.prims, s.cond.value)| + 1,
                     Keep, Keep, fuel, n)
    decreases fuel, 1, s, 1
  {
    hide CodeOf, EvalBool, EvalOpt, Exec, ExprErr, I, Linked, OptCode, OptErr, Resolve, SetPush, Step, StmtErr;
    n := 0;
    if fuel > 0 {
      hide Steps;
      var c, b, j := ExprCode(p.prims, s.cond.value), StmtCode(p.prims, s.body, true), OptCode(p.prims, s.step);
      var off, end := -(|b| + |j| + |c|), m.pc + |c| + 1;
      var k1 := TestSim(w, p, s.cond.value, false, off, m, fuel);
      var k2, k3 := 0, 0;
      var t := EvalBool(p, s.cond.value, m.frame.box, m.store, fuel);
      var r, nx, again := STimeout, STimeout, STimeout;
      if t.EVal? && t.v.b {
        var m1 := AfterTest(m, t, |c|, false, off);
        k2 := StepSim(w, p, s, m1, m.pc, end, fuel);
        r := Exec(p, s.body, m.frame.box, t.st, fuel);
        if Loops(r) {
          nx := EvalOpt(p, s.step, m.frame.box, r.st, fuel);
          if nx.Normal? {
            k3 := ForTest(w, p, s, Later(w, m1, k2), fuel - 1);
            again := ForLoop(p, s, m.frame.box, nx.st, fuel - 1);
          }
        }
      }
      n := TestedRun(w, m, t, |c|, off, r, nx, again, fuel, k1, k2, k3);
    }
  }

  /** Body and step of a for statement, which goes on at `t` and ends at `end`. */
  lemma {:induction false} StepSim(w: World, p: Prog, s: Stmt, m: Mach, t: int, end: int, fuel: nat) returns (n: nat)
    requires Linked(w, p) && s.For? && m.frame.Frame? && ForClean(p.prims, s)
    requires t == m.pc + |StmtCode(p.prims, s.body, true)| + |OptCode(p.prims, s.step)|
    requires Placed(CodeOf(w, m.obj), m.pc, StmtCode(p.prims, s.body, true), At(end),
      At(t - |OptCode(p.prims, s.step)|))
    requires CodeAt(CodeOf(w, m.obj), t - |OptCode(p.prims, s.step)|, OptCode(p.prims, s.step))
    ensures
      var r := Exec(p, s.body, m.frame.box, m.store, fuel);
      var nx := if Loops(r) then EvalOpt(p, s.step, m.frame.box, r.st, fuel) else STimeout;
      if Loops(r) && nx.Normal? then Same(Steps(w, Running(m), n), m, t, nx.st)
      else StmtDone(w, m, Round(r, nx, STimeout), end, Keep, Keep, fuel, n)
    decreases fuel, 1, s, 0
  {
    var step := t - |OptCode(p.prims, s.step)|;
    var k1 := ExecSim(w, p, s.body, m, Ctx(true, true), At(end), At(step), fuel);
    var k2 := 0;
    var r := Exec(p, s.body, m.frame.box, m.store, fuel);
    var nx := STimeout;
    if Loops(r) {
      k2 := OptSim(w, p, s.step, Later(w, m, k1), Keep, Keep, fuel);
      nx := EvalOpt(p, s.step, m.frame.box, r.st, fuel);
    }
    n := BodyRun(w, m, r, nx, step, t, end, fuel, k1, k2);
  }

  /** A for statement that tests nothing, from its body on. */
  lemma {:induction false} ForEver(w: World, p: Prog, s: Stmt, m: Mach, fuel: nat) returns (n: nat)
    requires Linked(w, p) && s.For? && m.frame.Frame? && ForClean(p.prims, s)
    requires s.cond.Some? ==> IsTrue(ExprCode(p.prims, s.cond.value))
    requires EndlessAt(CodeOf(w, m.obj), m.pc, OptCode(p.prims, s.step), StmtCode(p.prims, s.body, true))
    ensures StmtDone(w, m, ForLoop(p, s, m.frame.box, m.store, fuel),
                     m.pc + |StmtCode(p.prims, s.body, true)| + |OptCode(p.prims, s.step)| + 1, Keep, Keep, fuel, n)
    decreases fuel, 1, s, 1
  {
    n := 0;
    if fuel > 0 {
      hide Steps;
      if s.cond.Some? { ConstMeaning(p, s.cond.value, m.frame.box, m.store, fuel); }
      var b, j := StmtCode(p.prims, s.body, true), OptCode(p.prims, s.step);
      var t := m.pc + |b| + |j|;
      var k1 := StepSim(w, p, s, m, t, t + 1, fuel);
      var k2 := 0;
      var r := Exec(p, s.body, m.frame.box, m.store, fuel);
      var nx, again := STimeout, STimeout;
      if Loops(r) {
        nx := EvalOpt(p, s.step, m.frame.box, r.st, fuel);
        if nx.Normal? {
          k2 := ForEver(w, p, s, Later(w, m, k1).(pc := m.pc), fuel - 1);
          again := ForLoop(p, s, m.frame.box, nx.st, fuel - 1);
        }
      }
      n := EndlessRun(w, m, r, nx, again, t, fuel, k1, k2);
    }
  }

  // ----- switch -----

  /** Where the selected arms stand; `base` is where the arms of `cs` stand. */
  ghost function ArmsAt(pr: Prims, cs: Cases, sel: Sel, base: int): int {
    if sel.Selected? && Suffix(sel.arms, cs) then base + StartOf(pr, sel.arms, cs) else base
  }

  /** The comparisons of a switch select the arms that the reference semantics selects. */
  lemma {:induction false} TestsSim(w: World, p: Prog, cs: Cases, m: Mach, start: nat, x: Ctx, fuel: nat)
      returns (n: nat)
    requires Linked(w, p) && !CasesErr(p.prims, cs, x, false) && m.frame.Frame? && m.stack.Push?
    requires CodeAt(CodeOf(w, m.obj), m.pc, TestsCode(p.prims, cs, start))
    ensures
      var sel, end := Select(p, cs, m.stack.top, m.frame.box, m.store, fuel), m.pc + |TestsCode(p.prims, cs, start)|;
      && (sel.Selected? ==> Suffix(sel.arms, cs))
      && SelDone(w, m, sel, ArmsAt(p.prims, cs, sel, end + 1 + start), end, fuel, n)
    decreases fuel, 1, cs, 2
  {
    var pr := p.prims;
    match cs
    case NoCases => n := 0;
    case Arm(l, b, rest) =>
      var start1 := start + |BlockCode(pr, b, true)|;
      var more := TestsCode(pr, rest, start1);
      if l.None? {
        n := TestsSim(w, p, rest, m, start1, x, fuel);
        var sel := Select(p, rest, m.stack.top, m.frame.box, m.store, fuel);
        if sel.Selected? { SelfNot(sel.arms, cs); }
      } else {
        n := LabelSim(w, p, cs, m, start, x, fuel);
      }
  }

  lemma {:induction false} LabelSim(w: World, p: Prog, cs: Cases, m: Mach, start: nat, x: Ctx, fuel: nat)
      returns (n: nat)
    requires Linked(w, p) && !CasesErr(p.prims, cs, x, false) && m.frame.Frame? && m.stack.Push?
    requires cs.Arm? && cs.labelled.Some?
    requires CodeAt(CodeOf(w, m.obj), m.pc, TestsCode(p.prims, cs, start))
    ensures
      var sel, end := Select(p, cs, m.stack.top, m.frame.box, m.store, fuel), m.pc + |TestsCode(p.prims, cs, start)|;
      && (sel.Selected? ==> Suffix(sel.arms, cs))
      && SelDone(w, m, sel, ArmsAt(p.prims, cs, sel, end + 1 + start), end, fuel, n)
    decreases fuel, 1, cs, 1
  {
    hide Steps;
    var pr, v, e, rest := p.prims, m.stack.top, cs.labelled.value, cs.rest;
    var start1 := start + |BlockCode(pr, cs.body, true)|;
    var more, c := TestsCode(pr, rest, start1), ExprCode(pr, e);
    var off, end := 2 + |more| + start, m.pc + |c| + 1 + |more|;
    assert TestsCode(pr, cs, start) == c + [I(OpCase(off))] + more;
    Split3(CodeOf(w, m.obj), m.pc, c, [I(OpCase(off))], more);
    hide CodeAt, Linked, TestsCode;
    var k1 := EvalSim(w, p, e, m, fuel, false);
    var k2 := 0;
    var r := Eval(p, e, m.frame.box, m.store, fuel);
    var s, to := SelTimeout, end + 1 + start;
    if r.EVal? {
      var t := p.prims.equal(v, r.v);
      if t.Val? && t.v != TrueVal {
        k2 := TestsSim(w, p, rest, Mismatch(m, r, |c|, t.v), start1, x, fuel);
        s := Select(p, rest, v, m.frame.box, r.st, fuel);
        to := ArmsAt(pr, rest, s, end + 1 + start1);
        if s.Selected? { SelfNot(s.arms, cs); }
      }
    }
    n := CaseRun(w, m, r, |c|, off, cs, s, to, end, fuel, k1, k2);
  }

  lemma {:induction false} ArmsSim(w: World, p: Prog, cs: Cases, m: Mach, x: Ctx, brk: Target, cont: Target, fuel: nat)
    returns (n: nat)
    requires Linked(w, p) && !CasesErr(p.prims, cs, x, false) && m.frame.Frame?
    requires x.brk && brk.At? && (x.cont ==> cont.At?)
    requires Placed(CodeOf(w, m.obj), m.pc, ArmsCode(p.prims, cs), brk, cont)
    ensures StmtDone(w, m, ExecArms(p, cs, m.frame.box, m.store, fuel), m.pc + |ArmsCode(p.prims, cs)|, brk, cont,
      fuel, n)
    decreases fuel, 1, cs, 2
  {
    match cs
    case NoCases => n := 0;
    case Arm(_, ss, rest) =>
      var a, b := BlockCode(p.prims, ss, true), ArmsCode(p.prims, rest);
      SplitPlaced(CodeOf(w, m.obj), m.pc, a, b, brk, cont);
      hide CodeAt, Linked, Placed;
      n := BlockSim(w, p, ss, m, x, brk, cont, fuel);
      var r := ExecBlock(p, ss, m.frame.box, m.store, fuel);
      if r.Normal? {
        var m1 := Later(w, m, n);
        var k := ArmsSim(w, p, rest, m1, x, brk, cont, fuel);
        Shift(w, m, n, m1, ExecArms(p, rest, m.frame.box, r.st, fuel), m.pc + |a| + |b|, brk, cont, fuel, k, fuel);
        n := n + k;
      }
  }

  /** The arms of a switch that stand at `base`, entered at the arms `arms`. */
  lemma {:induction false} SuffixSim(w: World, p: Prog, cs: Cases, arms: Cases, base: int, m: Mach,
                                     x: Ctx, brk: Target, cont: Target, fuel: nat) returns (n: nat)
    requires Linked(w, p) && !CasesErr(p.prims, cs, x, false) && m.frame.Frame?
    requires x.brk && brk.At? && (x.cont ==> cont.At?)
    requires Suffix(arms, cs) && (arms == cs || arms < cs) && m.pc == base + StartOf(p.prims, arms, cs)
    requires Placed(CodeOf(w, m.obj), base, ArmsCode(p.prims, cs), brk, cont)
    ensures StmtDone(w, m, ExecArms(p, arms, m.frame.box, m.store, fuel), base + |ArmsCode(p.prims, cs)|, brk, cont,
      fuel, n)
    decreases fuel, 1, cs, 3
  {
    SuffixCode(p.prims, arms, cs, x);
    PlacedRest(CodeOf(w, m.obj), base, ArmsCode(p.prims, cs), StartOf(p.prims, arms, cs), ArmsCode(p.prims, arms),
        brk, cont);
    hide CodeAt, Linked, Placed;
    n := ArmsSim(w, p, arms, m, x, brk, cont, fuel);
  }

  lemma {:induction false} SwitchSim(w: World, p: Prog, s: Stmt, m: Mach, x: Ctx, brk: Target, cont: Target, fuel: nat)
    returns (n: nat)
    requires Linked(w, p) && StmtHere(w, p, s, m, x, brk, cont) && s.Switch?
    ensures StmtDone(w, m, Exec(p, s, m.frame.box, m.store, fuel), m.pc + |StmtCode(p.prims, s, x.brk)|, brk, cont,
      fuel, n)
    decreases fuel, 1, s, 4
  {
    var pr, code := p.prims, CodeOf(w, m.obj);
    var c, tests, bodies := ExprCode(pr, s.subject), TestsCode(pr, s.cases, 0), ArmsCode(pr, s.cases);
    ExprSettled(pr, s.subject);
    TestsSettled(pr, s.cases, 0);
    PlacedSwitch(code, m.pc, c, tests, 1 + DefaultStart(pr, s.cases), bodies, brk, cont);
    hide CodeAt, Linked, Placed, SwitchAt;
    n := SwitchSim2(w, p, s, m, x, brk, cont, fuel);
  }

  lemma {:induction false} SwitchSim2(w: World, p: Prog, s: Stmt, m: Mach, x: Ctx, brk: Target, cont: Target, fuel: nat)
    returns (n: nat)
    requires Linked(w, p) && s.Switch? && m.frame.Frame? && (x.cont ==> cont.At?)
    requires !ExprErr(p.prims, s.subject) && !CasesErr(p.prims, s.cases, x.(brk := true), false)
    requires SwitchAt(CodeOf(w, m.obj), m.pc, ExprCode(p.prims, s.subject), TestsCode(p.prims, s.cases, 0),
                      1 + DefaultStart(p.prims, s.cases), ArmsCode(p.prims, s.cases), cont)
    ensures
      var end := m.pc + |ExprCode(p.prims, s.subject)| + |TestsCode(p.prims, s.cases, 0)| + 1 +
        |ArmsCode(p.prims, s.cases)|;
      StmtDone(w, m, Exec(p, s, m.frame.box, m.store, fuel), end, brk, cont, fuel, n)
    decreases fuel, 1, s, 3
  {
    hide Steps;
    var pr, cs := p.prims, s.cases;
    var c, tests, bodies := ExprCode(pr, s.subject), TestsCode(pr, cs, 0), ArmsCode(pr, cs);
    var base := m.pc + |c| + |tests| + 1;
    hide CodeAt, Linked, Placed;
    n := EvalSim(w, p, s.subject, m, fuel, true);
    var e := Eval(p, s.subject, m.frame.box, m.store, fuel);
    if e.EVal? {
      var m1 := After(m, |c|, e.v, true, e.st);
      var k2 := TestsSim(w, p, cs, m1, 0, x.(brk := true), fuel);
      var sel := Select(p, cs, e.v, m.frame.box, e.st, fuel);
      var arms := if sel.Selected? then sel.arms else DefaultArm(cs);
      DefaultSuffix(pr, cs);
      var to := base + StartOf(pr, arms, cs);
      n := SelectRun(w, m, e, |c|, sel, to, base - 1, 1 + DefaultStart(pr, cs), fuel, n, k2);
      if sel.Selected? || sel.Unmatched? {
        var m2, end := AtArms(w, m, e, |c|, sel, to, k2), base + |bodies|;
        var k3 := SuffixSim(w, p, cs, arms, base, m2, x.(brk := true), At(end), cont, fuel);
        SwitchRun(w, m, n, m2, ExecArms(p, arms, m.frame.box, sel.st, fuel), end, brk, cont, fuel, k3);
        n := n + k3;
      }
    }
  }
}
