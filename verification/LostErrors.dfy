/**
 * A function that compiled with an error is not meant to run; its object is marked.  The mark is
 * lost for one kind of error, and such a function runs without doing what it says.
 */
module LostErrors {
  import opened Values
  import opened Machine
  import opened Syntax
  import opened Codegen
  import opened Correctness

  /** A while statement that is compiled, whose test folds to a constant and has an error. */
  predicate BadWhile(pr: Prims, t: Expr) {
    IsConst(ExprCode(pr, t)) && BoolErr(pr, t)
  }

  /** Such a while statement occurs in `s`, outside of arms that are not compiled. */
  predicate HasBadWhile(pr: Prims, s: Stmt)
    decreases s, 0
  {
    match s
    case If(t, a) => Kept(pr, t, true) && HasBadWhile(pr, a)
    case IfElse(t, a, b) => (Kept(pr, t, true) && HasBadWhile(pr, a)) || (Kept(pr, t, false) && HasBadWhile(pr, b))
    case While(t, b) => BadWhile(pr, t) || (Kept(pr, t, true) && HasBadWhile(pr, b))
    case DoWhile(b, _) => HasBadWhile(pr, b)
    case For(_, _, _, b) => HasBadWhile(pr, b)
    case Switch(_, cs) => CasesHave(pr, cs)
    case Block(ss) => BlockHas(pr, ss)
    case _ => false
  }

  predicate BlockHas(pr: Prims, ss: Stmts)
    decreases ss, 0
  {
    match ss
    case Nil => false
    case Cons(s, tl) => HasBadWhile(pr, s) || BlockHas(pr, tl)
  }

  predicate CasesHave(pr: Prims, cs: Cases)
    decreases cs, 0
  {
    match cs
    case NoCases => false
    case Arm(_, b, rest) => BlockHas(pr, b) || CasesHave(pr, rest)
  }

  /** An unmarked object compiled without any error exactly if it holds no such while statement. */
  lemma {:induction false} MarkMissesOnly(pr: Prims, s: Stmt, x: Ctx)
    ensures StmtErr(pr, s, x, false) <==> StmtErr(pr, s, x, true) || HasBadWhile(pr, s)
    decreases s
  {
    hide ExprCode, ExprErr;
    match s
    case If(_, a) => MarkMissesOnly(pr, a, x);
    case IfElse(_, a, b) => MarkMissesOnly(pr, a, x); MarkMissesOnly(pr, b, x);
    case While(t, b) => MarkMissesOnly(pr, b, Ctx(true, true));
    case DoWhile(b, _) => MarkMissesOnly(pr, b, Ctx(true, true));
    case For(_, _, _, b) => MarkMissesOnly(pr, b, Ctx(true, true));
    case Switch(_, cs) => CasesMiss(pr, cs, x.(brk := true));
    case Block(ss) => BlockMisses(pr, ss, x);
    case _ =>
  }

  lemma {:induction false} BlockMisses(pr: Prims, ss: Stmts, x: Ctx)
    ensures BlockErr(pr, ss, x, false) <==> BlockErr(pr, ss, x, true) || BlockHas(pr, ss)
    decreases ss
  {
    match ss
    case Nil =>
    case Cons(s, tl) => MarkMissesOnly(pr, s, x); BlockMisses(pr, tl, x);
  }

  lemma {:induction false} CasesMiss(pr: Prims, cs: Cases, x: Ctx)
    ensures CasesErr(pr, cs, x, false) <==> CasesErr(pr, cs, x, true) || CasesHave(pr, cs)
    decreases cs
  {
    match cs
    case NoCases =>
    case Arm(_, b, rest) => BlockMisses(pr, b, x); CasesMiss(pr, rest, x);
  }

  /** A function that only loops while 5. */
  function WhileFive(pr: Prims): Prog {
    Prog(pr, [Fun(0, 0, While(Const(Int(5)), Semi))])
  }

  /** The error in `while (5);` is printed but not marked, and the function returns instead of raising the exception. */
  lemma MarkLost(pr: Prims, st: Store)
    ensures
      var p := WhileFive(pr);
      && !StmtErr(pr, p.funs[0].body, Toplevel, true)
      && StmtErr(pr, p.funs[0].body, Toplevel, false)
      && Meaning(p, 0, st, 2) == ERaise(InvalidArgument(Int(5)), Alloc(st, NewBox([], 0)))
      && (exists n :: Run(p, 0, st, n) == Finished(Void, Alloc(st, NewBox([], 0))))
  {
    MarkMissing(pr);
    MeantToRaise(pr, st);
    ReturnsInstead(pr, st);
  }

  lemma MarkMissing(pr: Prims)
    ensures
      var s := WhileFive(pr).funs[0].body;
      !StmtErr(pr, s, Toplevel, true) && StmtErr(pr, s, Toplevel, false) && StmtCode(pr, s, false) == []
  {
    assert ExprCode(pr, Const(Int(5))) == [I(OpConst(Int(5)))];
  }

  lemma MeantToRaise(pr: Prims, st: Store)
    ensures Meaning(WhileFive(pr), 0, st, 2) == ERaise(InvalidArgument(Int(5)), Alloc(st, NewBox([], 0)))
  {
  }

  /** The function consists of its return. */
  lemma ReturnsInstead(pr: Prims, st: Store)
    ensures exists n :: Run(WhileFive(pr), 0, st, n) == Finished(Void, Alloc(st, NewBox([], 0)))
  {
    MarkMissing(pr);
    var p := WhileFive(pr);
    hide StmtErr, ExprCode, StmtCode, ExprErr, Exec, Eval;
    assert CodeOf(WorldOf(p, 0), 0) == [I(Op.OpReturnVoid)];
    var w, st1 := WorldOf(p, 0), Alloc(st, NewBox([], 0));
    var m := StartMach(p, st);
    assert CodeOf(w, m.obj) == StartCode(0);
    var c1 := Running(m.(pc := 1, value := Func(0)));
    var c2 := Running(Mach(0, 0, Func(0), Empty, Machine.Frame(|st.boxes|, 2, 1, NoFrame), st1));
    var c3 := Running(m.(pc := 2, store := st1));
    var c4 := Running(m.(pc := 3, store := st1));
    assert Args(Empty, Func(0), 0) == [];
    assert Step(w, Running(m)) == c1 && Step(w, c1) == c2 && Step(w, c2) == c3 && Step(w, c3) == c4;
    assert Step(w, c4) == Finished(Void, st1);
    assert Steps(w, c4, 1) == Finished(Void, st1);
    assert Steps(w, c3, 2) == Finished(Void, st1);
    assert Steps(w, c2, 3) == Finished(Void, st1);
    assert Steps(w, c1, 4) == Finished(Void, st1);
    assert Run(p, 0, st, 5) == Finished(Void, st1);
  }
}
