/** Which errors the compiler reports, told by what the program means and where its parts stand. */
module Faults {
  import opened Options
  import opened Values
  import Machine
  import opened Syntax
  import opened Codegen
  import opened Placement

  // ----- constants -----

  /** The expression has this value and does nothing else, whatever the functions and the store are. */
  ghost predicate Constant(pr: Prims, e: Expr, v: Value) {
    forall p: Prog, box: nat, st: Store, fuel: nat :: p.prims == pr ==> Eval(p, e, box, st, fuel) == EVal(v, st)
  }

  const NoStore: Store := Store([], [])

  /** Without functions and storage, and without fuel, only constants have a value. */
  lemma {:induction false} NothingElse(pr: Prims, e: Expr)
    requires !ExprErr(pr, e) && Eval(Prog(pr, []), e, 0, NoStore, 0).EVal?
    ensures IsConst(ExprCode(pr, e))
  {
    var p := Prog(pr, []);
    match e
    case Unary(_, a) =>
      NothingElse(pr, a);
    case Binary(_, l, r) =>
      NothingElse(pr, l);
      ConstMeaning(p, l, 0, NoStore, 0);
      NothingElse(pr, r);
    case Quest(t, y, n) =>
      NothingElse(pr, t);
      ConstMeaning(p, t, 0, NoStore, 0);
      NothingElse(pr, if IsTrue(ExprCode(pr, t)) then y else n);
    case And(l, r) =>
      NothingElse(pr, l);
      ConstMeaning(p, l, 0, NoStore, 0);
      if IsTrue(ExprCode(pr, l)) { NothingElse(pr, r); }
    case Or(l, r) =>
      NothingElse(pr, l);
      ConstMeaning(p, l, 0, NoStore, 0);
      if !IsTrue(ExprCode(pr, l)) { NothingElse(pr, r); }
    case Assign(_, r) =>
      NothingElse(pr, r);
      ConstMeaning(p, r, 0, NoStore, 0);
    case Comma(l, r) =>
      NothingElse(pr, l);
      ConstMeaning(p, l, 0, NoStore, 0);
      NothingElse(pr, r);
    case _ =>
  }

  /** Where no error is reported, exactly the constants are folded, to their values. */
  lemma FoldedExactly(pr: Prims, e: Expr, v: Value)
    requires !ExprErr(pr, e)
    ensures IsConst(ExprCode(pr, e)) && ExprCode(pr, e)[0].op.constant == v <==> Constant(pr, e, v)
  {
    if IsConst(ExprCode(pr, e)) {
      var c := ExprCode(pr, e)[0].op.constant;
      forall p: Prog, box: nat, st: Store, fuel: nat | p.prims == pr
        ensures Eval(p, e, box, st, fuel) == EVal(c, st)
      {
        ConstMeaning(p, e, box, st, fuel);
      }
      ConstantOnce(pr, e, c, v);
    }
    if Constant(pr, e, v) {
      assert Eval(Prog(pr, []), e, 0, NoStore, 0) == EVal(v, NoStore);
      NothingElse(pr, e);
    }
  }

  lemma ConstantOnce(pr: Prims, e: Expr, v: Value, w: Value)
    requires Constant(pr, e, v)
    ensures Constant(pr, e, w) <==> v == w
  {
    assert Eval(Prog(pr, []), e, 0, NoStore, 0) == EVal(v, NoStore);
    if Constant(pr, e, w) {
      assert Eval(Prog(pr, []), e, 0, NoStore, 0) == EVal(w, NoStore);
    }
  }

  // ----- expressions -----

  /** An expression and those in it. */
  function Within(e: Expr): set<Expr> {
    {e} + match e
          case Unary(_, a) => Within(a)
          case Binary(_, l, r) => Within(l) + Within(r)
          case Quest(t, y, n) => Within(t) + Within(y) + Within(n)
          case And(l, r) => Within(l) + Within(r)
          case Or(l, r) => Within(l) + Within(r)
          case Assign(_, r) => Within(r)
          case AssignOp(_, _, r) => Within(r)
          case AssignAnd(_, r) => Within(r)
          case AssignOr(_, r) => Within(r)
          case Comma(l, r) => Within(l) + Within(r)
          case Call(f, args, _) => Within(f) + WithinArgs(args)
          case _ => {}
  }

  function WithinArgs(args: Exprs): set<Expr> {
    match args
    case NoArgs => {}
    case Arg(e, tl) => Within(e) + WithinArgs(tl)
  }

  /** What the expression itself uses as a condition. */
  function Conditions(e: Expr): set<Expr> {
    match e
    case Quest(t, _, _) => {t}
    case And(l, r) => {l, r}
    case Or(l, r) => {l, r}
    case AssignAnd(_, r) => {r}
    case AssignOr(_, r) => {r}
    case _ => {}
  }

  /** The condition is a constant that is no boolean. */
  ghost predicate NoBoolean(pr: Prims, t: Expr) {
    exists v :: Constant(pr, t, v) && !v.Bool?
  }

  /** The operator raises an exception on constant operands. */
  ghost predicate RaisesOnConstants(pr: Prims, e: Expr) {
    || (e.Unary? && exists v :: Constant(pr, e.arg, v) && pr.unary(e.uop, v).Raise?)
    || (e.Binary? && exists v, w :: Constant(pr, e.left, v) && Constant(pr, e.right, w) &&
                                    pr.binary(e.bop, v, w).Raise?)
  }

  ghost predicate Faulty(pr: Prims, e: Expr) {
    RaisesOnConstants(pr, e) || exists t :: t in Conditions(e) && NoBoolean(pr, t)
  }

  ghost predicate HasFault(pr: Prims, e: Expr) {
    exists x :: x in Within(e) && Faulty(pr, x)
  }

  ghost predicate ArgsHaveFault(pr: Prims, args: Exprs) {
    exists x :: x in WithinArgs(args) && Faulty(pr, x)
  }

  lemma NoBooleanExactly(pr: Prims, t: Expr)
    requires !ExprErr(pr, t)
    ensures NoBoolean(pr, t) <==> BadBool(ExprCode(pr, t))
  {
    if BadBool(ExprCode(pr, t)) { FoldedExactly(pr, t, ExprCode(pr, t)[0].op.constant); }
    if NoBoolean(pr, t) {
      var v :| Constant(pr, t, v) && !v.Bool?;
      FoldedExactly(pr, t, v);
    }
  }

  lemma UnaryExactly(pr: Prims, e: Expr)
    requires e.Unary? && !ExprErr(pr, e.arg)
    ensures RaisesOnConstants(pr, e) <==> ExprErr(pr, e)
  {
    var c := ExprCode(pr, e.arg);
    if IsConst(c) { FoldedExactly(pr, e.arg, c[0].op.constant); }
    if RaisesOnConstants(pr, e) {
      var v :| Constant(pr, e.arg, v) && pr.unary(e.uop, v).Raise?;
      FoldedExactly(pr, e.arg, v);
    }
  }

  lemma BinaryExactly(pr: Prims, e: Expr)
    requires e.Binary? && !ExprErr(pr, e.left) && !ExprErr(pr, e.right)
    ensures RaisesOnConstants(pr, e) <==> ExprErr(pr, e)
  {
    var a, b := ExprCode(pr, e.left), ExprCode(pr, e.right);
    if IsConst(a) { FoldedExactly(pr, e.left, a[0].op.constant); }
    if IsConst(b) { FoldedExactly(pr, e.right, b[0].op.constant); }
    if RaisesOnConstants(pr, e) {
      var v, w :| Constant(pr, e.left, v) && Constant(pr, e.right, w) && pr.binary(e.bop, v, w).Raise?;
      FoldedExactly(pr, e.left, v);
      FoldedExactly(pr, e.right, w);
    }
  }

  /** The operands of an expression that are expressions. */
  function Operands(e: Expr): set<Expr> {
    match e
    case Unary(_, a) => {a}
    case Binary(_, l, r) => {l, r}
    case Quest(t, y, n) => {t, y, n}
    case And(l, r) => {l, r}
    case Or(l, r) => {l, r}
    case Assign(_, r) => {r}
    case AssignOp(_, _, r) => {r}
    case AssignAnd(_, r) => {r}
    case AssignOr(_, r) => {r}
    case Comma(l, r) => {l, r}
    case Call(f, _, _) => {f}
    case _ => {}
  }

  lemma WithinOperands(e: Expr, x: Expr)
    ensures x in Within(e) <==>
      x == e || (exists o :: o in Operands(e) && x in Within(o)) || (e.Call? && x in WithinArgs(e.args))
  {
    match e
    case Unary(_, a) => assert a in Operands(e);
    case Binary(_, l, r) => assert l in Operands(e) && r in Operands(e);
    case Quest(t, y, n) => assert t in Operands(e) && y in Operands(e) && n in Operands(e);
    case And(l, r) => assert l in Operands(e) && r in Operands(e);
    case Or(l, r) => assert l in Operands(e) && r in Operands(e);
    case Assign(_, r) => assert r in Operands(e);
    case AssignOp(_, _, r) => assert r in Operands(e);
    case AssignAnd(_, r) => assert r in Operands(e);
    case AssignOr(_, r) => assert r in Operands(e);
    case Comma(l, r) => assert l in Operands(e) && r in Operands(e);
    case Call(f, _, _) => assert f in Operands(e);
    case _ =>
  }

  lemma FaultBelow(pr: Prims, e: Expr)
    ensures HasFault(pr, e) <==>
      Faulty(pr, e) || (exists o :: o in Operands(e) && HasFault(pr, o)) || (e.Call? && ArgsHaveFault(pr, e.args))
  {
    hide Faulty, Within, WithinArgs, Operands;
    forall x
      ensures x in Within(e) <==>
        x == e || (exists o :: o in Operands(e) && x in Within(o)) || (e.Call? && x in WithinArgs(e.args))
    {
      WithinOperands(e, x);
    }
    if HasFault(pr, e) {
      var x :| x in Within(e) && Faulty(pr, x);
      if x != e && !(e.Call? && x in WithinArgs(e.args)) {
        var o :| o in Operands(e) && x in Within(o);
        assert HasFault(pr, o);
      }
    }
    if Faulty(pr, e) { assert e in Within(e); }
  }

  /** Where no operand has an error, those of the expression itself are exactly its faults. */
  lemma OwnFault(pr: Prims, e: Expr)
    requires (forall o :: o in Operands(e) ==> !ExprErr(pr, o)) && (e.Call? ==> !ArgsErr(pr, e.args))
    ensures Faulty(pr, e) <==> ExprErr(pr, e)
  {
    hide Constant, ExprCode, BadBool;
    match e
    case Unary(_, _) => UnaryExactly(pr, e);
    case Binary(_, _, _) => BinaryExactly(pr, e);
    case Quest(t, _, _) => NoBooleanExactly(pr, t);
    case And(l, r) => NoBooleanExactly(pr, l); NoBooleanExactly(pr, r);
    case Or(l, r) => NoBooleanExactly(pr, l); NoBooleanExactly(pr, r);
    case AssignAnd(_, r) => NoBooleanExactly(pr, r);
    case AssignOr(_, r) => NoBooleanExactly(pr, r);
    case _ =>
  }

  lemma OperandErr(pr: Prims, e: Expr, o: Expr)
    requires o in Operands(e) && ExprErr(pr, o)
    ensures ExprErr(pr, e)
  {
    hide ExprCode, BadBool;
  }

  /** An error is reported for an expression exactly if an expression in it has a fault. */
  lemma {:induction false} ExpressionErrors(pr: Prims, e: Expr)
    ensures ExprErr(pr, e) <==> HasFault(pr, e)
    decreases e, 0
  {
    forall o | o in Operands(e) ensures ExprErr(pr, o) <==> HasFault(pr, o) { ExpressionErrors(pr, o); }
    if e.Call? { ArgumentErrors(pr, e.args); }
    FaultBelow(pr, e);
    if exists o :: o in Operands(e) && ExprErr(pr, o) {
      var o :| o in Operands(e) && ExprErr(pr, o);
      OperandErr(pr, e, o);
    } else if !(e.Call? && ArgsErr(pr, e.args)) {
      OwnFault(pr, e);
    }
  }

  lemma {:induction false} ArgumentErrors(pr: Prims, args: Exprs)
    ensures ArgsErr(pr, args) <==> ArgsHaveFault(pr, args)
    decreases args, 1
  {
    match args
    case NoArgs =>
    case Arg(e, tl) =>
      ExpressionErrors(pr, e);
      ArgumentErrors(pr, tl);
      hide ExprErr, ArgsErr, Faulty, Within;
      assert forall x :: x in WithinArgs(args) <==> x in Within(e) || x in WithinArgs(tl);
  }

  /** Folding two constants is reported exactly if the operator raises an exception on them. */
  lemma FoldingReported(pr: Prims, op: nat, v: Value, w: Value)
    ensures ExprErr(pr, Binary(op, Const(v), Const(w))) <==> pr.binary(op, v, w).Raise?
    ensures ExprErr(pr, Unary(op, Const(v))) <==> pr.unary(op, v).Raise?
  {
    assert ExprCode(pr, Const(v)) == [I(Machine.OpConst(v))] && ExprCode(pr, Const(w)) == [I(Machine.OpConst(w))];
  }

  // ----- statements -----

  /** What is compiled of a statement: expressions, conditions, and jumps with or without something to leave. */
  datatype Part = Computes(e: Expr) | Tests(t: Expr) | Jumps(enclosed: bool)

  /** The condition is no constant other than `b`. */
  ghost predicate MayBe(pr: Prims, t: Expr, b: bool) {
    forall v :: Constant(pr, t, v) ==> v == Bool(b)
  }

  /**
   * The parts that are compiled.  `brk` and `cont` tell whether a loop or switch, or a loop, encloses the statement.
   * What a constant condition rules out is left out, except for the body of a do or for loop.
   */
  ghost function Parts(pr: Prims, s: Stmt, brk: bool, cont: bool): set<Part>
    decreases s, 0
  {
    match s
    case If(t, a) => {Tests(t)} + (if MayBe(pr, t, true) then Parts(pr, a, brk, cont) else {})
    case IfElse(t, a, b) =>
      {Tests(t)} + (if MayBe(pr, t, true) then Parts(pr, a, brk, cont) else {}) +
      (if MayBe(pr, t, false) then Parts(pr, b, brk, cont) else {})
    case While(t, b) => {Tests(t)} + (if MayBe(pr, t, true) then Parts(pr, b, true, true) else {})
    case DoWhile(b, t) => Parts(pr, b, true, true) + {Tests(t)}
    case For(i, c, n, b) =>
      Optional(i) + (if c.Some? then {Tests(c.value)} else {}) + Optional(n) + Parts(pr, b, true, true)
    case Switch(e, cs) => {Computes(e)} + ArmParts(pr, cs, true, cont)
    case Break => {Jumps(brk)}
    case Continue => {Jumps(cont)}
    case Return(e) => {Computes(e)}
    case ReturnVoid => {}
    case ExprStat(e) => {Computes(e)}
    case Semi => {}
    case Block(ss) => BlockParts(pr, ss, brk, cont)
  }

  function Optional(e: Option<Expr>): set<Part> { if e.Some? then {Computes(e.value)} else {} }

  ghost function BlockParts(pr: Prims, ss: Stmts, brk: bool, cont: bool): set<Part>
    decreases ss, 0
  {
    match ss
    case Nil => {}
    case Cons(s, tl) => Parts(pr, s, brk, cont) + BlockParts(pr, tl, brk, cont)
  }

  ghost function ArmParts(pr: Prims, cs: Cases, brk: bool, cont: bool): set<Part>
    decreases cs, 0
  {
    match cs
    case NoCases => {}
    case Arm(l, b, rest) => Optional(l) + BlockParts(pr, b, brk, cont) + ArmParts(pr, rest, brk, cont)
  }

  ghost predicate Wrong(pr: Prims, part: Part) {
    match part
    case Computes(e) => HasFault(pr, e)
    case Tests(t) => HasFault(pr, t) || NoBoolean(pr, t)
    case Jumps(enclosed) => !enclosed
  }

  ghost predicate AnyWrong(pr: Prims, parts: set<Part>) {
    exists part :: part in parts && Wrong(pr, part)
  }

  lemma WrongUnion(pr: Prims, a: set<Part>, b: set<Part>)
    ensures AnyWrong(pr, a + b) <==> AnyWrong(pr, a) || AnyWrong(pr, b)
  {
    if AnyWrong(pr, a) {
      var part :| part in a && Wrong(pr, part);
      assert part in a + b;
    }
    if AnyWrong(pr, b) {
      var part :| part in b && Wrong(pr, part);
      assert part in a + b;
    }
  }

  lemma WrongOne(pr: Prims, part: Part)
    ensures AnyWrong(pr, {part}) <==> Wrong(pr, part)
    ensures !AnyWrong(pr, {})
  {
    if Wrong(pr, part) { assert part in {part}; }
  }

  lemma TestErrors(pr: Prims, t: Expr)
    ensures BoolErr(pr, t) <==> Wrong(pr, Tests(t))
    ensures !BoolErr(pr, t) ==> forall b :: Kept(pr, t, b) <==> MayBe(pr, t, b)
  {
    ExpressionErrors(pr, t);
    if !ExprErr(pr, t) {
      NoBooleanExactly(pr, t);
      if !BoolErr(pr, t) { forall b ensures Kept(pr, t, b) <==> MayBe(pr, t, b) { KeptExactly(pr, t, b); } }
    }
  }

  lemma KeptExactly(pr: Prims, t: Expr, b: bool)
    requires !BoolErr(pr, t)
    ensures Kept(pr, t, b) <==> MayBe(pr, t, b)
  {
    var c := ExprCode(pr, t);
    forall v ensures IsConst(c) && c[0].op.constant == v <==> Constant(pr, t, v) { FoldedExactly(pr, t, v); }
    if IsConst(c) {
      var v := c[0].op.constant;
      assert Constant(pr, t, v) && v.Bool?;
      ConstantOnceForAll(pr, t, v);
    }
  }

  lemma ConstantOnceForAll(pr: Prims, e: Expr, v: Value)
    requires Constant(pr, e, v)
    ensures forall w :: Constant(pr, e, w) ==> w == v
  {
    forall w | Constant(pr, e, w) ensures w == v { ConstantOnce(pr, e, v, w); }
  }

  lemma OptionalErrors(pr: Prims, e: Option<Expr>)
    ensures OptErr(pr, e) <==> AnyWrong(pr, Optional(e))
  {
    WrongOne(pr, Jumps(true));
    if e.Some? {
      ExpressionErrors(pr, e.value);
      WrongOne(pr, Computes(e.value));
    }
  }

  /** An error is printed for a statement exactly if one of its parts is wrong. */
  lemma {:induction false} StatementErrors(pr: Prims, s: Stmt, brk: bool, cont: bool)
    ensures StmtErr(pr, s, Ctx(brk, cont), false) <==> AnyWrong(pr, Parts(pr, s, brk, cont))
    decreases s, 1
  {
    WrongOne(pr, Jumps(true));
    hide AnyWrong, BoolErr, ExprErr, OptErr, Optional, MayBe, Kept;
    match s
    case If(t, a) => GuardedErrors(pr, t, a, true, brk, cont);
    case IfElse(t, a, b) =>
      GuardedErrors(pr, t, a, true, brk, cont);
      GuardedErrors(pr, t, b, false, brk, cont);
      var x := {Tests(t)} + (if MayBe(pr, t, true) then Parts(pr, a, brk, cont) else {});
      WrongUnion(pr, x, if MayBe(pr, t, false) then Parts(pr, b, brk, cont) else {});
      WrongUnion(pr, {Tests(t)}, if MayBe(pr, t, false) then Parts(pr, b, brk, cont) else {});
    case While(t, b) => GuardedErrors(pr, t, b, true, true, true);
    case DoWhile(b, t) =>
      StatementErrors(pr, b, true, true);
      TestErrors(pr, t);
      WrongOne(pr, Tests(t));
      WrongUnion(pr, Parts(pr, b, true, true), {Tests(t)});
    case For(_, _, _, _) => ForErrors(pr, s, brk, cont);
    case Switch(e, cs) =>
      ExpressionErrors(pr, e);
      WrongOne(pr, Computes(e));
      ArmErrors(pr, cs, true, cont);
      WrongUnion(pr, {Computes(e)}, ArmParts(pr, cs, true, cont));
    case Break => WrongOne(pr, Jumps(brk));
    case Continue => WrongOne(pr, Jumps(cont));
    case Return(e) =>
      ExpressionErrors(pr, e);
      WrongOne(pr, Computes(e));
    case ReturnVoid =>
    case ExprStat(e) =>
      ExpressionErrors(pr, e);
      WrongOne(pr, Computes(e));
    case Semi =>
    case Block(ss) => BlockErrors(pr, ss, brk, cont);
  }

  /** A condition, and a statement compiled unless the condition rules it out. */
  lemma {:induction false} GuardedErrors(pr: Prims, t: Expr, a: Stmt, b: bool, brk: bool, cont: bool)
    ensures BoolErr(pr, t) || (Kept(pr, t, b) && StmtErr(pr, a, Ctx(brk, cont), false)) <==>
      AnyWrong(pr, {Tests(t)} + (if MayBe(pr, t, b) then Parts(pr, a, brk, cont) else {}))
    ensures AnyWrong(pr, {Tests(t)}) <==> BoolErr(pr, t)
    decreases a, 2
  {
    TestErrors(pr, t);
    WrongOne(pr, Tests(t));
    StatementErrors(pr, a, brk, cont);
    WrongUnion(pr, {Tests(t)}, if MayBe(pr, t, b) then Parts(pr, a, brk, cont) else {});
    hide AnyWrong, BoolErr, Kept, MayBe, Parts, StmtErr, Wrong;
  }

  lemma {:induction false} ForErrors(pr: Prims, s: Stmt, brk: bool, cont: bool)
    requires s.For?
    ensures StmtErr(pr, s, Ctx(brk, cont), false) <==> AnyWrong(pr, Parts(pr, s, brk, cont))
    decreases s, 0
  {
    OptionalErrors(pr, s.init);
    OptionalErrors(pr, s.step);
    StatementErrors(pr, s.body, true, true);
    WrongOne(pr, Jumps(true));
    if s.cond.Some? {
      TestErrors(pr, s.cond.value);
      WrongOne(pr, Tests(s.cond.value));
    }
    hide AnyWrong, BoolErr, OptErr, Optional, Wrong;
    var c := if s.cond.Some? then {Tests(s.cond.value)} else {};
    WrongUnion(pr, Optional(s.init), c);
    WrongUnion(pr, Optional(s.init) + c, Optional(s.step));
    WrongUnion(pr, Optional(s.init) + c + Optional(s.step), Parts(pr, s.body, true, true));
  }

  lemma {:induction false} BlockErrors(pr: Prims, ss: Stmts, brk: bool, cont: bool)
    ensures BlockErr(pr, ss, Ctx(brk, cont), false) <==> AnyWrong(pr, BlockParts(pr, ss, brk, cont))
    decreases ss, 0
  {
    WrongOne(pr, Jumps(true));
    hide AnyWrong;
    match ss
    case Nil =>
    case Cons(s, tl) =>
      StatementErrors(pr, s, brk, cont);
      BlockErrors(pr, tl, brk, cont);
      WrongUnion(pr, Parts(pr, s, brk, cont), BlockParts(pr, tl, brk, cont));
  }

  lemma {:induction false} ArmErrors(pr: Prims, cs: Cases, brk: bool, cont: bool)
    ensures CasesErr(pr, cs, Ctx(brk, cont), false) <==> AnyWrong(pr, ArmParts(pr, cs, brk, cont))
    decreases cs, 0
  {
    WrongOne(pr, Jumps(true));
    hide AnyWrong, OptErr, Optional;
    match cs
    case NoCases =>
    case Arm(l, b, rest) =>
      OptionalErrors(pr, l);
      BlockErrors(pr, b, brk, cont);
      ArmErrors(pr, rest, brk, cont);
      WrongUnion(pr, Optional(l), BlockParts(pr, b, brk, cont));
      WrongUnion(pr, Optional(l) + BlockParts(pr, b, brk, cont), ArmParts(pr, rest, brk, cont));
  }

  // ----- programs -----

  /** A program compiles without an error exactly if no compiled part of any of its functions is wrong. */
  lemma CleanExactly(p: Prog)
    ensures Clean(p) <==>
      forall i, part :: 0 <= i < |p.funs| && part in Parts(p.prims, p.funs[i].body, false, false) ==>
        !Wrong(p.prims, part)
  {
    forall i | 0 <= i < |p.funs|
      ensures FunErr(p.prims, p.funs[i]) <==> AnyWrong(p.prims, Parts(p.prims, p.funs[i].body, false, false))
    {
      StatementErrors(p.prims, p.funs[i].body, false, false);
    }
    hide FunErr, Parts, Wrong;
    if Clean(p) {
      forall i, part | 0 <= i < |p.funs| && part in Parts(p.prims, p.funs[i].body, false, false)
        ensures !Wrong(p.prims, part)
      {
        assert !FunErr(p.prims, p.funs[i]);
      }
    }
  }
}
