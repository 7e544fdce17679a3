/**
 * What the compiler emits, as functions of the tree.  Branch offsets are relative to the branching
 * instruction, so the code of a tree does not depend on where it is placed.
 */
module Codegen {
  import opened Options
  import opened Values
  import opened Machine
  import opened Syntax

  function I(op: Op): Inst { Inst(op, false) }
  function P(op: Op): Inst { Inst(op, true) }

  /** The code with the push flag of its last instruction set. */
  function SetPush(c: Code): Code {
    if c == [] then c else c[|c| - 1 := c[|c| - 1].(push := true)]
  }

  /** The code is a single constant. */
  predicate IsConst(c: Code) { |c| == 1 && c[0].op.OpConst? }

  /** The code is a single constant that is true. */
  predicate IsTrue(c: Code) { IsConst(c) && c[0].op.constant == TrueVal }

  /** A folded operator leaves its value; one that raises leaves Void. */
  function Folded(r: OpResult): Code {
    [I(OpConst(if r.Val? then r.v else Void))]
  }

  function LoadOp(lv: Lval): Op {
    match lv
    case GlobalVar(g) => OpGlobal(g)
    case LocalVar(x) => OpLocal(x)
  }

  function RefOp(lv: Lval): Op {
    match lv
    case GlobalVar(g) => OpGlobalRef(g)
    case LocalVar(x) => OpLocalRef(x)
  }

  function RefStoreOp(lv: Lval): Op {
    match lv
    case GlobalVar(g) => OpGlobalRefStore(g)
    case LocalVar(x) => OpLocalRefStore(x)
  }

  function ExprCode(pr: Prims, e: Expr): Code
    decreases e, 0
  {
    match e
    case Const(v) => [I(OpConst(v))]
    case Var(lv) => [I(LoadOp(lv))]
    case Unary(op, a) =>
      var c := ExprCode(pr, a);
      if IsConst(c) then Folded(pr.unary(op, c[0].op.constant)) else c + [I(OpUn(op))]
    case Binary(op, l, r) =>
      var a, b := ExprCode(pr, l), ExprCode(pr, r);
      if IsConst(a) && IsConst(b) then Folded(pr.binary(op, a[0].op.constant, b[0].op.constant))
      else SetPush(a) + b + [I(OpBin(op))]
    case Quest(t, y, n) =>
      var c, a, b := ExprCode(pr, t), ExprCode(pr, y), ExprCode(pr, n);
      if IsConst(c) then (if IsTrue(c) then a else b)
      else c + [I(OpBranchFalse(|a| + 2))] + a + [I(OpBranch(|b| + 1, ModNone))] + b + [I(OpNoop)]
    case And(l, r) =>
      var a, b := ExprCode(pr, l), ExprCode(pr, r);
      if IsConst(a) then (if IsTrue(a) then b else a)
      else a + [I(OpBranchFalse(|b| + 1))] + b + [I(OpNoop)]
    case Or(l, r) =>
      var a, b := ExprCode(pr, l), ExprCode(pr, r);
      if IsConst(a) then (if IsTrue(a) then a else b)
      else a + [I(OpBranchTrue(|b| + 1))] + b + [I(OpNoop)]
    case Assign(lv, r) => [P(RefStoreOp(lv))] + ExprCode(pr, r) + [I(OpAssign)]
    case AssignOp(lv, op, r) => [P(RefOp(lv)), P(OpFetch)] + ExprCode(pr, r) + [I(OpAssignOp(op))]
    case AssignAnd(lv, r) => AssignIfCode(lv, ExprCode(pr, r), true)
    case AssignOr(lv, r) => AssignIfCode(lv, ExprCode(pr, r), false)
    case IncDec(lv, op, pre) => [I(RefOp(lv)), I(if pre then OpPre(op) else OpPost(op))]
    case Comma(l, r) =>
      var a := ExprCode(pr, l);
      (if IsConst(a) then [] else a) + ExprCode(pr, r)
    case Call(f, args, _) => CallPrefix(pr, ExprCode(pr, f), args) + [I(OpCall(Length(args))), I(OpNoop)]
  }

  /**
   * The conditional assignments.  Both ways out of the test meet at the OpAssign, so the
   * OpDrop behind the branch is never reached.
   */
  function AssignIfCode(lv: Lval, c: Code, sense: bool): Code {
    [P(RefOp(lv)), I(OpFetch), I(if sense then OpBranchFalse(|c| + 1) else OpBranchTrue(|c| + 1))] +
    c + [I(OpAssign), I(OpBranch(2, ModNone)), I(OpDrop), I(OpNoop)]
  }

  /** Code `c` followed by the arguments; every value but that of the last argument is pushed. */
  function CallPrefix(pr: Prims, c: Code, args: Exprs): Code
    decreases args, 1
  {
    match args
    case NoArgs => c
    case Arg(e, tl) => SetPush(c) + CallPrefix(pr, ExprCode(pr, e), tl)
  }

  // ----- errors -----

  /** A condition that folded to something other than a boolean is a type error. */
  predicate BadBool(c: Code) { IsConst(c) && !c[0].op.constant.Bool? }

  /** Compiling the expression reports an error. */
  predicate ExprErr(pr: Prims, e: Expr)
    decreases e, 0
  {
    match e
    case Const(_) => false
    case Var(_) => false
    case Unary(op, a) =>
      var c := ExprCode(pr, a);
      ExprErr(pr, a) || (IsConst(c) && pr.unary(op, c[0].op.constant).Raise?)
    case Binary(op, l, r) =>
      var a, b := ExprCode(pr, l), ExprCode(pr, r);
      ExprErr(pr, l) || ExprErr(pr, r) ||
      (IsConst(a) && IsConst(b) && pr.binary(op, a[0].op.constant, b[0].op.constant).Raise?)
    case Quest(t, y, n) => BoolErr(pr, t) || ExprErr(pr, y) || ExprErr(pr, n)
    case And(l, r) => BoolErr(pr, l) || BoolErr(pr, r)
    case Or(l, r) => BoolErr(pr, l) || BoolErr(pr, r)
    case Assign(_, r) => ExprErr(pr, r)
    case AssignOp(_, _, r) => ExprErr(pr, r)
    case AssignAnd(_, r) => BoolErr(pr, r)
    case AssignOr(_, r) => BoolErr(pr, r)
    case IncDec(_, _, _) => false
    case Comma(l, r) => ExprErr(pr, l) || ExprErr(pr, r)
    case Call(f, args, _) => ExprErr(pr, f) || ArgsErr(pr, args)
  }

  predicate ArgsErr(pr: Prims, args: Exprs)
    decreases args, 0
  {
    match args
    case NoArgs => false
    case Arg(e, tl) => ExprErr(pr, e) || ArgsErr(pr, tl)
  }

  predicate BoolErr(pr: Prims, e: Expr)
    decreases e, 1
  {
    ExprErr(pr, e) || BadBool(ExprCode(pr, e))
  }

  // ----- statements -----

  /** Where a pending branch goes: to a known place, or it stays pending. */
  datatype Target = At(i: int) | Keep

  predicate Pending(i: Inst, mod: BranchMod) {
    i.op.OpBranch? && i.op.offset == 0 && i.op.mod == mod
  }

  /** A pending break or continue at place `at`, patched to go to `brk` or `cont`. */
  function Resolve(i: Inst, at: int, brk: Target, cont: Target): Inst {
    if Pending(i, ModBreak) && brk.At? then i.(op := OpBranch(brk.i - at, ModBreak))
    else if Pending(i, ModContinue) && cont.At? then i.(op := OpBranch(cont.i - at, ModContinue))
    else i
  }

  function Patch(c: Code, brk: Target, cont: Target): Code {
    seq(|c|, k requires 0 <= k < |c| => Resolve(c[k], k, brk, cont))
  }

  predicate IsBranch(op: Op) {
    op.OpBranch? || op.OpBranchFalse? || op.OpBranchTrue? || op.OpCase? || op.OpDefault?
  }

  predicate IsUnconditional(op: Op) {
    op.OpBranch? || op.OpDefault? || op.OpReturn? || op.OpReturnVoid? || op.OpTailCall?
  }

  /** Some branch of the code goes to its end. */
  predicate BranchesToEnd(c: Code) {
    exists i :: 0 <= i < |c| && IsBranch(c[i].op) && i + c[i].op.offset == |c|
  }

  /** Control may run off the end of the code. */
  predicate ReachesEnd(c: Code) {
    c == [] || !IsUnconditional(c[|c| - 1].op) || BranchesToEnd(c)
  }

  function OptCode(pr: Prims, e: Option<Expr>): Code {
    if e.Some? then ExprCode(pr, e.value) else []
  }

  /** `inner`: the statement is inside of a loop or switch, where no tail call is made. */
  function StmtCode(pr: Prims, s: Stmt, inner: bool): Code
    decreases s, 0
  {
    match s
    case If(t, a) =>
      var c, b := ExprCode(pr, t), StmtCode(pr, a, inner);
      if IsConst(c) then (if IsTrue(c) then b else [])
      else c + [I(OpBranchFalse(|b| + 1))] + b
    case IfElse(t, a, b) =>
      var c, x, y := ExprCode(pr, t), StmtCode(pr, a, inner), StmtCode(pr, b, inner);
      if IsConst(c) then (if IsTrue(c) then x else y)
      else
        var skip := if ReachesEnd(x) then [I(OpBranch(|y| + 1, ModNone))] else [];
        c + [I(OpBranchFalse(|x| + |skip| + 1))] + x + skip + y
    case While(t, b) =>
      var c, x := ExprCode(pr, t), StmtCode(pr, b, true);
      if IsConst(c) then
        if IsTrue(c) then
          Patch(x, At(|x| + 1), At(|x|)) + [I(OpBranch(-|x|, ModNone))]
        else []
      else
        [I(OpBranch(|x| + 1, ModNone))] + Patch(x, At(|x| + |c| + 1), At(|x|)) + c +
        [I(OpBranchTrue(-(|x| + |c|)))]
    case DoWhile(b, t) =>
      var c, x := ExprCode(pr, t), StmtCode(pr, b, true);
      var test := if !IsConst(c) then c + [I(OpBranchTrue(-(|x| + |c|)))]
                  else if IsTrue(c) then [I(OpBranch(-|x|, ModNone))]
                  else [];
      Patch(x, At(|x| + |test|), At(|x|)) + test
    case For(i, c, n, b) =>
      OptCode(pr, i) + ForCode(OptCode(pr, c), OptCode(pr, n), StmtCode(pr, b, true), c.Some?)
    case Switch(e, cs) =>
      var tests, bodies := TestsCode(pr, cs, 0), ArmsCode(pr, cs);
      SetPush(ExprCode(pr, e)) + tests + [I(OpDefault(1 + DefaultStart(pr, cs)))] +
      Patch(bodies, At(|bodies|), Keep)
    case Break => [I(OpBranch(0, ModBreak))]
    case Continue => [I(OpBranch(0, ModContinue))]
    case Return(e) =>
      if e.Call? && e.typed && !inner then
        CallPrefix(pr, ExprCode(pr, e.fn), e.args) + [I(OpTailCall(Length(e.args)))]
      else ExprCode(pr, e) + [I(OpReturn)]
    case ReturnVoid => [I(OpReturnVoid)]
    case ExprStat(e) => ExprCode(pr, e)
    case Semi => []
    case Block(ss) => BlockCode(pr, ss, inner)
  }

  /** The loop of a for statement: body, step, then the condition, which a leading branch enters first. */
  function ForCode(c: Code, n: Code, x: Code, hasCond: bool): Code {
    if !hasCond then
      Patch(x, At(|x| + |n| + 1), At(|x|)) + n + [I(OpBranch(-(|x| + |n|), ModNone))]
    else if IsConst(c) then
      if IsTrue(c) then
        [I(OpBranch(|x| + |n| + 1, ModNone))] + Patch(x, At(|x| + |n| + 1), At(|x|)) + n +
        [I(OpBranch(-(|x| + |n|), ModNone))]
      else []
    else
      [I(OpBranch(|x| + |n| + 1, ModNone))] + Patch(x, At(|x| + |n| + |c| + 1), At(|x|)) + n + c +
      [I(OpBranchTrue(-(|x| + |n| + |c|)))]
  }

  function BlockCode(pr: Prims, ss: Stmts, inner: bool): Code
    decreases ss, 0
  {
    match ss
    case Nil => []
    case Cons(s, tl) => StmtCode(pr, s, inner) + BlockCode(pr, tl, inner)
  }

  /** The comparisons of a switch whose arm bodies start `start` instructions into the arms. */
  function TestsCode(pr: Prims, cs: Cases, start: nat): Code
    decreases cs, 0
  {
    match cs
    case NoCases => []
    case Arm(l, b, rest) =>
      var more := TestsCode(pr, rest, start + |BlockCode(pr, b, true)|);
      if l.None? then more
      else ExprCode(pr, l.value) + [I(OpCase(2 + |more| + start))] + more
  }

  function ArmsCode(pr: Prims, cs: Cases): Code
    decreases cs, 0
  {
    match cs
    case NoCases => []
    case Arm(_, b, rest) => BlockCode(pr, b, true) + ArmsCode(pr, rest)
  }

  /** Where the first default arm starts in the arms, or their end. */
  function DefaultStart(pr: Prims, cs: Cases): nat
    decreases cs, 0
  {
    match cs
    case NoCases => 0
    case Arm(l, b, rest) => if l.None? then 0 else |BlockCode(pr, b, true)| + DefaultStart(pr, rest)
  }

  /** A function body; a return is added where control may reach the end. */
  function BodyCode(pr: Prims, s: Stmt): Code {
    var c := StmtCode(pr, s, false);
    if ReachesEnd(c) then c + [I(OpReturnVoid)] else c
  }

  // ----- errors of statements -----

  /** What surrounds a statement: may it break, may it continue. */
  datatype Ctx = Ctx(brk: bool, cont: bool)

  /**
   * Compiling the statement prints an error.  With `flag`, only errors that also mark the object
   * as erroneous: those of a while condition that folds to a constant do not.
   */
  predicate StmtErr(pr: Prims, s: Stmt, x: Ctx, flag: bool)
    decreases s, 0
  {
    match s
    case If(t, a) =>
      BoolErr(pr, t) || (Kept(pr, t, true) && StmtErr(pr, a, x, flag))
    case IfElse(t, a, b) =>
      BoolErr(pr, t) || (Kept(pr, t, true) && StmtErr(pr, a, x, flag)) ||
      (Kept(pr, t, false) && StmtErr(pr, b, x, flag))
    case While(t, b) =>
      ((!flag || !IsConst(ExprCode(pr, t))) && BoolErr(pr, t)) ||
      (Kept(pr, t, true) && StmtErr(pr, b, Ctx(true, true), flag))
    case DoWhile(b, t) => StmtErr(pr, b, Ctx(true, true), flag) || BoolErr(pr, t)
    case For(i, c, n, b) =>
      OptErr(pr, i) || (c.Some? && BoolErr(pr, c.value)) || OptErr(pr, n) ||
      StmtErr(pr, b, Ctx(true, true), flag)
    case Switch(e, cs) => ExprErr(pr, e) || CasesErr(pr, cs, x.(brk := true), flag)
    case Break => !x.brk
    case Continue => !x.cont
    case Return(e) => ExprErr(pr, e)
    case ReturnVoid => false
    case ExprStat(e) => ExprErr(pr, e)
    case Semi => false
    case Block(ss) => BlockErr(pr, ss, x, flag)
  }

  /** The branch of a conditional taken when the condition is `b` is compiled. */
  predicate Kept(pr: Prims, t: Expr, b: bool) {
    var c := ExprCode(pr, t);
    IsConst(c) ==> IsTrue(c) == b
  }

  predicate OptErr(pr: Prims, e: Option<Expr>) {
    e.Some? && ExprErr(pr, e.value)
  }

  predicate BlockErr(pr: Prims, ss: Stmts, x: Ctx, flag: bool)
    decreases ss, 0
  {
    match ss
    case Nil => false
    case Cons(s, tl) => StmtErr(pr, s, x, flag) || BlockErr(pr, tl, x, flag)
  }

  predicate CasesErr(pr: Prims, cs: Cases, x: Ctx, flag: bool)
    decreases cs, 0
  {
    match cs
    case NoCases => false
    case Arm(l, b, rest) => OptErr(pr, l) || BlockErr(pr, b, x, flag) || CasesErr(pr, rest, x, flag)
  }

  const Toplevel: Ctx := Ctx(false, false)

  // ----- programs -----

  predicate FunErr(pr: Prims, f: Fun) { StmtErr(pr, f.body, Toplevel, false) }

  /** No error is printed while the program is compiled. */
  ghost predicate Clean(p: Prog) {
    forall i :: 0 <= i < |p.funs| ==> !FunErr(p.prims, p.funs[i])
  }

  function FunObj(pr: Prims, f: Fun): Obj {
    Obj(BodyCode(pr, f.body), f.argc, f.autos)
  }

  /** The code a program starts in: call function `main` without arguments. */
  function StartCode(main: nat): Code {
    [I(OpConst(Func(main))), I(OpCall(0)), I(OpNoop), I(OpEnd)]
  }

  /** The compiled functions. */
  function Objects(p: Prog): (r: seq<Obj>)
    ensures |r| == |p.funs|
  {
    seq(|p.funs|, i requires 0 <= i < |p.funs| => FunObj(p.prims, p.funs[i]))
  }
}
