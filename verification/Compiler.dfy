/**
 * The compiler as it works: recursive over the tree, but appending to, rewinding and patching
 * the instructions of an object in place.  Every method is proved to emit the code that Codegen
 * defines and to report exactly the errors that Codegen defines.
 */
module Compiler {
  import opened Values
  import opened Machine
  import opened Syntax
  import opened Codegen
  import opened Placement
  import opened Layout

  /** Whether any error message has been printed. */
  class Log {
    var printed: bool

    constructor ()
      ensures !printed
    {
      printed := false;
    }
  }

  /** What encloses the statement being compiled, innermost first: loops and switches. */
  datatype NonLocal = NoNonLocal | Control(brk: bool, cont: bool, prev: NonLocal)

  function Inner(nl: NonLocal): bool { nl.Control? }

  function CtxOf(nl: NonLocal): Ctx {
    match nl
    case NoNonLocal => Toplevel
    case Control(b, c, prev) => Ctx(b || CtxOf(prev).brk, c || CtxOf(prev).cont)
  }

  /** An instruction whose branch offset is filled in. */
  function WithOffset(i: Inst, off: int): Inst {
    match i.op
    case OpBranch(_, _) => i.(op := OpBranch(off, ModNone))
    case OpBranchFalse(_) => i.(op := OpBranchFalse(off))
    case OpBranchTrue(_) => i.(op := OpBranchTrue(off))
    case OpCase(_) => i.(op := OpCase(off))
    case OpDefault(_) => i.(op := OpDefault(off))
    case _ => i
  }

  class Object {
    var code: Code
    var error: bool
    var nonLocal: NonLocal

    constructor ()
      ensures code == [] && !error && nonLocal == NoNonLocal
    {
      code, error, nonLocal := [], false, NoNonLocal;
    }

    method AddInst(op: Op)
      modifies this`code
      ensures code == old(code) + [I(op)]
    {
      code := code + [I(op)];
    }

    method SetPushFlag()
      modifies this`code
      ensures code == SetPush(old(code))
    {
      if |code| > 0 {
        code := code[|code| - 1 := code[|code| - 1].(push := true)];
      }
    }

    /** Forget the instructions from `used` on. */
    method ResetInst(used: nat)
      requires used <= |code|
      modifies this`code
      ensures code == old(code)[..used]
    {
      code := code[..used];
    }

    method SetOffset(at: nat, off: int)
      requires at < |code|
      modifies this`code
      ensures code == old(code)[at := WithOffset(old(code)[at], off)]
    {
      code := code[at := WithOffset(code[at], off)];
    }

    /** Let the branch at `at` go to the end of the code so far. */
    method BranchHere(at: nat)
      requires at < |code|
      modifies this`code
      ensures code == old(code)[at := WithOffset(old(code)[at], |old(code)| - at)]
    {
      SetOffset(at, |code| - at);
    }

    method AssignBehind()
      modifies this`code
      ensures code == old(code) + Assigning()
    {
      AddInst(Op.OpAssign);
      var test := |code|;
      AddInst(OpBranch(0, ModNone));
      AddInst(OpDrop);
      BranchHere(test);
      AddInst(OpNoop);
    }

    method CompileError(log: Log)
      modifies this`error, log
      ensures error && log.printed
    {
      error := true;
      log.printed := true;
    }

    method AppendObj(last: Object)
      requires last != this
      modifies this`code, this`error
      ensures code == old(code) + last.code && error == (old(error) || last.error)
    {
      var i := 0;
      while i < |last.code|
        invariant 0 <= i <= |last.code|
        invariant code == old(code) + last.code[..i] && error == old(error)
      {
        code := code + [last.code[i]];
        i := i + 1;
      }
      error := error || last.error;
    }

    /** Direct the pending breaks and continues from `start` on. */
    method PatchLoop(start: nat, cont: Target, brk: nat)
      requires start <= |code|
      modifies this`code
      ensures code == old(code)[..start] + Patch(old(code)[start..], At(brk - start),
                                                 if cont.At? then At(cont.i - start) else Keep)
    {
      var k := start;
      while k < |code|
        invariant start <= k <= |code| == |old(code)|
        decreases |old(code)| - k
        invariant forall j :: 0 <= j < start || k <= j < |code| ==> code[j] == old(code)[j]
        invariant forall j :: start <= j < k ==> code[j] == Resolve(old(code)[j], j, At(brk), cont)
      {
        match code[k].op {
          case OpBranch(off, mod) =>
            if off == 0 {
              if mod == ModBreak {
                code := code[k := code[k].(op := OpBranch(brk - k, mod))];
              } else if mod == ModContinue && cont.At? {
                code := code[k := code[k].(op := OpBranch(cont.i - k, mod))];
              }
            }
          case _ =>
        }
        k := k + 1;
      }
    }

    /** Whether control can come to `target`: by a branch or from the instruction in front of it. */
    method IsReachable(target: nat) returns (r: bool)
      ensures r <==> exists i :: 0 <= i < |code| && Comes(code, i, target)
    {
      var i := 0;
      while i < |code|
        invariant 0 <= i <= |code|
        invariant forall k :: 0 <= k < i ==> !Comes(code, k, target)
      {
        if (IsBranch(code[i].op) && i + code[i].op.offset == target) ||
          (i == target - 1 && !IsUnconditional(code[i].op)) {
          assert Comes(code, i, target);
          return true;
        }
        i := i + 1;
      }
      return false;
    }

    /** A break or continue: a pending branch, and an error if nothing encloses it that takes it. */
    method CompileNonLocal(mod: BranchMod, log: Log)
      requires mod != ModNone
      modifies this`code, this`error, log
      ensures code == old(code) + [I(OpBranch(0, mod))]
      ensures
        var bad := if mod == ModBreak then !CtxOf(nonLocal).brk else !CtxOf(nonLocal).cont;
        error == (old(error) || bad) && log.printed == (old(log.printed) || bad)
    {
      var nl := nonLocal;
      while nl.Control? && !(if mod == ModBreak then nl.brk else nl.cont)
        invariant mod == ModBreak ==> CtxOf(nl).brk == CtxOf(nonLocal).brk
        invariant mod == ModContinue ==> CtxOf(nl).cont == CtxOf(nonLocal).cont
        decreases nl
      {
        nl := nl.prev;
      }
      if nl.NoNonLocal? { CompileError(log); }
      AddInst(OpBranch(0, mod));
    }
  }

  ghost predicate Comes(c: Code, i: int, target: int)
    requires 0 <= i < |c|
  {
    (IsBranch(c[i].op) && i + c[i].op.offset == target) || (i == target - 1 && !IsUnconditional(c[i].op))
  }

  /** `c` has been appended; `flagged` and `printed` tell whether the errors were marked and printed. */
  twostate predicate Emitted(obj: Object, log: Log, c: Code, flagged: bool, printed: bool)
    reads obj, log
  {
    && obj.code == old(obj.code) + c
    && obj.error == (old(obj.error) || flagged)
    && log.printed == (old(log.printed) || printed)
    && obj.nonLocal == old(obj.nonLocal)
  }

  // ----- sequences -----

  lemma Join(pre: Code, a: Code, b: Code)
    ensures (pre + a) + b == pre + (a + b)
  {
  }

  lemma PatchAt(pre: Code, a: Code, i: Inst, j: Inst, b: Code)
    ensures (pre + (a + [i] + b))[|pre| + |a| := j] == pre + (a + [j] + b)
  {
  }

  lemma PushBehind(pre: Code, a: Code)
    requires a != []
    ensures SetPush(pre + a) == pre + SetPush(a)
  {
  }

  // ----- expressions -----

  method CompileExpr(pr: Prims, e: Expr, obj: Object, log: Log)
    modifies obj, log
    ensures Emitted(obj, log, ExprCode(pr, e), ExprErr(pr, e), ExprErr(pr, e))
    decreases e, 2
  {
    match e
    case Const(v) => obj.AddInst(OpConst(v));
    case Var(lv) => obj.AddInst(LoadOp(lv));
    case Unary(_, _) => CompileUnOp(pr, e, obj, log);
    case Binary(_, _, _) => CompileBinOp(pr, e, obj, log);
    case Quest(_, _, _) => CompileQuest(pr, e, obj, log);
    case And(l, r) => CompileShort(pr, e, l, r, true, obj, log);
    case Or(l, r) => CompileShort(pr, e, l, r, false, obj, log);
    case Assign(lv, r) => CompileAssign(pr, e, obj, log);
    case AssignOp(_, _, _) => CompileAssignOp(pr, e, obj, log);
    case AssignAnd(lv, r) => CompileAssignIf(pr, e, lv, r, true, obj, log);
    case AssignOr(lv, r) => CompileAssignIf(pr, e, lv, r, false, obj, log);
    case IncDec(lv, op, pre) =>
      obj.AddInst(RefOp(lv));
      obj.AddInst(if pre then OpPre(op) else OpPost(op));
    case Comma(_, _) => CompileComma(pr, e, obj, log);
    case Call(f, args, _) =>
      CompileCall(pr, f, args, false, obj, log, e);
  }

  method CompileUnOp(pr: Prims, e: Expr, obj: Object, log: Log)
    requires e.Unary?
    modifies obj, log
    ensures Emitted(obj, log, ExprCode(pr, e), ExprErr(pr, e), ExprErr(pr, e))
    decreases e, 1
  {
    ghost var pre, c := obj.code, ExprCode(pr, e.arg);
    var d := |obj.code|;
    CompileExpr(pr, e.arg, obj, log);
    ConstBehind(pre, c);
    if ConstFrom(obj.code, d) {
      var r := pr.unary(e.uop, obj.code[d].op.constant);
      if r.Raise? { obj.CompileError(log); }
      obj.code := obj.code[d := I(OpConst(if r.Val? then r.v else Void))];
      assert obj.code == pre + Folded(r);
    } else {
      obj.AddInst(OpUn(e.uop));
      Join(pre, c, [I(OpUn(e.uop))]);
    }
  }

  method CompileBinOp(pr: Prims, e: Expr, obj: Object, log: Log)
    requires e.Binary?
    modifies obj, log
    ensures Emitted(obj, log, ExprCode(pr, e), ExprErr(pr, e), ExprErr(pr, e))
    decreases e, 1
  {
    ghost var pre, a, b := obj.code, ExprCode(pr, e.left), ExprCode(pr, e.right);
    NonEmpty(pr, e.left);
    NonEmpty(pr, e.right);
    var left := |obj.code|;
    CompileExpr(pr, e.left, obj, log);
    obj.SetPushFlag();
    PushBehind(pre, a);
    var right := |obj.code|;
    CompileExpr(pr, e.right, obj, log);
    Join(pre, SetPush(a), b);
    assert obj.code[left] == SetPush(a)[0] && obj.code[right] == b[0];
    if |obj.code| == left + 2 && obj.code[left].op.OpConst? && obj.code[right].op.OpConst? {
      var r := pr.binary(e.bop, obj.code[left].op.constant, obj.code[right].op.constant);
      if r.Raise? { obj.CompileError(log); }
      obj.code := obj.code[left := I(OpConst(if r.Val? then r.v else Void))];
      obj.ResetInst(left + 1);
      assert obj.code == pre + Folded(r);
    } else {
      obj.AddInst(OpBin(e.bop));
      Join(pre, SetPush(a) + b, [I(OpBin(e.bop))]);
    }
  }

  method CompileBoolExpr(pr: Prims, e: Expr, obj: Object, log: Log)
    modifies obj, log
    ensures Emitted(obj, log, ExprCode(pr, e), BoolErr(pr, e), BoolErr(pr, e))
    decreases e, 3
  {
    ghost var c := ExprCode(pr, e);
    var start := |obj.code|;
    CompileExpr(pr, e, obj, log);
    assert |c| == 1 ==> obj.code[start] == c[0];
    if |obj.code| == start + 1 && obj.code[start].op.OpConst? && !obj.code[start].op.constant.Bool? {
      obj.CompileError(log);
    }
  }

  /** The code from `start` on is a single constant. */
  predicate ConstFrom(code: Code, start: nat) {
    |code| == start + 1 && code[start].op.OpConst?
  }

  lemma ConstBehind(pre: Code, c: Code)
    ensures ConstFrom(pre + c, |pre|) == IsConst(c)
    ensures IsConst(c) ==> (pre + c)[|pre|] == c[0]
    ensures (pre + c)[..|pre|] == pre
  {
  }

  /** Both arms are always compiled; the one that a constant test skips is smashed. */
  method CompileQuest(pr: Prims, e: Expr, obj: Object, log: Log)
    requires e.Quest?
    modifies obj, log
    ensures Emitted(obj, log, ExprCode(pr, e), ExprErr(pr, e), ExprErr(pr, e))
    decreases e, 1
  {
    ghost var pre, c, a, b := obj.code, ExprCode(pr, e.test), ExprCode(pr, e.yes), ExprCode(pr, e.no);
    ghost var whole := QuestCode(pr, e, c, a, b);
    hide ExprCode, ExprErr, BoolErr, IsTrue;
    var top := |obj.code|;
    CompileBoolExpr(pr, e.test, obj, log);
    ConstBehind(pre, c);
    if ConstFrom(obj.code, top) {
      var t := obj.code[top].op.constant == TrueVal;
      obj.ResetInst(top);
      CompileExpr(pr, e.yes, obj, log);
      ConstBehind(pre, a);
      if !t { obj.ResetInst(top); }
      top := |obj.code|;
      CompileExpr(pr, e.no, obj, log);
      if t { obj.ResetInst(top); }
      assert obj.code == pre + if t then a else b;
      assert t == IsTrue(c) by { TrueOperand(c); }
    } else {
      CompileArmsOf(pr, e, obj, log, pre, c);
    }
  }

  lemma TrueOperand(c: Code)
    requires IsConst(c)
    ensures IsTrue(c) == (c[0].op.constant == TrueVal)
  {
  }

  /** Both arms of a conditional behind its test `c`, with the branches around them. */
  method CompileArmsOf(pr: Prims, e: Expr, obj: Object, log: Log, ghost pre: Code, ghost c: Code)
    requires e.Quest? && obj.code == pre + c
    modifies obj, log
    ensures
      var a, b := ExprCode(pr, e.yes), ExprCode(pr, e.no);
      obj.code == pre + (c + [I(OpBranchFalse(|a| + 2))] + a + [I(OpBranch(|b| + 1, ModNone))] + b + [I(OpNoop)])
    ensures obj.nonLocal == old(obj.nonLocal)
    ensures obj.error == (old(obj.error) || ExprErr(pr, e.yes) || ExprErr(pr, e.no))
    ensures log.printed == (old(log.printed) || ExprErr(pr, e.yes) || ExprErr(pr, e.no))
    decreases e, 0
  {
    ghost var a, b := ExprCode(pr, e.yes), ExprCode(pr, e.no);
    hide ExprCode, ExprErr;
    var test := |obj.code|;
    obj.AddInst(OpBranchFalse(0));
    CompileExpr(pr, e.yes, obj, log);
    var middle := |obj.code|;
    obj.AddInst(OpBranch(0, ModNone));
    obj.BranchHere(test);
    CompileExpr(pr, e.no, obj, log);
    obj.BranchHere(middle);
    obj.AddInst(OpNoop);
    QuestEmitted(pre, c, a, b);
  }

  lemma QuestCode(pr: Prims, e: Expr, c: Code, a: Code, b: Code) returns (code: Code)
    requires e.Quest? && c == ExprCode(pr, e.test) && a == ExprCode(pr, e.yes) && b == ExprCode(pr, e.no)
    ensures code == ExprCode(pr, e) && ExprErr(pr, e) ==
      (BoolErr(pr, e.test) || ExprErr(pr, e.yes) || ExprErr(pr, e.no))
    ensures code == if IsConst(c) then (if IsTrue(c) then a else b)
      else c + [I(OpBranchFalse(|a| + 2))] + a + [I(OpBranch(|b| + 1, ModNone))] + b + [I(OpNoop)]
  {
    code := ExprCode(pr, e);
  }

  /** The branches of a conditional are patched once their targets are known. */
  lemma QuestEmitted(pre: Code, c: Code, a: Code, b: Code)
    ensures
      var bf, br := I(OpBranchFalse(|a| + 2)), I(OpBranch(|b| + 1, ModNone));
      var code := (pre + c + [I(OpBranchFalse(0))] + a + [I(OpBranch(0, ModNone))])[|pre| + |c| := bf] + b;
      code[|pre| + |c| + 1 + |a| := br] + [I(OpNoop)] == pre + (c + [bf] + a + [br] + b + [I(OpNoop)])
  {
  }

  /**
   * `l && r` (sense true) and `l || r` (sense false): the right operand is smashed if it is never evaluated.
   * compile.c checks the operands of the second by combining their types (2765-2812); here an operand that folds
   * to no boolean is an error in both.
   */
  method CompileShort(pr: Prims, e: Expr, l: Expr, r: Expr, sense: bool, obj: Object, log: Log)
    requires e == if sense then And(l, r) else Or(l, r)
    modifies obj, log
    ensures Emitted(obj, log, ExprCode(pr, e), ExprErr(pr, e), ExprErr(pr, e))
    decreases e, 1
  {
    hide ArgsErr, AssignIfCode, BoolErr, Folded, IsConst, Length, LoadOp, P, RefOp, RefStoreOp, SetPush;
    ghost var pre, a, b := obj.code, ExprCode(pr, l), ExprCode(pr, r);
    var top := |obj.code|;
    CompileBoolExpr(pr, l, obj, log);
    ConstBehind(pre, a);
    if ConstFrom(obj.code, top) {
      var runs := (obj.code[top].op.constant == TrueVal) == sense;
      if runs { obj.ResetInst(top); }
      top := |obj.code|;
      CompileBoolExpr(pr, r, obj, log);
      if !runs { obj.ResetInst(top); }
      assert obj.code == pre + if runs then b else a;
    } else {
      var test := |obj.code|;
      obj.AddInst(if sense then OpBranchFalse(0) else OpBranchTrue(0));
      CompileBoolExpr(pr, r, obj, log);
      obj.BranchHere(test);
      obj.AddInst(OpNoop);
      ShortEmitted(pre, a, b, sense);
    }
  }

  lemma ShortEmitted(pre: Code, a: Code, b: Code, sense: bool)
    ensures
      var i, j := I(if sense then OpBranchFalse(0) else OpBranchTrue(0)),
                  I(if sense then OpBranchFalse(|b| + 1) else OpBranchTrue(|b| + 1));
      (pre + a + [i] + b)[|pre| + |a| := j] + [I(OpNoop)] == pre + (a + [j] + b + [I(OpNoop)])
  {
  }

  method CompileAssign(pr: Prims, e: Expr, obj: Object, log: Log)
    requires e.Assign?
    modifies obj, log
    ensures Emitted(obj, log, ExprCode(pr, e), ExprErr(pr, e), ExprErr(pr, e))
    decreases e, 1
  {
    ghost var pre, b := obj.code, ExprCode(pr, e.rhs);
    obj.AddInst(RefStoreOp(e.lv));
    obj.SetPushFlag();
    CompileExpr(pr, e.rhs, obj, log);
    obj.AddInst(Op.OpAssign);
    assert obj.code == pre + ([P(RefStoreOp(e.lv))] + b + [I(Op.OpAssign)]);
  }

  method CompileAssignOp(pr: Prims, e: Expr, obj: Object, log: Log)
    requires e.AssignOp?
    modifies obj, log
    ensures Emitted(obj, log, ExprCode(pr, e), ExprErr(pr, e), ExprErr(pr, e))
    decreases e, 1
  {
    ghost var pre, b := obj.code, ExprCode(pr, e.rhs);
    obj.AddInst(RefOp(e.lv));
    obj.SetPushFlag();
    obj.AddInst(OpFetch);
    obj.SetPushFlag();
    CompileExpr(pr, e.rhs, obj, log);
    obj.AddInst(OpAssignOp(e.aop));
    assert obj.code == pre + ([P(RefOp(e.lv)), P(OpFetch)] + b + [I(OpAssignOp(e.aop))]);
  }

  method CompileAssignIf(pr: Prims, e: Expr, lv: Lval, r: Expr, sense: bool, obj: Object, log: Log)
    requires e == if sense then AssignAnd(lv, r) else AssignOr(lv, r)
    modifies obj, log
    ensures Emitted(obj, log, ExprCode(pr, e), ExprErr(pr, e), ExprErr(pr, e))
    decreases e, 1
  {
    ghost var pre, c := obj.code, ExprCode(pr, r);
    assert ExprCode(pr, e) == AssignIfCode(lv, c, sense) && ExprErr(pr, e) == BoolErr(pr, r);
    hide ExprCode, ExprErr, BoolErr;
    obj.AddInst(RefOp(lv));
    obj.SetPushFlag();
    obj.AddInst(OpFetch);
    assert obj.code == pre + [P(RefOp(lv)), I(OpFetch)];
    CompileIfAssigned(pr, r, sense, obj, log);
    AssignIfEmitted(pre, lv, c, sense);
  }

  /** The value to be assigned and the assignment, if the test behind which they stand lets control come to them. */
  method CompileIfAssigned(pr: Prims, r: Expr, sense: bool, obj: Object, log: Log)
    modifies obj, log
    ensures Emitted(obj, log, IfAssigned(ExprCode(pr, r), sense), BoolErr(pr, r), BoolErr(pr, r))
    decreases r, 4
  {
    ghost var pre, c := obj.code, ExprCode(pr, r);
    hide ExprCode, BoolErr;
    var test := |obj.code|;
    obj.AddInst(if sense then OpBranchFalse(0) else OpBranchTrue(0));
    CompileBoolExpr(pr, r, obj, log);
    obj.BranchHere(test);
    FirstBranch(pre, c, sense);
    obj.AssignBehind();
    Join(pre, [I(if sense then OpBranchFalse(|c| + 1) else OpBranchTrue(|c| + 1))] + c, Assigning());
  }

  /** The assignment, and the jump around an OpDrop that is never reached. */
  function Assigning(): Code {
    [I(Op.OpAssign), I(OpBranch(2, ModNone)), I(OpDrop), I(OpNoop)]
  }

  function IfAssigned(c: Code, sense: bool): Code {
    [I(if sense then OpBranchFalse(|c| + 1) else OpBranchTrue(|c| + 1))] + c + Assigning()
  }

  lemma AssignIfEmitted(pre: Code, lv: Lval, c: Code, sense: bool)
    ensures pre + [P(RefOp(lv)), I(OpFetch)] + IfAssigned(c, sense) == pre + AssignIfCode(lv, c, sense)
  {
  }

  lemma FirstBranch(pre: Code, c: Code, sense: bool)
    ensures
      var i, j := I(if sense then OpBranchFalse(0) else OpBranchTrue(0)),
                  I(if sense then OpBranchFalse(|c| + 1) else OpBranchTrue(|c| + 1));
      (pre + [i] + c)[|pre| := j] == pre + ([j] + c)
  {
  }

  /** A left operand that folds to a constant is dropped: it has no effect. */
  method CompileComma(pr: Prims, e: Expr, obj: Object, log: Log)
    requires e.Comma?
    modifies obj, log
    ensures Emitted(obj, log, ExprCode(pr, e), ExprErr(pr, e), ExprErr(pr, e))
    decreases e, 1
  {
    ghost var pre, a, b := obj.code, ExprCode(pr, e.left), ExprCode(pr, e.right);
    var top := |obj.code|;
    CompileExpr(pr, e.left, obj, log);
    ConstBehind(pre, a);
    if ConstFrom(obj.code, top) { obj.ResetInst(top); }
    CompileExpr(pr, e.right, obj, log);
    assert obj.code == pre + ((if IsConst(a) then [] else a) + b);
  }

  /** A call; `tail` asks for a tail call. */
  method CompileCall(pr: Prims, f: Expr, args: Exprs, tail: bool, obj: Object, log: Log, ghost e: Expr)
    requires f < e && args < e
    modifies obj, log
    ensures Emitted(obj, log,
      CallPrefix(pr, ExprCode(pr, f), args) +
        if tail then [I(OpTailCall(Length(args)))] else [I(OpCall(Length(args))), I(OpNoop)],
      ExprErr(pr, f) || ArgsErr(pr, args), ExprErr(pr, f) || ArgsErr(pr, args))
    decreases e, 1
  {
    ghost var pre := obj.code;
    CompileExpr(pr, f, obj, log);
    NonEmpty(pr, f);
    var argc := CompileArgs(pr, args, obj, log, pre, ExprCode(pr, f));
    ghost var c := CallPrefix(pr, ExprCode(pr, f), args);
    if tail {
      obj.AddInst(OpTailCall(argc));
      assert obj.code == pre + (c + [I(OpTailCall(argc))]);
    } else {
      obj.AddInst(OpCall(argc));
      obj.AddInst(OpNoop);
      assert obj.code == pre + (c + [I(OpCall(argc)), I(OpNoop)]);
    }
  }

  /** The arguments behind code `c`: each time the value so far is pushed. */
  method CompileArgs(pr: Prims, args: Exprs, obj: Object, log: Log, ghost pre: Code, ghost c: Code) returns (argc: nat)
    requires obj.code == pre + c && c != []
    modifies obj, log
    ensures obj.code == pre + CallPrefix(pr, c, args) && argc == Length(args)
    ensures obj.error == (old(obj.error) || ArgsErr(pr, args)) && log.printed == (old(log.printed) || ArgsErr(pr, args))
    ensures obj.nonLocal == old(obj.nonLocal)
    decreases args, 0
  {
    argc := 0;
    match args
    case NoArgs =>
    case Arg(e, tl) =>
      ghost var a := ExprCode(pr, e);
      obj.SetPushFlag();
      PushBehind(pre, c);
      CompileExpr(pr, e, obj, log);
      NonEmpty(pr, e);
      argc := CompileArgs(pr, tl, obj, log, pre + SetPush(c), a);
      argc := argc + 1;
      Join(pre, SetPush(c), CallPrefix(pr, a, tl));
  }

  // ----- statements -----

  lemma InsideUpdate(c: Code, at: nat, i: Inst)
    requires Inside(c) && at < |c| && In(i.op, at, |c|)
    ensures Inside(c[at := i])
  {
    var d := c[at := i];
    forall k | 0 <= k < |d| ensures In(d[k].op, k, |d|) { assert In(c[k].op, k, |c|); }
  }

  /**
   * The reachability test looks at the whole object, not only at the statement `x` just compiled;
   * that is the same because every branch in front of `x` stays inside of what precedes it.
   */
  lemma WholeObject(pre: Code, x: Code)
    requires Inside(pre) && Inside(x) && (pre != [] ==> !IsUnconditional(pre[|pre| - 1].op)) && pre + x != []
    ensures (exists i :: 0 <= i < |pre + x| && Comes(pre + x, i, |pre + x|)) <==> ReachesEnd(x)
  {
    var c := pre + x;
    if i :| 0 <= i < |c| && Comes(c, i, |c|) {
      if i < |pre| { assert In(pre[i].op, i, |pre|); } else { assert c[i] == x[i - |pre|]; }
    }
    if ReachesEnd(x) {
      if x != [] && IsUnconditional(x[|x| - 1].op) {
        var i :| 0 <= i < |x| && IsBranch(x[i].op) && i + x[i].op.offset == |x|;
        assert Comes(c, |pre| + i, |c|);
      } else {
        assert Comes(c, |c| - 1, |c|);
      }
    }
  }

  /** Compile a statement behind code whose branches stay inside of it. */
  method CompileStat(pr: Prims, s: Stmt, obj: Object, log: Log)
    requires Inside(obj.code)
    modifies obj, log
    ensures
      var nl := old(obj.nonLocal);
      Emitted(obj, log, StmtCode(pr, s, Inner(nl)), StmtErr(pr, s, CtxOf(nl), true), StmtErr(pr, s, CtxOf(nl), false))
    ensures Inside(obj.code)
    decreases s, 3
  {
    hide Inside;
    ghost var pre, nl := obj.code, obj.nonLocal;
    match s {
      case If(_, _) => CompileIf(pr, s, obj, log);
      case IfElse(_, _, _) => CompileIfElse(pr, s, obj, log);
      case While(_, _) => CompileWhile(pr, s, obj, log);
      case DoWhile(_, _) => CompileDo(pr, s, obj, log);
      case For(_, _, _, _) => CompileFor(pr, s, obj, log);
      case Switch(_, _) => CompileSwitch(pr, s, obj, log);
      case Break => obj.CompileNonLocal(ModBreak, log);
      case Continue => obj.CompileNonLocal(ModContinue, log);
      case Return(_) => CompileReturn(pr, s, obj, log);
      case ReturnVoid => obj.AddInst(Op.OpReturnVoid);
      case ExprStat(e) => CompileExpr(pr, e, obj, log);
      case Semi =>
      case Block(ss) => CompileBlock(pr, ss, obj, log);
    }
    StmtInside(pr, s, Inner(nl));
    InsideConcat(pre, StmtCode(pr, s, Inner(nl)));
    assert pre + [] == pre;
  }

  method CompileIf(pr: Prims, s: Stmt, obj: Object, log: Log)
    requires s.If? && Inside(obj.code)
    modifies obj, log
    ensures
      var nl := old(obj.nonLocal);
      Emitted(obj, log, StmtCode(pr, s, Inner(nl)), StmtErr(pr, s, CtxOf(nl), true), StmtErr(pr, s, CtxOf(nl), false))
    decreases s, 2
  {
    hide BlockCode, BlockErr, BoolErr, CasesErr, CtxOf, DefaultStart, ExprErr, ForCode, Inner, Inside, IsConst;
    hide Length, OptCode, OptErr, Patch, ReachesEnd, SetPush, TestsCode;
    ghost var pre, c, x := obj.code, ExprCode(pr, s.test), StmtCode(pr, s.then_, Inner(obj.nonLocal));
    var top := |obj.code|;
    CompileBoolExpr(pr, s.test, obj, log);
    ConstBehind(pre, c);
    if ConstFrom(obj.code, top) {
      var t := obj.code[top].op.constant == TrueVal;
      obj.ResetInst(top);
      if t { CompileStat(pr, s.then_, obj, log); }
      assert pre + [] == pre;
    } else {
      var test := |obj.code|;
      obj.AddInst(OpBranchFalse(0));
      TestInside0(pr, s.test, pre);
      CompileStat(pr, s.then_, obj, log);
      obj.BranchHere(test);
      PatchAt(pre, c, I(OpBranchFalse(0)), I(OpBranchFalse(|x| + 1)), x);
      assert pre + c + [I(OpBranchFalse(0))] + x == pre + (c + [I(OpBranchFalse(0))] + x);
    }
  }

  lemma TestInside0(pr: Prims, e: Expr, pre: Code)
    requires Inside(pre)
    ensures Inside(pre + ExprCode(pr, e) + [I(OpBranchFalse(0))])
  {
    ExprInside(pr, e);
    InsideConcat(pre, ExprCode(pr, e));
    InsideLast(pre + ExprCode(pr, e), I(OpBranchFalse(0)));
  }

  method CompileIfElse(pr: Prims, s: Stmt, obj: Object, log: Log)
    requires s.IfElse? && Inside(obj.code)
    modifies obj, log
    ensures
      var nl := old(obj.nonLocal);
      Emitted(obj, log, StmtCode(pr, s, Inner(nl)), StmtErr(pr, s, CtxOf(nl), true), StmtErr(pr, s, CtxOf(nl), false))
    decreases s, 2
  {
    ghost var pre, c := obj.code, ExprCode(pr, s.test);
    ghost var x, y := StmtCode(pr, s.then_, Inner(obj.nonLocal)), StmtCode(pr, s.else_, Inner(obj.nonLocal));
    var top := |obj.code|;
    CompileBoolExpr(pr, s.test, obj, log);
    ConstBehind(pre, c);
    if ConstFrom(obj.code, top) {
      var t := obj.code[top].op.constant == TrueVal;
      obj.ResetInst(top);
      if t { CompileStat(pr, s.then_, obj, log); } else { CompileStat(pr, s.else_, obj, log); }
    } else {
      TestInside0(pr, s.test, pre);
      CompileArms2(pr, s, obj, log, pre, c);
    }
  }

  /** The arms of a two-way conditional; the branch over the second arm is left out if the first never ends normally. */
  method CompileArms2(pr: Prims, s: Stmt, obj: Object, log: Log, ghost pre: Code, ghost c: Code)
    requires s.IfElse? && obj.code == pre + c && Inside(pre + c + [I(OpBranchFalse(0))])
    modifies obj, log
    ensures
      var nl := old(obj.nonLocal);
      var x, y := StmtCode(pr, s.then_, Inner(nl)), StmtCode(pr, s.else_, Inner(nl));
      var skip := if ReachesEnd(x) then [I(OpBranch(|y| + 1, ModNone))] else [];
      && obj.code == pre + (c + [I(OpBranchFalse(|x| + |skip| + 1))] + x + skip + y)
      && obj.error == (old(obj.error) || StmtErr(pr, s.then_, CtxOf(nl), true) || StmtErr(pr, s.else_, CtxOf(nl), true))
      && log.printed ==
         (old(log.printed) || StmtErr(pr, s.then_, CtxOf(nl), false) || StmtErr(pr, s.else_, CtxOf(nl), false))
      && obj.nonLocal == nl
    decreases s, 1
  {
    hide StmtCode, StmtErr, ReachesEnd, Inside;
    ghost var nl := obj.nonLocal;
    ghost var x, y := StmtCode(pr, s.then_, Inner(nl)), StmtCode(pr, s.else_, Inner(nl));
    var test := |obj.code|;
    obj.AddInst(OpBranchFalse(0));
    ghost var front := obj.code;
    CompileStat(pr, s.then_, obj, log);
    StmtInside(pr, s.then_, Inner(nl));
    WholeObject(front, x);
    var reachable := obj.IsReachable(|obj.code|);
    var middle := |obj.code|;
    if reachable {
      InsideLast(obj.code, I(OpBranch(0, ModNone)));
      obj.AddInst(OpBranch(0, ModNone));
    }
    InsideUpdate(obj.code, test, I(OpBranchFalse(|obj.code| - test)));
    obj.BranchHere(test);
    CompileStat(pr, s.else_, obj, log);
    if reachable { obj.BranchHere(middle); }
    ElseEmitted(pre, c, x, y);
  }

  lemma ElseEmitted(pre: Code, c: Code, x: Code, y: Code)
    ensures
      var bf, br := I(OpBranchFalse(|x| + 2)), I(OpBranch(|y| + 1, ModNone));
      ((pre + c + [I(OpBranchFalse(0))] + x + [I(OpBranch(0, ModNone))])[|pre| + |c| := bf] + y)[|pre| + |c| + 1 +
          |x| := br]
        == pre + (c + [bf] + x + [br] + y)
    ensures
      var bf := I(OpBranchFalse(|x| + 1));
      (pre + c + [I(OpBranchFalse(0))] + x)[|pre| + |c| := bf] + y == pre + (c + [bf] + x + [] + y)
  {
  }

  // ----- loops -----

  /** The body of a loop, from where breaks and continues may leave. */
  method CompileLoopBody(pr: Prims, b: Stmt, obj: Object, log: Log)
    requires Inside(obj.code)
    modifies obj, log
    ensures Emitted(obj, log, StmtCode(pr, b, true), StmtErr(pr, b, Ctx(true, true), true),
      StmtErr(pr, b, Ctx(true, true), false))
    ensures Inside(obj.code)
    decreases b, 4
  {
    obj.nonLocal := Control(true, true, obj.nonLocal);
    CompileStat(pr, b, obj, log);
    obj.nonLocal := obj.nonLocal.prev;
  }

  /** Patching a loop does not touch what follows its body. */
  lemma LoopEmitted(pre: Code, x: Code, tail: Code, brk: Target, cont: Target)
    requires Settled(tail)
    ensures
      var code := pre + x + tail;
      code[..|pre|] + Patch(code[|pre|..], brk, cont) == pre + (Patch(x, brk, cont) + tail)
  {
    var code := pre + x + tail;
    assert code[|pre|..] == x + tail;
  }

  /** The errors of a while statement: those of a constant test are not marked. */
  lemma WhileErrors(pr: Prims, s: Stmt, x: Ctx)
    requires s.While?
    ensures
      var c, bad, body := ExprCode(pr, s.test), BoolErr(pr, s.test), Kept(pr, s.test, true);
      && StmtErr(pr, s, x, true) == ((!IsConst(c) && bad) || (body && StmtErr(pr, s.body, Ctx(true, true), true)))
      && StmtErr(pr, s, x, false) == (bad || (body && StmtErr(pr, s.body, Ctx(true, true), false)))
  {
  }

  /** A loop whose test is true is endless; an error in a constant test is printed but not marked. */
  method CompileWhile(pr: Prims, s: Stmt, obj: Object, log: Log)
    requires s.While? && Inside(obj.code)
    modifies obj, log
    ensures
      var nl := old(obj.nonLocal);
      Emitted(obj, log, StmtCode(pr, s, Inner(nl)), StmtErr(pr, s, CtxOf(nl), true), StmtErr(pr, s, CtxOf(nl), false))
    decreases s, 2
  {
    hide ArmsCode, BlockCode, BoolErr, CtxOf, DefaultStart, ForCode, I, Inner, Inside, Length, OptCode, Patch;
    hide ReachesEnd, SetPush, StmtErr, TestsCode;
    WhileErrors(pr, s, CtxOf(obj.nonLocal));
    hide Inside, Patch, StmtErr, BoolErr;
    ghost var pre, c := obj.code, ExprCode(pr, s.test);
    var cobj := new Object();
    CompileBoolExpr(pr, s.test, cobj, log);
    assert cobj.code == c;
    if ConstFrom(cobj.code, 0) {
      if cobj.code[0].op.constant == TrueVal {
        CompileEndless(pr, s.body, obj, log);
      } else {
        assert pre + [] == pre;
      }
    } else {
      CompileTested(pr, s, cobj, obj, log);
    }
  }

  /** A body and a branch back to it. */
  method CompileEndless(pr: Prims, b: Stmt, obj: Object, log: Log)
    requires Inside(obj.code)
    modifies obj, log
    ensures
      var x := StmtCode(pr, b, true);
      Emitted(obj, log, Patch(x, At(|x| + 1), At(|x|)) + [I(OpBranch(-|x|, ModNone))],
              StmtErr(pr, b, Ctx(true, true), true), StmtErr(pr, b, Ctx(true, true), false))
    decreases b, 5
  {
    hide Inside, Patch, StmtCode, StmtErr;
    ghost var pre, x := obj.code, StmtCode(pr, b, true);
    var top := |obj.code|;
    CompileLoopBody(pr, b, obj, log);
    var cont := |obj.code|;
    obj.AddInst(OpBranch(top - |obj.code|, ModNone));
    obj.PatchLoop(top, At(cont), |obj.code|);
    LoopEmitted(pre, x, [I(OpBranch(-|x|, ModNone))], At(|x| + 1), At(|x|));
  }

  /** A branch to the test, the body, the test that has been compiled into `cobj`, a branch back to the body. */
  method CompileTested(pr: Prims, s: Stmt, cobj: Object, obj: Object, log: Log)
    requires s.While? && Inside(obj.code) && cobj != obj && cobj.code == ExprCode(pr, s.test)
    modifies obj, log
    ensures
      var x, c := StmtCode(pr, s.body, true), cobj.code;
      Emitted(obj, log,
        [I(OpBranch(|x| + 1, ModNone))] + Patch(x, At(|x| + |c| + 1), At(|x|)) + c + [I(OpBranchTrue(-(|x| + |c|)))],
        cobj.error || StmtErr(pr, s.body, Ctx(true, true), true), StmtErr(pr, s.body, Ctx(true, true), false))
    decreases s, 1
  {
    hide Patch, StmtCode, StmtErr;
    ghost var pre, c, x := obj.code, ExprCode(pr, s.test), StmtCode(pr, s.body, true);
    var start := |obj.code|;
    InsideLast(pre, I(OpBranch(0, ModNone)));
    hide Inside;
    obj.AddInst(OpBranch(0, ModNone));
    var top := |obj.code|;
    CompileLoopBody(pr, s.body, obj, log);
    var cont := |obj.code|;
    obj.BranchHere(start);
    obj.AppendObj(cobj);
    obj.AddInst(OpBranchTrue(top - |obj.code|));
    ExprSettled(pr, s.test);
    WhileEmitted(pre, c, x);
    obj.PatchLoop(top, At(cont), |obj.code|);
  }

  lemma WhileEmitted(pre: Code, c: Code, x: Code)
    requires Settled(c)
    ensures
      var entry, back := I(OpBranch(|x| + 1, ModNone)), I(OpBranchTrue(-(|x| + |c|)));
      var code := (pre + [I(OpBranch(0, ModNone))] + x)[|pre| := entry] + c + [back];
      code[..|pre| + 1] + Patch(code[|pre| + 1..], At(|x| + |c| + 1), At(|x|)) ==
        pre + ([entry] + Patch(x, At(|x| + |c| + 1), At(|x|)) + c + [back])
  {
    var entry, back := I(OpBranch(|x| + 1, ModNone)), I(OpBranchTrue(-(|x| + |c|)));
    var code := (pre + [I(OpBranch(0, ModNone))] + x)[|pre| := entry] + c + [back];
    assert code == (pre + [entry]) + x + (c + [back]);
    LoopEmitted(pre + [entry], x, c + [back], At(|x| + |c| + 1), At(|x|));
    var body := Patch(x, At(|x| + |c| + 1), At(|x|));
    assert (pre + [entry]) + (body + (c + [back])) == pre + ([entry] + body + c + [back]);
  }

  method CompileDo(pr: Prims, s: Stmt, obj: Object, log: Log)
    requires s.DoWhile? && Inside(obj.code)
    modifies obj, log
    ensures
      var nl := old(obj.nonLocal);
      Emitted(obj, log, StmtCode(pr, s, Inner(nl)), StmtErr(pr, s, CtxOf(nl), true), StmtErr(pr, s, CtxOf(nl), false))
    decreases s, 2
  {
    hide Inside, Patch, ExprCode, ExprErr, BlockCode;
    ghost var pre, c, x := obj.code, ExprCode(pr, s.test), StmtCode(pr, s.body, true);
    var top := |obj.code|;
    CompileLoopBody(pr, s.body, obj, log);
    var cont := |obj.code|;
    CompileBoolExpr(pr, s.test, obj, log);
    ConstBehind(pre + x, c);
    ghost var test;
    if ConstFrom(obj.code, cont) {
      var t := obj.code[cont].op.constant == TrueVal;
      obj.ResetInst(cont);
      assert obj.code == pre + x;
      if t { obj.AddInst(OpBranch(top - |obj.code|, ModNone)); }
      test := if t then [I(OpBranch(-|x|, ModNone))] else [];
    } else {
      obj.AddInst(OpBranchTrue(top - |obj.code|));
      test := c + [I(OpBranchTrue(-(|x| + |c|)))];
    }
    ExprSettled(pr, s.test);
    assert obj.code == pre + x + test;
    obj.PatchLoop(top, At(cont), |obj.code|);
    LoopEmitted(pre, x, test, At(|x| + |test|), At(|x|));
  }

  method CompileFor(pr: Prims, s: Stmt, obj: Object, log: Log)
    requires s.For? && Inside(obj.code)
    modifies obj, log
    ensures
      var nl := old(obj.nonLocal);
      Emitted(obj, log, StmtCode(pr, s, Inner(nl)), StmtErr(pr, s, CtxOf(nl), true), StmtErr(pr, s, CtxOf(nl), false))
    decreases s, 2
  {
    ghost var pre, i := obj.code, OptCode(pr, s.init);
    if s.init.Some? {
      CompileExpr(pr, s.init.value, obj, log);
      ExprInside(pr, s.init.value);
    }
    assert pre + [] == pre;
    InsideConcat(pre, i);
    CompileForLoop(pr, s, obj, log);
    Join(pre, i, ForCode(OptCode(pr, s.cond), OptCode(pr, s.step), StmtCode(pr, s.body, true), s.cond.Some?));
  }

  /** Errors of the parts of a for statement that repeat. */
  ghost predicate ForErr(pr: Prims, s: Stmt, flag: bool)
    requires s.For?
  {
    (s.cond.Some? && BoolErr(pr, s.cond.value)) || OptErr(pr, s.step) || StmtErr(pr, s.body, Ctx(true, true), flag)
  }

  method CompileForLoop(pr: Prims, s: Stmt, obj: Object, log: Log)
    requires s.For? && Inside(obj.code)
    modifies obj, log
    ensures Emitted(obj, log,
      ForCode(OptCode(pr, s.cond), OptCode(pr, s.step), StmtCode(pr, s.body, true), s.cond.Some?),
      ForErr(pr, s, true), ForErr(pr, s, false))
    decreases s, 1
  {
    ghost var pre, x := obj.code, StmtCode(pr, s.body, true);
    ghost var c, n := OptCode(pr, s.cond), OptCode(pr, s.step);
    var start := |obj.code|;
    var bobj := new Object();
    if s.cond.Some? {
      CompileBoolExpr(pr, s.cond.value, bobj, log);
      ExprSettled(pr, s.cond.value);
      InsideLast(pre, I(OpBranch(0, ModNone)));
      obj.AddInst(OpBranch(0, ModNone));
    }
    var cobj := new Object();
    if s.step.Some? {
      CompileExpr(pr, s.step.value, cobj, log);
      ExprSettled(pr, s.step.value);
    }
    assert bobj.code == c && cobj.code == n;
    CompileForBody(pr, s, start, bobj, cobj, obj, log, pre);
  }

  /** The body of a for statement and the code glued behind it: `cobj` is the step, `bobj` the test. */
  method CompileForBody(pr: Prims, s: Stmt, start: nat, bobj: Object, cobj: Object, obj: Object, log: Log,
      ghost pre: Code)
    requires s.For? && Inside(obj.code) && start == |pre| && bobj != obj && cobj != obj
    requires obj.code == pre + if s.cond.Some? then [I(OpBranch(0, ModNone))] else []
    requires bobj.code == OptCode(pr, s.cond) && cobj.code == OptCode(pr, s.step)
    requires Settled(bobj.code) && Settled(cobj.code)
    modifies obj, log
    ensures obj.code == pre + ForCode(OptCode(pr, s.cond), OptCode(pr, s.step), StmtCode(pr, s.body, true),
      s.cond.Some?)
    ensures obj.error == (old(obj.error) || (s.cond.Some? && bobj.error) || cobj.error ||
      StmtErr(pr, s.body, Ctx(true, true), true))
    ensures log.printed == (old(log.printed) || StmtErr(pr, s.body, Ctx(true, true), false))
    ensures obj.nonLocal == old(obj.nonLocal)
    decreases s, 0
  {
    hide StmtCode, StmtErr, ReachesEnd;
    hide Inside, Patch;
    ghost var x, c, n := StmtCode(pr, s.body, true), bobj.code, cobj.code;
    var top := |obj.code|;
    CompileLoopBody(pr, s.body, obj, log);
    var cont := |obj.code|;
    obj.AppendObj(cobj);
    if s.cond.Some? {
      GlueTest(start, top, cont, bobj, obj, log, pre, x, n);
    } else {
      assert pre + [] == pre;
      ghost var back := [I(OpBranch(-(|x| + |n|), ModNone))];
      obj.AddInst(OpBranch(top - |obj.code|, ModNone));
      Join(pre + x, n, back);
      obj.PatchLoop(top, At(cont), |obj.code|);
      LoopEmitted(pre, x, n + back, At(|x| + |n| + 1), At(|x|));
      Join(Patch(x, At(|x| + |n| + 1), At(|x|)), n, back);
    }
  }

  /** The test of a for statement behind body `x` and step `n`; a constant test is no longer needed. */
  method GlueTest(start: nat, top: nat, cont: nat, bobj: Object, obj: Object, log: Log,
                  ghost pre: Code, ghost x: Code, ghost n: Code)
    requires bobj != obj && Settled(bobj.code) && Settled(n)
    requires start == |pre| && top == start + 1 && cont == top + |x|
    requires obj.code == pre + [I(OpBranch(0, ModNone))] + x + n
    modifies obj`code, obj`error
    ensures obj.code == pre + ForCode(bobj.code, n, x, true) && obj.error == (old(obj.error) || bobj.error)
  {
    hide IsConst, Patch, Settled;
    ghost var c := bobj.code;
    var middle := |obj.code|;
    obj.AppendObj(bobj);
    ConstBehind(pre + [I(OpBranch(0, ModNone))] + x + n, c);
    hide Patch, Settled;
    if ConstFrom(obj.code, middle) {
      var t := obj.code[middle].op.constant == TrueVal;
      obj.ResetInst(middle);
      if t {
        obj.AddInst(OpBranch(top - |obj.code|, ModNone));
        obj.SetOffset(start, middle - start);
        TailEmitted(pre, x, n, [], I(OpBranch(-(|x| + |n|), ModNone)));
        obj.PatchLoop(top, At(cont), |obj.code|);
      } else {
        obj.ResetInst(start);  // the whole statement is deleted
        assert obj.code == pre == pre + [];
      }
    } else {
      obj.AddInst(OpBranchTrue(top - |obj.code|));
      obj.SetOffset(start, middle - start);
      TailEmitted(pre, x, n, c, I(OpBranchTrue(-(|x| + |n| + |c|))));
      obj.PatchLoop(top, At(cont), |obj.code|);
    }
  }

  lemma TailEmitted(pre: Code, x: Code, n: Code, c: Code, back: Inst)
    requires Settled(c) && Settled(n) && (back.op.OpBranch? ==> back.op.mod == ModNone)
    ensures
      var entry, brk, cont := I(OpBranch(|x| + |n| + 1, ModNone)), At(|x| + |n| + |c| + 1), At(|x|);
      var code := (pre + [I(OpBranch(0, ModNone))] + x + n + c + [back])[|pre| := entry];
      code[..|pre| + 1] + Patch(code[|pre| + 1..], brk, cont) == pre + ([entry] + Patch(x, brk, cont) + n + c + [back])
    ensures pre + [I(OpBranch(0, ModNone))] + x + n + [] + [back] == pre + [I(OpBranch(0, ModNone))] + x + n + [back]
    ensures
      var entry, body := I(OpBranch(|x| + |n| + 1, ModNone)), Patch(x, At(|x| + |n| + |c| + 1), At(|x|));
      [entry] + body + n + [] + [back] == [entry] + body + n + [back]
  {
    var entry, brk, cont := I(OpBranch(|x| + |n| + 1, ModNone)), At(|x| + |n| + |c| + 1), At(|x|);
    var code := (pre + [I(OpBranch(0, ModNone))] + x + n + c + [back])[|pre| := entry];
    assert code == (pre + [entry]) + x + (n + c + [back]);
    LoopEmitted(pre + [entry], x, n + c + [back], brk, cont);
    var body := Patch(x, brk, cont);
    assert (pre + [entry]) + (body + (n + c + [back])) == pre + ([entry] + body + n + c + [back]);
  }

  method CompileReturn(pr: Prims, s: Stmt, obj: Object, log: Log)
    requires s.Return?
    modifies obj, log
    ensures
      var nl := old(obj.nonLocal);
      Emitted(obj, log, StmtCode(pr, s, Inner(nl)), StmtErr(pr, s, CtxOf(nl), true), StmtErr(pr, s, CtxOf(nl), false))
    decreases s, 2
  {
    ghost var pre := obj.code;
    var e := s.result;
    NonEmpty(pr, e);
    if e.Call? && e.typed && obj.nonLocal.NoNonLocal? {
      CompileCall(pr, e.fn, e.args, true, obj, log, e);
    } else {
      CompileExpr(pr, e, obj, log);
      obj.AddInst(Op.OpReturn);
      Join(pre, ExprCode(pr, e), [I(Op.OpReturn)]);
    }
  }

  method CompileBlock(pr: Prims, ss: Stmts, obj: Object, log: Log)
    requires Inside(obj.code)
    modifies obj, log
    ensures
      var nl := old(obj.nonLocal);
      Emitted(obj, log, BlockCode(pr, ss, Inner(nl)), BlockErr(pr, ss, CtxOf(nl), true),
          BlockErr(pr, ss, CtxOf(nl), false))
    ensures Inside(obj.code)
    decreases ss, 0
  {
    var rest := ss;
    ghost var pre, nl := obj.code, obj.nonLocal;
    while rest.Cons?
      invariant rest == ss || rest < ss
      invariant obj.code + BlockCode(pr, rest, Inner(nl)) == pre + BlockCode(pr, ss, Inner(nl))
      invariant (obj.error || BlockErr(pr, rest, CtxOf(nl), true)) ==
        (old(obj.error) || BlockErr(pr, ss, CtxOf(nl), true))
      invariant (log.printed || BlockErr(pr, rest, CtxOf(nl), false)) ==
        (old(log.printed) || BlockErr(pr, ss, CtxOf(nl), false))
      invariant obj.nonLocal == nl && Inside(obj.code)
      decreases rest
    {
      ghost var before := obj.code;
      CompileStat(pr, rest.hd, obj, log);
      Join(before, StmtCode(pr, rest.hd, Inner(nl)), BlockCode(pr, rest.tl, Inner(nl)));
      rest := rest.tl;
    }
    assert obj.code + [] == obj.code;
  }

  // ----- switch -----

  /** The comparisons of a switch while their targets are not yet known. */
  function PendingTests(pr: Prims, cs: Cases): Code {
    match cs
    case NoCases => []
    case Arm(l, _, rest) =>
      if l.None? then PendingTests(pr, rest) else ExprCode(pr, l.value) + [I(OpCase(0))] + PendingTests(pr, rest)
  }

  lemma {:induction false} PendingLength(pr: Prims, cs: Cases, start: nat)
    ensures |PendingTests(pr, cs)| == |TestsCode(pr, cs, start)|
    decreases cs
  {
    match cs
    case NoCases =>
    case Arm(_, b, rest) => PendingLength(pr, rest, start + |BlockCode(pr, b, true)|);
  }

  lemma {:induction false} PendingInside(pr: Prims, cs: Cases)
    ensures Inside(PendingTests(pr, cs))
  {
    match cs
    case NoCases =>
    case Arm(l, _, rest) =>
      PendingInside(pr, rest);
      if l.Some? {
        ExprInside(pr, l.value);
        InsideBranch(ExprCode(pr, l.value), I(OpCase(0)), PendingTests(pr, rest));
      }
  }

  /** Where the comparisons stand if the first label starts at `at`. */
  function CasePlaces(pr: Prims, cs: Cases, at: nat): seq<nat> {
    match cs
    case NoCases => []
    case Arm(l, _, rest) =>
      if l.None? then CasePlaces(pr, rest, at)
      else
        var i := at + |ExprCode(pr, l.value)|;
        [i] + CasePlaces(pr, rest, i + 1)
  }

  predicate LabelsErr(pr: Prims, cs: Cases) {
    match cs
    case NoCases => false
    case Arm(l, _, rest) => OptErr(pr, l) || LabelsErr(pr, rest)
  }

  predicate ArmsErr(pr: Prims, cs: Cases, x: Ctx, flag: bool) {
    match cs
    case NoCases => false
    case Arm(_, b, rest) => BlockErr(pr, b, x, flag) || ArmsErr(pr, rest, x, flag)
  }

  lemma {:induction false} SplitErrors(pr: Prims, cs: Cases, x: Ctx, flag: bool)
    ensures CasesErr(pr, cs, x, flag) == (LabelsErr(pr, cs) || ArmsErr(pr, cs, x, flag))
  {
    match cs
    case NoCases =>
    case Arm(_, _, rest) => SplitErrors(pr, rest, x, flag);
  }

  method CompileSwitch(pr: Prims, s: Stmt, obj: Object, log: Log)
    requires s.Switch? && Inside(obj.code)
    modifies obj, log
    ensures
      var nl := old(obj.nonLocal);
      Emitted(obj, log, StmtCode(pr, s, Inner(nl)), StmtErr(pr, s, CtxOf(nl), true), StmtErr(pr, s, CtxOf(nl), false))
    decreases s, 2
  {
    hide ArmsErr, BlockCode, BlockErr, BoolErr, CasePlaces, CasesErr, DefaultStart, ExprErr, ForCode, In, Inside;
    hide IsConst, IsTrue, Kept, LabelsErr, Length, OptCode, OptErr, Patch, PendingTests, ReachesEnd, SetPush;
    hide TestsCode;
    hide Inside, Patch;
    ghost var pre, c, nl := obj.code, ExprCode(pr, s.subject), obj.nonLocal;
    CompileExpr(pr, s.subject, obj, log);
    NonEmpty(pr, s.subject);
    obj.SetPushFlag();
    PushBehind(pre, c);
    ghost var head := pre + SetPush(c);
    ExprInside(pr, s.subject);
    InsidePush(c);
    InsideConcat(pre, SetPush(c));
    var caseInst := CompileTests(pr, s.cases, obj, log);
    PendingInside(pr, s.cases);
    InsideConcat(head, PendingTests(pr, s.cases));
    InsideLast(obj.code, I(OpDefault(0)));
    var test := |obj.code|;
    obj.AddInst(OpDefault(0));
    var top := |obj.code|;
    obj.nonLocal := Control(true, false, obj.nonLocal);
    CompileCases(pr, s.cases, caseInst, test, obj, log, head);
    obj.nonLocal := obj.nonLocal.prev;
    ghost var tests, bodies := TestsCode(pr, s.cases, 0), ArmsCode(pr, s.cases);
    PendingLength(pr, s.cases, 0);
    obj.PatchLoop(top, Keep, |obj.code|);
    SwitchEmitted(pre, SetPush(c), tests, I(OpDefault(1 + DefaultStart(pr, s.cases))), bodies);
    SplitErrors(pr, s.cases, CtxOf(nl).(brk := true), true);
    SplitErrors(pr, s.cases, CtxOf(nl).(brk := true), false);
  }

  lemma SwitchEmitted(pre: Code, c: Code, tests: Code, dflt: Inst, bodies: Code)
    ensures
      var code, top := pre + c + tests + [dflt] + bodies, |pre| + |c| + |tests| + 1;
      code[..top] + Patch(code[top..], At(|bodies|), Keep) ==
          pre + (c + tests + [dflt] + Patch(bodies, At(|bodies|), Keep))
  {
    var code, top := pre + c + tests + [dflt] + bodies, |pre| + |c| + |tests| + 1;
    assert code[top..] == bodies && code[..top] == pre + c + tests + [dflt];
  }

  /** The comparisons of a switch, in order. */
  method CompileTests(pr: Prims, cs: Cases, obj: Object, log: Log) returns (caseInst: seq<nat>)
    modifies obj, log
    ensures Emitted(obj, log, PendingTests(pr, cs), LabelsErr(pr, cs), LabelsErr(pr, cs))
    ensures caseInst == CasePlaces(pr, cs, |old(obj.code)|)
    decreases cs, 1
  {
    hide ExprErr, ExprCode;
    var c := cs;
    caseInst := [];
    ghost var pre := obj.code;
    while c.Arm?
      invariant c == cs || c < cs
      invariant obj.code + PendingTests(pr, c) == pre + PendingTests(pr, cs)
      invariant caseInst + CasePlaces(pr, c, |obj.code|) == CasePlaces(pr, cs, |pre|)
      invariant (obj.error || LabelsErr(pr, c)) == (old(obj.error) || LabelsErr(pr, cs))
      invariant (log.printed || LabelsErr(pr, c)) == (old(log.printed) || LabelsErr(pr, cs))
      invariant obj.nonLocal == old(obj.nonLocal)
      decreases c
    {
      if c.labelled.Some? {
        ghost var before := obj.code;
        CompileExpr(pr, c.labelled.value, obj, log);
        caseInst := caseInst + [|obj.code|];
        obj.AddInst(OpCase(0));
        assert obj.code + PendingTests(pr, c.rest) == before + PendingTests(pr, c);
      }
      c := c.rest;
    }
    assert obj.code + [] == obj.code && caseInst + [] == caseInst;
  }

  /**
   * What stands in the object while the arms of a switch are compiled: `tests` are the comparisons
   * with targets, those of `rest` have none yet, and `bodies` are the arms so far.
   */
  ghost predicate Laid(pr: Prims, rest: Cases, code: Code, head: Code, tests: Code, off: int, bodies: Code) {
    code == head + tests + PendingTests(pr, rest) + [I(OpDefault(off))] + bodies
  }

  /** The arms still to be compiled, the first of which will start at `start`, complete the switch `cs`. */
  ghost predicate Completes(pr: Prims, cs: Cases, rest: Cases, start: nat, tests: Code, off: int, open: bool) {
    && tests + TestsCode(pr, rest, start) == TestsCode(pr, cs, 0)
    && (if open then off == 0 && start + DefaultStart(pr, rest) == DefaultStart(pr, cs)
      else off == 1 + DefaultStart(pr, cs))
  }

  lemma NoArmsLaid(pr: Prims, cs: Cases, code: Code, head: Code)
    requires code == head + PendingTests(pr, cs) + [I(OpDefault(0))]
    ensures Laid(pr, cs, code, head, [], 0, []) && Completes(pr, cs, cs, 0, [], 0, true)
  {
    assert head + [] == head && code + [] == code;
  }

  lemma ArmFirst(pr: Prims, c: Cases, x: Ctx)
    requires c.Arm?
    ensures ArmsCode(pr, c) == BlockCode(pr, c.body, true) + ArmsCode(pr, c.rest)
    ensures forall flag :: ArmsErr(pr, c, x, flag) == (BlockErr(pr, c.body, x, flag) || ArmsErr(pr, c.rest, x, flag))
  {
  }

  lemma NoArmLeft(pr: Prims, x: Ctx)
    ensures ArmsCode(pr, NoCases) == [] && forall flag :: !ArmsErr(pr, NoCases, x, flag)
  {
  }

  /** All arms, one after the other; the default may still be open. */
  method CompileAllArms(pr: Prims, cs: Cases, caseInst: seq<nat>, test: nat, obj: Object, log: Log, ghost head: Code)
    returns (open: bool, ghost tests: Code, ghost off: int)
    requires obj.code == head + PendingTests(pr, cs) + [I(OpDefault(0))] && Inside(obj.code)
    requires caseInst == CasePlaces(pr, cs, |head|) && test == |obj.code| - 1
    requires Inner(obj.nonLocal)
    modifies obj, log
    ensures Laid(pr, NoCases, obj.code, head, tests, off, ArmsCode(pr, cs))
    ensures Completes(pr, cs, NoCases, |ArmsCode(pr, cs)|, tests, off, open)
    ensures test == |head| + |tests| + |PendingTests(pr, NoCases)|
    ensures obj.error == (old(obj.error) || ArmsErr(pr, cs, CtxOf(obj.nonLocal), true))
    ensures log.printed == (old(log.printed) || ArmsErr(pr, cs, CtxOf(obj.nonLocal), false))
    ensures obj.nonLocal == old(obj.nonLocal) && Inside(obj.code)
    decreases cs, 1
  {
    hide ArmsCode, ArmsErr, BlockCode, BlockErr, CasePlaces, Completes, CtxOf, DefaultStart, Inner, Inside, Laid,
      PendingTests, TestsCode;
    var c := cs;
    open := true;
    var icase: nat := 0;
    ghost var x := CtxOf(obj.nonLocal);
    ghost var bodies: Code := [];
    tests, off := [], 0;
    NoArmsLaid(pr, cs, obj.code, head);
    assert [] + ArmsCode(pr, cs) == ArmsCode(pr, cs);
    while c.Arm?
      invariant c == cs || c < cs
      invariant Laid(pr, c, obj.code, head, tests, off, bodies)
      invariant Completes(pr, cs, c, |bodies|, tests, off, open)
      invariant bodies + ArmsCode(pr, c) == ArmsCode(pr, cs)
      invariant icase <= |caseInst| && caseInst[icase..] == CasePlaces(pr, c, |head| + |tests|)
      invariant test == |head| + |tests| + |PendingTests(pr, c)|
      invariant (obj.error || ArmsErr(pr, c, x, true)) == (old(obj.error) || ArmsErr(pr, cs, x, true))
      invariant (log.printed || ArmsErr(pr, c, x, false)) == (old(log.printed) || ArmsErr(pr, cs, x, false))
      invariant obj.nonLocal == old(obj.nonLocal) && Inside(obj.code)
      decreases c
    {
      ArmFirst(pr, c, x);
      ghost var b := BlockCode(pr, c.body, true);
      icase, open, tests, off :=
        CompileArm(pr, cs, c, caseInst, icase, test, open, obj, log, head, tests, off, bodies);
      Join(bodies, b, ArmsCode(pr, c.rest));
      bodies := bodies + b;
      c := c.rest;
    }
    NoArmLeft(pr, x);
    assert bodies + [] == bodies;
  }

  /** The arms of a switch; each comparison and the default get their targets when their arm is reached. */
  method CompileCases(pr: Prims, cs: Cases, caseInst: seq<nat>, test: nat, obj: Object, log: Log, ghost head: Code)
    requires obj.code == head + PendingTests(pr, cs) + [I(OpDefault(0))] && Inside(obj.code)
    requires caseInst == CasePlaces(pr, cs, |head|) && test == |obj.code| - 1
    requires Inner(obj.nonLocal)
    modifies obj, log
    ensures obj.code == head + TestsCode(pr, cs, 0) + [I(OpDefault(1 + DefaultStart(pr, cs)))] + ArmsCode(pr, cs)
    ensures obj.error == (old(obj.error) || ArmsErr(pr, cs, CtxOf(obj.nonLocal), true))
    ensures log.printed == (old(log.printed) || ArmsErr(pr, cs, CtxOf(obj.nonLocal), false))
    ensures obj.nonLocal == old(obj.nonLocal)
    decreases cs, 2
  {
    hide ArmsCode, ArmsErr, BlockCode, BlockErr, CasePlaces, Completes, CtxOf, DefaultStart, Inner, Inside, Laid,
      PendingTests, TestsCode;
    ghost var tests, off;
    var open;
    open, tests, off := CompileAllArms(pr, cs, caseInst, test, obj, log, head);
    AllLaid(pr, cs, obj.code, head, tests, off, open, ArmsCode(pr, cs));
    if open { obj.BranchHere(test); }
  }

  lemma BodyLaid(pr: Prims, rest: Cases, code: Code, head: Code, tests: Code, off: int, bodies: Code, b: Code)
    requires Laid(pr, rest, code, head, tests, off, bodies)
    ensures Laid(pr, rest, code + b, head, tests, off, bodies + b)
  {
    Join(head + tests + PendingTests(pr, rest) + [I(OpDefault(off))], bodies, b);
  }

  /** All arms are compiled; a switch without a default goes to its end. */
  lemma AllLaid(pr: Prims, cs: Cases, code: Code, head: Code, tests: Code, off: int, open: bool, bodies: Code)
    requires Laid(pr, NoCases, code, head, tests, off, bodies) && Completes(pr, cs, NoCases, |bodies|, tests, off, open)
    ensures
      var at, last := |head| + |tests|, I(OpDefault(1 + DefaultStart(pr, cs)));
      && PendingTests(pr, NoCases) == [] && at < |code|
      && code[at] == I(OpDefault(off))
      && (if open then code[at := last] else code) == head + TestsCode(pr, cs, 0) + [last] + bodies
      && (open ==> |code| - at == 1 + DefaultStart(pr, cs))
  {
    assert tests + [] == tests && head + tests + [] == head + tests;
    DefaultPatched(head + tests, I(OpDefault(off)), I(OpDefault(1 + DefaultStart(pr, cs))), bodies);
  }

  /** Give the comparison of an arm its start, and compile the arm behind the others. */
  method CompileArm(pr: Prims, ghost cs: Cases, c: Cases, caseInst: seq<nat>, icase: nat, test: nat, open: bool,
      obj: Object, log: Log, ghost head: Code, ghost tests: Code, ghost off: int, ghost bodies: Code)
    returns (icase1: nat, open1: bool, ghost tests1: Code, ghost off1: int)
    requires c.Arm? && Inside(obj.code) && Inner(obj.nonLocal)
    requires Laid(pr, c, obj.code, head, tests, off, bodies) && Completes(pr, cs, c, |bodies|, tests, off, open)
    requires icase <= |caseInst| && caseInst[icase..] == CasePlaces(pr, c, |head| + |tests|)
    requires test == |head| + |tests| + |PendingTests(pr, c)|
    modifies obj, log
    ensures
      var b := BlockCode(pr, c.body, true);
      && Laid(pr, c.rest, obj.code, head, tests1, off1, bodies + b)
      && Completes(pr, cs, c.rest, |bodies + b|, tests1, off1, open1)
    ensures icase1 <= |caseInst| && caseInst[icase1..] == CasePlaces(pr, c.rest, |head| + |tests1|)
    ensures test == |head| + |tests1| + |PendingTests(pr, c.rest)|
    ensures obj.error == (old(obj.error) || BlockErr(pr, c.body, CtxOf(obj.nonLocal), true))
    ensures log.printed == (old(log.printed) || BlockErr(pr, c.body, CtxOf(obj.nonLocal), false))
    ensures obj.nonLocal == old(obj.nonLocal) && Inside(obj.code)
    decreases c, 0
  {
    hide BlockCode, BlockErr, CasePlaces, Completes, CtxOf, Inner, Inside, Laid, PendingTests;
    icase1, open1, tests1, off1 := TargetArm(pr, cs, c, caseInst, icase, test, open, obj, head, tests, off, bodies);
    ghost var code, b := obj.code, BlockCode(pr, c.body, true);
    CompileBlock(pr, c.body, obj, log);
    BodyLaid(pr, c.rest, code, head, tests1, off1, bodies, b);
  }

  /** The comparison or the default that leads to the arm about to be compiled gets its target. */
  method TargetArm(pr: Prims, ghost cs: Cases, c: Cases, caseInst: seq<nat>, icase: nat, test: nat, open: bool,
      obj: Object, ghost head: Code, ghost tests: Code, ghost off: int, ghost bodies: Code)
    returns (icase1: nat, open1: bool, ghost tests1: Code, ghost off1: int)
    requires c.Arm? && Inside(obj.code)
    requires Laid(pr, c, obj.code, head, tests, off, bodies) && Completes(pr, cs, c, |bodies|, tests, off, open)
    requires icase <= |caseInst| && caseInst[icase..] == CasePlaces(pr, c, |head| + |tests|)
    requires test == |head| + |tests| + |PendingTests(pr, c)|
    modifies obj`code
    ensures Inside(obj.code) && Laid(pr, c.rest, obj.code, head, tests1, off1, bodies)
    ensures Completes(pr, cs, c.rest, |bodies| + |BlockCode(pr, c.body, true)|, tests1, off1, open1)
    ensures icase1 <= |caseInst| && caseInst[icase1..] == CasePlaces(pr, c.rest, |head| + |tests1|)
    ensures test == |head| + |tests1| + |PendingTests(pr, c.rest)|
  {
    icase1, open1, tests1, off1 := icase, open, tests, off;
    hide Laid, Completes, Inside, PendingTests;
    if c.labelled.Some? {
      tests1 := LabelLaid(pr, cs, c, obj.code, head, tests, off, open, bodies);
      assert caseInst[icase..][0] == caseInst[icase];
      assert caseInst[icase + 1..] == caseInst[icase..][1..];
      obj.BranchHere(caseInst[icase]);
      icase1 := icase + 1;
    } else if open {
      DefaultLaid(pr, cs, c, obj.code, head, tests, off, bodies);
      obj.BranchHere(test);
      off1 := 1 + |bodies|;
      open1 := false;
    } else {
      NothingLaid(pr, cs, c, obj.code, head, tests, off, bodies);
    }
  }

  /** The comparison of the next arm gets its target. */
  lemma LabelLaid(pr: Prims, cs: Cases, c: Cases, code: Code, head: Code, tests: Code, off: int, open: bool,
      bodies: Code)
    returns (next: Code)
    requires c.Arm? && c.labelled.Some? && Inside(code)
    requires Laid(pr, c, code, head, tests, off, bodies) && Completes(pr, cs, c, |bodies|, tests, off, open)
    ensures
      var at := |head| + |tests| + |ExprCode(pr, c.labelled.value)|;
      var code1 := code[at := I(OpCase(|code| - at))];
      && at < |code| && code[at] == I(OpCase(0)) && Inside(code1)
      && |next| == |tests| + |ExprCode(pr, c.labelled.value)| + 1
      && |PendingTests(pr, c)| == |ExprCode(pr, c.labelled.value)| + 1 + |PendingTests(pr, c.rest)|
      && Laid(pr, c.rest, code1, head, next, off, bodies)
      && Completes(pr, cs, c.rest, |bodies| + |BlockCode(pr, c.body, true)|, next, off, open)
  {
    var e, more := ExprCode(pr, c.labelled.value), PendingTests(pr, c.rest);
    var start := |bodies| + |BlockCode(pr, c.body, true)|;
    var at := |head| + |tests| + |e|;
    var i := I(OpCase(|code| - at));
    PendingLength(pr, c.rest, start);
    next := tests + e + [i];
    InsideUpdate(code, at, i);
    assert tests + (e + [i] + TestsCode(pr, c.rest, start)) == next + TestsCode(pr, c.rest, start);
    assert code == head + tests + (e + [I(OpCase(0))] + more) + [I(OpDefault(off))] + bodies;
    LabelPatched(head, tests, e, more, [I(OpDefault(off))] + bodies, i);
    assert code == head + tests + (e + [I(OpCase(0))] + more) + ([I(OpDefault(off))] + bodies);
    assert head + next + more + ([I(OpDefault(off))] + bodies) == head + next + more + [I(OpDefault(off))] + bodies;
  }

  lemma LabelPatched(head: Code, tests: Code, e: Code, more: Code, tail: Code, i: Inst)
    ensures
      var code, at := head + tests + (e + [I(OpCase(0))] + more) + tail, |head| + |tests| + |e|;
      code[at] == I(OpCase(0)) && code[at := i] == head + (tests + e + [i]) + more + tail
  {
  }

  /** The first default gets its target. */
  lemma DefaultLaid(pr: Prims, cs: Cases, c: Cases, code: Code, head: Code, tests: Code, off: int, bodies: Code)
    requires c.Arm? && c.labelled.None? && Inside(code)
    requires Laid(pr, c, code, head, tests, off, bodies) && Completes(pr, cs, c, |bodies|, tests, off, true)
    ensures
      var at := |head| + |tests| + |PendingTests(pr, c)|;
      var code1 := code[at := I(OpDefault(1 + |bodies|))];
      && at < |code| && code[at] == I(OpDefault(off)) && |code| - at == 1 + |bodies| && Inside(code1)
      && PendingTests(pr, c) == PendingTests(pr, c.rest)
      && Laid(pr, c.rest, code1, head, tests, 1 + |bodies|, bodies)
      && Completes(pr, cs, c.rest, |bodies| + |BlockCode(pr, c.body, true)|, tests, 1 + |bodies|, false)
  {
    var at := |head| + |tests| + |PendingTests(pr, c)|;
    InsideUpdate(code, at, I(OpDefault(1 + |bodies|)));
    hide Inside;
    DefaultPatched(head + tests + PendingTests(pr, c), I(OpDefault(off)), I(OpDefault(1 + |bodies|)), bodies);
  }

  lemma DefaultPatched(front: Code, i: Inst, j: Inst, tail: Code)
    ensures (front + [i] + tail)[|front|] == i && (front + [i] + tail)[|front| := j] == front + [j] + tail
  {
  }

  /** A default behind the first is never gone to. */
  lemma NothingLaid(pr: Prims, cs: Cases, c: Cases, code: Code, head: Code, tests: Code, off: int, bodies: Code)
    requires c.Arm? && c.labelled.None?
    requires Laid(pr, c, code, head, tests, off, bodies) && Completes(pr, cs, c, |bodies|, tests, off, false)
    ensures Laid(pr, c.rest, code, head, tests, off, bodies) && PendingTests(pr, c) == PendingTests(pr, c.rest)
    ensures Completes(pr, cs, c.rest, |bodies| + |BlockCode(pr, c.body, true)|, tests, off, false)
  {
  }

  // ----- functions and programs -----

  /** A function body: a return is added where control may reach its end. */
  method CompileFuncCode(pr: Prims, s: Stmt, log: Log) returns (obj: Object)
    modifies log
    ensures fresh(obj) && obj.code == BodyCode(pr, s)
    ensures obj.error == StmtErr(pr, s, Toplevel, true)
    ensures log.printed == (old(log.printed) || StmtErr(pr, s, Toplevel, false))
  {
    obj := new Object();
    CompileStat(pr, s, obj, log);
    ghost var c := StmtCode(pr, s, false);
    assert obj.code == c;
    if c != [] {
      WholeObject([], c);
      assert [] + c == c;
    }
    var needReturn := |obj.code| == 0;
    if !needReturn { needReturn := obj.IsReachable(|obj.code|); }
    if needReturn { obj.AddInst(Op.OpReturnVoid); }
  }

  /** All functions of a program; `clean` tells whether no error was printed. */
  method CompileProgram(p: Prog) returns (objs: seq<Obj>, clean: bool)
    ensures objs == Objects(p)
    ensures clean <==> Clean(p)
  {
    var log := new Log();
    objs := [];
    for i := 0 to |p.funs|
      invariant fresh(log)
      invariant objs == Objects(p)[..i]
      invariant log.printed <==> exists k :: 0 <= k < i && FunErr(p.prims, p.funs[k])
    {
      var f := p.funs[i];
      var obj := CompileFuncCode(p.prims, f.body, log);
      objs := objs + [Obj(obj.code, f.argc, f.autos)];
      assert FunErr(p.prims, p.funs[i]) == StmtErr(p.prims, f.body, Toplevel, false);
    }
    clean := !log.printed;
  }
}
