/** Placement of code, and folding of constants. */
module Placement {
  import opened Values
  import opened Machine
  import opened Syntax
  import opened Codegen

  /** The code `c` stands at position `p` of `code`. */
  ghost predicate CodeAt(code: Code, p: int, c: Code) {
    0 <= p && p + |c| <= |code| && forall i :: 0 <= i < |c| ==> code[p + i] == c[i]
  }

  lemma Split(code: Code, p: int, a: Code, b: Code)
    requires CodeAt(code, p, a + b)
    ensures CodeAt(code, p, a) && CodeAt(code, p + |a|, b)
  {
    forall i | 0 <= i < |a| ensures code[p + i] == a[i] { assert (a + b)[i] == a[i]; }
    forall i | 0 <= i < |b| ensures code[p + |a| + i] == b[i] { assert (a + b)[|a| + i] == b[i]; }
  }

  lemma Split3(code: Code, p: int, a: Code, b: Code, c: Code)
    requires CodeAt(code, p, a + b + c)
    ensures CodeAt(code, p, a) && CodeAt(code, p + |a|, b) && CodeAt(code, p + |a| + |b|, c)
  {
    Split(code, p, a + b, c);
    Split(code, p, a, b);
  }

  lemma One(code: Code, p: int, i: Inst)
    requires CodeAt(code, p, [i])
    ensures 0 <= p < |code| && code[p] == i
  {
    assert [i][0] == i;
    assert code[p + 0] == i;
  }

  function WithPush(c: Code, push: bool): Code { if push then SetPush(c) else c }

  lemma PushLast(a: Code, op: Op, push: bool)
    ensures WithPush(a + [I(op)], push) == a + [Inst(op, push)]
  {
  }

  lemma PushRight(a: Code, b: Code, push: bool)
    requires b != []
    ensures WithPush(a + b, push) == a + WithPush(b, push)
  {
  }

  lemma {:induction false} NonEmpty(pr: Prims, e: Expr)
    ensures ExprCode(pr, e) != []
  {
    match e
    case Quest(t, y, n) => NonEmpty(pr, y); NonEmpty(pr, n);
    case And(l, r) => NonEmpty(pr, r);
    case Or(l, r) => NonEmpty(pr, r);
    case Comma(l, r) => NonEmpty(pr, r);
    case _ =>
  }

  /** An expression whose code is one constant, compiled without error, is that constant, whatever the state. */
  lemma {:induction false} ConstMeaning(p: Prog, e: Expr, box: nat, st: Store, fuel: nat)
    requires IsConst(ExprCode(p.prims, e)) && !ExprErr(p.prims, e)
    ensures Eval(p, e, box, st, fuel) == EVal(ExprCode(p.prims, e)[0].op.constant, st)
    ensures !ExprCode(p.prims, e)[0].push
  {
    var pr := p.prims;
    match e
    case Unary(op, a) =>
      NonEmpty(pr, a);
      ConstMeaning(p, a, box, st, fuel);
    case Binary(op, l, r) =>
      NonEmpty(pr, l); NonEmpty(pr, r);
      ConstMeaning(p, l, box, st, fuel);
      ConstMeaning(p, r, box, st, fuel);
    case Quest(t, y, n) =>
      NonEmpty(pr, t);
      ConstMeaning(p, t, box, st, fuel);
      ConstMeaning(p, if IsTrue(ExprCode(pr, t)) then y else n, box, st, fuel);
    case And(l, r) =>
      NonEmpty(pr, l);
      ConstMeaning(p, l, box, st, fuel);
      if IsTrue(ExprCode(pr, l)) { ConstMeaning(p, r, box, st, fuel); }
    case Or(l, r) =>
      NonEmpty(pr, l);
      ConstMeaning(p, l, box, st, fuel);
      if !IsTrue(ExprCode(pr, l)) { ConstMeaning(p, r, box, st, fuel); }
    case Comma(l, r) =>
      NonEmpty(pr, l); NonEmpty(pr, r);
      ConstMeaning(p, l, box, st, fuel);
      ConstMeaning(p, r, box, st, fuel);
    case Call(f, args, _) =>
      NonEmpty(pr, f);
      PrefixNonEmpty(pr, ExprCode(pr, f), args);
    case _ =>
  }

  lemma {:induction false} PrefixNonEmpty(pr: Prims, c: Code, args: Exprs)
    requires c != []
    ensures CallPrefix(pr, c, args) != []
    decreases args
  {
    match args
    case NoArgs =>
    case Arg(e, tl) =>
  }

  // ----- statements: branches of break and continue are patched for their place -----

  /** The code `c` stands at `p`, its pending branches directed to the places `brk` and `cont`. */
  ghost predicate Placed(code: Code, p: int, c: Code, brk: Target, cont: Target) {
    0 <= p && p + |c| <= |code| && forall i :: 0 <= i < |c| ==> code[p + i] == Resolve(c[i], p + i, brk, cont)
  }

  lemma SplitPlaced(code: Code, p: int, a: Code, b: Code, brk: Target, cont: Target)
    requires Placed(code, p, a + b, brk, cont)
    ensures Placed(code, p, a, brk, cont) && Placed(code, p + |a|, b, brk, cont)
  {
    forall i | 0 <= i < |a| ensures code[p + i] == Resolve(a[i], p + i, brk, cont) { assert (a + b)[i] == a[i]; }
    forall i | 0 <= i < |b| ensures code[p + |a| + i] == Resolve(b[i], p + |a| + i, brk, cont) {
      assert (a + b)[|a| + i] == b[i];
    }
  }

  /** No branch of the code is pending. */
  ghost predicate Settled(c: Code) {
    forall i :: 0 <= i < |c| ==> c[i].op.OpBranch? ==> c[i].op.mod == ModNone
  }

  lemma PlacedSettled(code: Code, p: int, c: Code, brk: Target, cont: Target)
    requires Placed(code, p, c, brk, cont) && Settled(c)
    ensures CodeAt(code, p, c)
  {
  }

  lemma SettledConcat(a: Code, b: Code)
    requires Settled(a) && Settled(b)
    ensures Settled(a + b)
  {
  }

  lemma ArmsSettled(c: Code, a: Code, b: Code)
    requires Settled(c) && Settled(a) && Settled(b)
    ensures Settled(c + [I(OpBranchFalse(|a| + 2))] + a + [I(OpBranch(|b| + 1, ModNone))] + b + [I(OpNoop)])
  {
  }

  lemma ShortSettled(a: Code, b: Code, op: Op)
    requires Settled(a) && Settled(b) && !op.OpBranch?
    ensures Settled(a + [I(op)] + b + [I(OpNoop)])
  {
  }

  lemma AssignIfSettled(lv: Lval, c: Code, sense: bool)
    requires Settled(c)
    ensures Settled(AssignIfCode(lv, c, sense))
  {
  }

  lemma {:induction false} ExprSettled(pr: Prims, e: Expr)
    ensures Settled(ExprCode(pr, e))
    decreases e, 0
  {
    hide AssignIfCode, IsTrue, Length;
    match e
    case Const(_) =>
    case Var(_) =>
    case Unary(_, a) => ExprSettled(pr, a);
    case Binary(op, l, r) => ExprSettled(pr, l); ExprSettled(pr, r);
    case Quest(t, y, n) =>
      ExprSettled(pr, t); ExprSettled(pr, y); ExprSettled(pr, n);
      ArmsSettled(ExprCode(pr, t), ExprCode(pr, y), ExprCode(pr, n));
    case And(l, r) =>
      ExprSettled(pr, l); ExprSettled(pr, r);
      ShortSettled(ExprCode(pr, l), ExprCode(pr, r), OpBranchFalse(|ExprCode(pr, r)| + 1));
    case Or(l, r) =>
      ExprSettled(pr, l); ExprSettled(pr, r);
      ShortSettled(ExprCode(pr, l), ExprCode(pr, r), OpBranchTrue(|ExprCode(pr, r)| + 1));
    case Assign(_, r) => ExprSettled(pr, r);
    case AssignOp(_, _, r) => ExprSettled(pr, r);
    case AssignAnd(lv, r) => ExprSettled(pr, r); AssignIfSettled(lv, ExprCode(pr, r), true);
    case AssignOr(lv, r) => ExprSettled(pr, r); AssignIfSettled(lv, ExprCode(pr, r), false);
    case IncDec(_, _, _) =>
    case Comma(l, r) => ExprSettled(pr, l); ExprSettled(pr, r);
    case Call(f, args, _) => ExprSettled(pr, f); PrefixSettled(pr, ExprCode(pr, f), args);
  }

  lemma {:induction false} PrefixSettled(pr: Prims, c: Code, args: Exprs)
    requires Settled(c)
    ensures Settled(CallPrefix(pr, c, args))
    decreases args, 1
  {
    match args
    case NoArgs =>
    case Arg(e, tl) =>
      ExprSettled(pr, e);
      PrefixSettled(pr, ExprCode(pr, e), tl);
      SettledConcat(SetPush(c), CallPrefix(pr, ExprCode(pr, e), tl));
  }

  /** Code patched by a loop at `p` stands there with its branches directed to the loop's own places. */
  lemma PlacedPatch(code: Code, p: int, c: Code, brk: Target, cont: Target, outerBrk: Target, outerCont: Target)
    requires Placed(code, p, Patch(c, brk, cont), outerBrk, outerCont)
    requires brk.At? && brk.i >= |c| && (cont.At? ==> cont.i >= |c|)
    ensures Placed(code, p, c, At(p + brk.i), if cont.At? then At(p + cont.i) else outerCont)
  {
    var t := Patch(c, brk, cont);
    forall i | 0 <= i < |c|
      ensures code[p + i] == Resolve(c[i], p + i, At(p + brk.i), if cont.At? then At(p + cont.i) else outerCont)
    {
      assert t[i] == Resolve(c[i], i, brk, cont);
    }
  }

  /** A condition in front of a statement: no branch of it is pending. */
  lemma PlacedTest(pr: Prims, t: Expr, op: Op, code: Code, pc: int, brk: Target, cont: Target)
    requires Placed(code, pc, ExprCode(pr, t) + [I(op)], brk, cont) && !op.OpBranch?
    ensures CodeAt(code, pc, ExprCode(pr, t)) && CodeAt(code, pc + |ExprCode(pr, t)|, [I(op)])
  {
    ExprSettled(pr, t);
    SettledConcat(ExprCode(pr, t), [I(op)]);
    PlacedSettled(code, pc, ExprCode(pr, t) + [I(op)], brk, cont);
    Split(code, pc, ExprCode(pr, t), [I(op)]);
  }

  /** A test, the first arm, the branch over the second arm if there is one, the second arm. */
  ghost predicate ElseAt(code: Code, pc: int, c: Code, a: Code, skip: Code, b: Code, brk: Target, cont: Target) {
    && CodeAt(code, pc, c)
    && CodeAt(code, pc + |c|, [I(OpBranchFalse(|a| + |skip| + 1))])
    && Placed(code, pc + |c| + 1, a, brk, cont)
    && CodeAt(code, pc + |c| + 1 + |a|, skip)
    && Placed(code, pc + |c| + 1 + |a| + |skip|, b, brk, cont)
  }

  lemma PlacedElse(pr: Prims, t: Expr, a: Code, skip: Code, b: Code, code: Code, pc: int, brk: Target, cont: Target)
    requires Placed(code, pc, ExprCode(pr, t) + [I(OpBranchFalse(|a| + |skip| + 1))] + a + skip + b, brk, cont)
    requires Settled(skip)
    ensures ElseAt(code, pc, ExprCode(pr, t), a, skip, b, brk, cont)
  {
    var front := ExprCode(pr, t) + [I(OpBranchFalse(|a| + |skip| + 1))];
    SplitPlaced(code, pc, front + a + skip, b, brk, cont);
    SplitPlaced(code, pc, front + a, skip, brk, cont);
    SplitPlaced(code, pc, front, a, brk, cont);
    PlacedTest(pr, t, OpBranchFalse(|a| + |skip| + 1), code, pc, brk, cont);
    PlacedSettled(code, pc + |front| + |a|, skip, brk, cont);
  }

  /** A loop with a test at `t`: body, step, test, branch back to the body while the test holds. */
  ghost predicate LoopAt(code: Code, t: int, c: Code, n: Code, x: Code) {
    && CodeAt(code, t, c)
    && CodeAt(code, t + |c|, [I(OpBranchTrue(-(|x| + |n| + |c|)))])
    && CodeAt(code, t - |n|, n)
    && Placed(code, t - |n| - |x|, x, At(t + |c| + 1), At(t - |n|))
  }

  /** A loop without a test: body, step, branch back to the body. */
  ghost predicate EndlessAt(code: Code, top: int, n: Code, x: Code) {
    && Placed(code, top, x, At(top + |x| + |n| + 1), At(top + |x|))
    && CodeAt(code, top + |x|, n)
    && CodeAt(code, top + |x| + |n|, [I(OpBranch(-(|x| + |n|), ModNone))])
  }

  lemma PlacedLoop(code: Code, top: int, c: Code, n: Code, x: Code, brk: Target, cont: Target)
    requires Placed(code, top, Patch(x, At(|x| + |n| + |c| + 1), At(|x|)) + n + c +
      [I(OpBranchTrue(-(|x| + |n| + |c|)))], brk, cont)
    requires Settled(c) && Settled(n)
    ensures LoopAt(code, top + |x| + |n|, c, n, x)
  {
    var body, back := Patch(x, At(|x| + |n| + |c| + 1), At(|x|)), [I(OpBranchTrue(-(|x| + |n| + |c|)))];
    SplitPlaced(code, top, body + n + c, back, brk, cont);
    SplitPlaced(code, top, body + n, c, brk, cont);
    SplitPlaced(code, top, body, n, brk, cont);
    PlacedSettled(code, top + |x| + |n| + |c|, back, brk, cont);
    PlacedSettled(code, top + |x| + |n|, c, brk, cont);
    PlacedSettled(code, top + |x|, n, brk, cont);
    PlacedPatch(code, top, x, At(|x| + |n| + |c| + 1), At(|x|), brk, cont);
  }

  lemma PlacedEndless(code: Code, top: int, n: Code, x: Code, brk: Target, cont: Target)
    requires Placed(code, top, Patch(x, At(|x| + |n| + 1), At(|x|)) + n + [I(OpBranch(-(|x| + |n|), ModNone))], brk,
      cont)
    requires Settled(n)
    ensures EndlessAt(code, top, n, x)
  {
    var body, back := Patch(x, At(|x| + |n| + 1), At(|x|)), [I(OpBranch(-(|x| + |n|), ModNone))];
    SplitPlaced(code, top, body + n, back, brk, cont);
    SplitPlaced(code, top, body, n, brk, cont);
    PlacedSettled(code, top + |x| + |n|, back, brk, cont);
    PlacedSettled(code, top + |x|, n, brk, cont);
    PlacedPatch(code, top, x, At(|x| + |n| + 1), At(|x|), brk, cont);
  }

  /** A loop entered by a branch over its body. */
  lemma PlacedEntry(code: Code, pc: int, off: int, rest: Code, brk: Target, cont: Target)
    requires Placed(code, pc, [I(OpBranch(off, ModNone))] + rest, brk, cont)
    ensures CodeAt(code, pc, [I(OpBranch(off, ModNone))]) && Placed(code, pc + 1, rest, brk, cont)
  {
    SplitPlaced(code, pc, [I(OpBranch(off, ModNone))], rest, brk, cont);
    PlacedSettled(code, pc, [I(OpBranch(off, ModNone))], brk, cont);
  }

  /** A loop with its test last, entered by a branch to the test. */
  lemma PlacedEntryLoop(code: Code, pc: int, c: Code, n: Code, x: Code, brk: Target, cont: Target)
    requires Settled(c) && Settled(n)
    requires Placed(code, pc,
      [I(OpBranch(|x| + |n| + 1, ModNone))] + Patch(x, At(|x| + |n| + |c| + 1), At(|x|)) + n + c +
      [I(OpBranchTrue(-(|x| + |n| + |c|)))], brk, cont)
    ensures CodeAt(code, pc, [I(OpBranch(|x| + |n| + 1, ModNone))]) && LoopAt(code, pc + 1 + |x| + |n|, c, n, x)
  {
    var body, back := Patch(x, At(|x| + |n| + |c| + 1), At(|x|)), [I(OpBranchTrue(-(|x| + |n| + |c|)))];
    var entry := [I(OpBranch(|x| + |n| + 1, ModNone))];
    assert entry + body + n + c + back == entry + (body + n + c + back);
    PlacedEntry(code, pc, |x| + |n| + 1, body + n + c + back, brk, cont);
    PlacedLoop(code, pc + 1, c, n, x, brk, cont);
  }

  /** A loop without a test, entered by a branch over its body. */
  lemma PlacedEntryEndless(code: Code, pc: int, n: Code, x: Code, brk: Target, cont: Target)
    requires Settled(n)
    requires Placed(code, pc,
      [I(OpBranch(|x| + |n| + 1, ModNone))] + Patch(x, At(|x| + |n| + 1), At(|x|)) + n +
      [I(OpBranch(-(|x| + |n|), ModNone))], brk, cont)
    ensures CodeAt(code, pc, [I(OpBranch(|x| + |n| + 1, ModNone))]) && EndlessAt(code, pc + 1, n, x)
    ensures CodeAt(code, pc + 1 + |x| + |n|, [I(OpBranch(-(|x| + |n|), ModNone))])
  {
    var body, back := Patch(x, At(|x| + |n| + 1), At(|x|)), [I(OpBranch(-(|x| + |n|), ModNone))];
    var entry := [I(OpBranch(|x| + |n| + 1, ModNone))];
    assert entry + body + n + back == entry + (body + n + back);
    PlacedEntry(code, pc, |x| + |n| + 1, body + n + back, brk, cont);
    PlacedEndless(code, pc + 1, n, x, brk, cont);
  }

  lemma {:induction false} TestsSettled(pr: Prims, cs: Cases, start: nat)
    ensures Settled(TestsCode(pr, cs, start))
    decreases cs
  {
    match cs
    case NoCases =>
    case Arm(l, b, rest) =>
      TestsSettled(pr, rest, start + |BlockCode(pr, b, true)|);
      if l.Some? { ExprSettled(pr, l.value); }
  }

  /** A switch: subject, comparisons, branch to the default, arms. */
  ghost predicate SwitchAt(code: Code, pc: int, e: Code, tests: Code, off: int, bodies: Code, cont: Target) {
    && CodeAt(code, pc, SetPush(e))
    && CodeAt(code, pc + |e|, tests)
    && CodeAt(code, pc + |e| + |tests|, [I(OpDefault(off))])
    && Placed(code, pc + |e| + |tests| + 1, bodies, At(pc + |e| + |tests| + 1 + |bodies|), cont)
  }

  lemma PlacedSwitch(code: Code, pc: int, e: Code, tests: Code, off: int, bodies: Code, brk: Target, cont: Target)
    requires Placed(code, pc, SetPush(e) + tests + [I(OpDefault(off))] + Patch(bodies, At(|bodies|), Keep), brk, cont)
    requires Settled(e) && Settled(tests)
    ensures SwitchAt(code, pc, e, tests, off, bodies, cont)
  {
    var head := SetPush(e);
    SplitPlaced(code, pc, head + tests + [I(OpDefault(off))], Patch(bodies, At(|bodies|), Keep), brk, cont);
    SplitPlaced(code, pc, head + tests, [I(OpDefault(off))], brk, cont);
    SplitPlaced(code, pc, head, tests, brk, cont);
    PlacedSettled(code, pc, head, brk, cont);
    PlacedSettled(code, pc + |e|, tests, brk, cont);
    PlacedSettled(code, pc + |e| + |tests|, [I(OpDefault(off))], brk, cont);
    PlacedPatch(code, pc + |e| + |tests| + 1, bodies, At(|bodies|), Keep, brk, cont);
  }

  lemma PlacedRest(code: Code, p: int, c: Code, k: nat, d: Code, brk: Target, cont: Target)
    requires Placed(code, p, c, brk, cont) && k <= |c| && c[k..] == d
    ensures Placed(code, p + k, d, brk, cont)
  {
    assert c == c[..k] + d;
    SplitPlaced(code, p, c[..k], d, brk, cont);
  }
}
