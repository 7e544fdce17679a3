/** Runs of the machine put together: what a piece of code does, from what its parts do. */
module Compose {
  import opened Options
  import opened Values
  import opened Machine
  import opened Syntax
  import opened Codegen
  import opened Placement

  /** The machine `len` instructions further on, with value `v` computed. */
  function After(m: Mach, len: nat, v: Value, push: bool, st: Store): Mach {
    m.(pc := m.pc + len, value := v, stack := if push then Push(v, m.stack) else m.stack, store := st)
  }

  /** `n` transitions from `m` do what the result `r` of an expression of `len` instructions says. */
  ghost predicate EvalDone(w: World, m: Mach, r: EOut, len: nat, push: bool, fuel: nat, n: nat) {
    var c := Steps(w, Running(m), n);
    match r
    case EVal(v, st) => c == Running(After(m, len, v, push, st))
    case ERaise(x, st) => c == Raised(x, st)
    case ETimeout => n >= fuel && c.Running?
  }

  function Put(push: bool, v: Value, s: Stack): Stack { if push then Push(v, s) else s }

  /** After `n` transitions the machine is at `m1`, about to execute `i`. */
  ghost predicate AtInst(w: World, m: Mach, n: nat, m1: Mach, i: Inst) {
    Steps(w, Running(m), n) == Running(m1) && CodeAt(CodeOf(w, m1.obj), m1.pc, [i])
  }

  /** One more instruction after `n` transitions. */
  lemma OneMore(w: World, m: Mach, n: nat, m1: Mach, i: Inst)
    requires AtInst(w, m, n, m1, i)
    ensures Steps(w, Running(m), n + 1) == ExecInst(w, m1, i)
  {
    StepsAdd(w, Running(m), n, 1);
    One(CodeOf(w, m1.obj), m1.pc, i);
    assert Steps(w, Running(m1), 1) == Step(w, Running(m1));
  }

  lemma Drop1(s: Stack)
    requires s.Push?
    ensures Height(s) >= 1 && Dropped(s, 1) == s.rest
  {
    assert Dropped(s, 1) == Dropped(s.rest, 0);
  }

  lemma StepConst(w: World, m: Mach, n: nat, m1: Mach, v: Value, push: bool)
    requires AtInst(w, m, n, m1, Inst(OpConst(v), push))
    ensures Steps(w, Running(m), n + 1) == Running(After(m1, 1, v, push, m1.store))
  {
    OneMore(w, m, n, m1, Inst(OpConst(v), push));
  }

  lemma StepNoop(w: World, m: Mach, n: nat, m1: Mach, push: bool)
    requires AtInst(w, m, n, m1, Inst(OpNoop, push))
    ensures Steps(w, Running(m), n + 1) == Running(After(m1, 1, m1.value, push, m1.store))
  {
    OneMore(w, m, n, m1, Inst(OpNoop, push));
  }

  lemma StepBranch(w: World, m: Mach, n: nat, m1: Mach, off: int, mod: BranchMod)
    requires AtInst(w, m, n, m1, I(OpBranch(off, mod)))
    ensures Steps(w, Running(m), n + 1) == Running(m1.(pc := m1.pc + off))
  {
    OneMore(w, m, n, m1, I(OpBranch(off, mod)));
  }

  /** The branch after a test of `sense`: taken when the value is a boolean other than `sense`. */
  function TestOp(sense: bool, off: int): Op {
    if sense then OpBranchFalse(off) else OpBranchTrue(off)
  }

  lemma StepTest(w: World, m: Mach, n: nat, m1: Mach, sense: bool, off: int)
    requires AtInst(w, m, n, m1, I(TestOp(sense, off)))
    ensures Steps(w, Running(m), n + 1) ==
      if !m1.value.Bool? then Raised(InvalidArgument(m1.value), m1.store)
      else Running(m1.(pc := m1.pc + if m1.value.b == sense then 1 else off))
  {
    OneMore(w, m, n, m1, I(TestOp(sense, off)));
  }

  lemma StepLoad(w: World, m: Mach, n: nat, m1: Mach, lv: Lval, push: bool)
    requires m1.frame.Frame? && AtInst(w, m, n, m1, Inst(LoadOp(lv), push))
    ensures Steps(w, Running(m), n + 1) ==
      match Read(m1.store, LocOf(lv, m1.frame.box))
      case None => Raised(UninitializedValue, m1.store)
      case Some(v) => Running(After(m1, 1, v, push, m1.store))
  {
    OneMore(w, m, n, m1, Inst(LoadOp(lv), push));
  }

  lemma StepRef(w: World, m: Mach, n: nat, m1: Mach, lv: Lval, i: Inst)
    requires m1.frame.Frame? && AtInst(w, m, n, m1, i)
    requires i.op == RefOp(lv) || i.op == RefStoreOp(lv)
    ensures Steps(w, Running(m), n + 1) == Running(After(m1, 1, Ref(LocOf(lv, m1.frame.box)), i.push, m1.store))
  {
    OneMore(w, m, n, m1, i);
  }

  lemma StepFetch(w: World, m: Mach, n: nat, m1: Mach, push: bool)
    requires m1.value.Ref? && AtInst(w, m, n, m1, Inst(OpFetch, push))
    ensures Steps(w, Running(m), n + 1) ==
      match Read(m1.store, m1.value.loc)
      case None => Raised(UninitializedValue, m1.store)
      case Some(v) => Running(After(m1, 1, v, push, m1.store))
  {
    OneMore(w, m, n, m1, Inst(OpFetch, push));
  }

  /** Where an operator leaves a machine whose stack is `s` once its operands are popped. */
  function Result(m1: Mach, r: OpResult, push: bool, s: Stack): Conf {
    match r
    case Raise(x) => Raised(x, m1.store)
    case Val(v) => Running(m1.(pc := m1.pc + 1, value := v, stack := Put(push, v, s)))
  }

  lemma StepUn(w: World, m: Mach, n: nat, m1: Mach, op: nat, push: bool)
    requires AtInst(w, m, n, m1, Inst(OpUn(op), push))
    ensures Steps(w, Running(m), n + 1) == Result(m1, w.prims.unary(op, m1.value), push, m1.stack)
  {
    OneMore(w, m, n, m1, Inst(OpUn(op), push));
  }

  lemma StepBin(w: World, m: Mach, n: nat, m1: Mach, op: nat, push: bool)
    requires m1.stack.Push? && AtInst(w, m, n, m1, Inst(OpBin(op), push))
    ensures Steps(w, Running(m), n + 1) ==
      Result(m1, w.prims.binary(op, m1.stack.top, m1.value), push, m1.stack.rest)
  {
    OneMore(w, m, n, m1, Inst(OpBin(op), push));
    Drop1(m1.stack);
  }

  /** Where storing `v` at `loc` leaves the machine. */
  function Stored(m1: Mach, loc: Loc, v: Value, result: Value, push: bool, s: Stack): Conf {
    if InStore(m1.store, loc) then
      Running(m1.(pc := m1.pc + 1, value := result, stack := Put(push, result, s), store := Write(m1.store, loc, v)))
    else Raised(InvalidArrayBounds(v), m1.store)
  }

  lemma StepAssign(w: World, m: Mach, n: nat, m1: Mach, loc: Loc, s: Stack, push: bool)
    requires m1.stack == Push(Ref(loc), s) && AtInst(w, m, n, m1, Inst(Op.OpAssign, push))
    ensures Steps(w, Running(m), n + 1) == Stored(m1, loc, m1.value, m1.value, push, s)
  {
    OneMore(w, m, n, m1, Inst(Op.OpAssign, push));
    Drop1(m1.stack);
  }

  lemma StepAssignOp(w: World, m: Mach, n: nat, m1: Mach, op: nat, loc: Loc, v: Value, s: Stack, push: bool)
    requires m1.stack == Push(v, Push(Ref(loc), s)) && AtInst(w, m, n, m1, Inst(OpAssignOp(op), push))
    ensures Steps(w, Running(m), n + 1) ==
      match w.prims.binary(op, v, m1.value)
      case Raise(x) => Raised(x, m1.store)
      case Val(r) => Stored(m1, loc, r, r, push, s)
  {
    OneMore(w, m, n, m1, Inst(OpAssignOp(op), push));
    Drop1(m1.stack.rest);
    assert Elt(m1.stack, 1) == Elt(m1.stack.rest, 0);
    assert Dropped(m1.stack, 2) == Dropped(m1.stack.rest, 1);
  }

  lemma StepIncDec(w: World, m: Mach, n: nat, m1: Mach, op: nat, pre: bool, loc: Loc, push: bool)
    requires m1.value == Ref(loc) && AtInst(w, m, n, m1, Inst(if pre then OpPre(op) else OpPost(op), push))
    ensures Steps(w, Running(m), n + 1) ==
      match Read(m1.store, loc)
      case None => Raised(UninitializedValue, m1.store)
      case Some(v) =>
        match w.prims.incDec(op, v)
        case Raise(x) => Raised(x, m1.store)
        case Val(nv) => Stored(m1, loc, nv, if pre then nv else v, push, m1.stack)
  {
    OneMore(w, m, n, m1, Inst(if pre then OpPre(op) else OpPost(op), push));
  }

  /** A condition followed by a branch taken when the condition does not equal `sense`. */
  ghost predicate TestDone(w: World, m: Mach, r: EOut, len: nat, sense: bool, off: int, fuel: nat, n: nat) {
    var c := Steps(w, Running(m), n);
    match r
    case EVal(v, st) =>
      n > 0 && v.Bool? &&
      c == Running(After(m, len, v, false, st).(pc := m.pc + len + if v.b == sense then 1 else off))
    case ERaise(x, st) => c == Raised(x, st)
    case ETimeout => n >= fuel && c.Running?
  }

  /** The machine behind such a branch. */
  function AfterTest(m: Mach, r: EOut, len: nat, sense: bool, off: int): Mach
    requires r.EVal? && r.v.Bool?
  {
    After(m, len, r.v, false, r.st).(pc := m.pc + len + if r.v.b == sense then 1 else off)
  }

  function AsBool(r: EOut): EOut {
    if r.EVal? && !r.v.Bool? then ERaise(InvalidArgument(r.v), r.st) else r
  }

  lemma TestRun(w: World, m: Mach, r: EOut, len: nat, sense: bool, off: int, fuel: nat, k: nat) returns (n: nat)
    requires EvalDone(w, m, r, len, false, fuel, k)
    requires CodeAt(CodeOf(w, m.obj), m.pc + len, [I(TestOp(sense, off))])
    ensures TestDone(w, m, AsBool(r), len, sense, off, fuel, n)
  {
    hide CodeAt, Steps;
    n := k;
    if r.EVal? {
      StepTest(w, m, n, After(m, len, r.v, false, r.st), sense, off);
      n := n + 1;
    }
  }

  lemma UnRun(w: World, m: Mach, r: EOut, len: nat, op: nat, push: bool, fuel: nat, k: nat) returns (n: nat)
    requires EvalDone(w, m, r, len, false, fuel, k)
    requires CodeAt(CodeOf(w, m.obj), m.pc + len, [Inst(OpUn(op), push)])
    ensures EvalDone(w, m, if r.EVal? then LiftOp(w.prims.unary(op, r.v), r.st) else r, len + 1, push, fuel, n)
  {
    hide CodeAt, Steps;
    n := k;
    if r.EVal? {
      StepUn(w, m, n, After(m, len, r.v, false, r.st), op, push);
      n := n + 1;
    }
  }

  /** The second of two results, unless the first ended the evaluation. */
  function Both(a: EOut, b: EOut): EOut { if a.EVal? then b else a }

  lemma BinRun(w: World, m: Mach, r: EOut, l1: nat, s: EOut, l2: nat, op: nat, push: bool,
               fuel: nat, k1: nat, k2: nat) returns (n: nat)
    requires EvalDone(w, m, r, l1, true, fuel, k1)
    requires r.EVal? ==> EvalDone(w, After(m, l1, r.v, true, r.st), s, l2, false, fuel, k2)
    requires CodeAt(CodeOf(w, m.obj), m.pc + l1 + l2, [Inst(OpBin(op), push)])
    ensures EvalDone(w, m,
      if r.EVal? && s.EVal? then LiftOp(w.prims.binary(op, r.v, s.v), s.st) else Both(r, s), l1 + l2 + 1, push, fuel, n)
  {
    hide CodeAt, Steps;
    n := k1;
    if r.EVal? {
      StepsAdd(w, Running(m), k1, k2);
      n := k1 + k2;
      if s.EVal? {
        StepBin(w, m, n, After(After(m, l1, r.v, true, r.st), l2, s.v, false, s.st), op, push);
        n := n + 1;
      }
    }
  }

  lemma CommaRun(w: World, m: Mach, r: EOut, l1: nat, s: EOut, l2: nat, push: bool,
                 fuel: nat, k1: nat, k2: nat) returns (n: nat)
    requires EvalDone(w, m, r, l1, false, fuel, k1)
    requires r.EVal? ==> EvalDone(w, After(m, l1, r.v, false, r.st), s, l2, push, fuel, k2)
    ensures EvalDone(w, m, Both(r, s), l1 + l2, push, fuel, n)
  {
    n := k1;
    if r.EVal? {
      StepsAdd(w, Running(m), k1, k2);
      n := k1 + k2;
    }
  }

  /** Test, arm, branch over the other arm, other arm, no-operation; `s` is the result of the arm taken. */
  lemma QuestRun(w: World, m: Mach, t: EOut, lt: nat, s: EOut, ly: nat, ln: nat, push: bool,
                 fuel: nat, k1: nat, k2: nat) returns (n: nat)
    requires TestDone(w, m, t, lt, true, ly + 2, fuel, k1)
    requires t.EVal? ==> EvalDone(w, AfterTest(m, t, lt, true, ly + 2), s, if t.v.b then ly else ln, false, fuel, k2)
    requires CodeAt(CodeOf(w, m.obj), m.pc + lt + ly + 1, [I(OpBranch(ln + 1, ModNone))])
    requires CodeAt(CodeOf(w, m.obj), m.pc + lt + ly + ln + 2, [Inst(OpNoop, push)])
    ensures EvalDone(w, m, Both(t, s), lt + ly + ln + 3, push, fuel, n)
  {
    hide CodeAt, Steps;
    n := k1;
    if t.EVal? {
      StepsAdd(w, Running(m), k1, k2);
      n := k1 + k2;
      if s.EVal? {
        var m1 := After(AfterTest(m, t, lt, true, ly + 2), if t.v.b then ly else ln, s.v, false, s.st);
        if t.v.b {
          StepBranch(w, m, n, m1, ln + 1, ModNone);
          n := n + 1;
          m1 := m1.(pc := m1.pc + ln + 1);
        }
        StepNoop(w, m, n, m1, push);
        n := n + 1;
      }
    }
  }

  /** Test, right operand, no-operation: the right operand runs if the test equals `sense`. */
  lemma ShortRun(w: World, m: Mach, t: EOut, lt: nat, s: EOut, ls: nat, sense: bool, push: bool,
                 fuel: nat, k1: nat, k2: nat) returns (n: nat)
    requires TestDone(w, m, t, lt, sense, ls + 1, fuel, k1)
    requires t.EVal? && t.v.b == sense ==> EvalDone(w, AfterTest(m, t, lt, sense, ls + 1), s, ls, false, fuel, k2)
    requires CodeAt(CodeOf(w, m.obj), m.pc + lt + ls + 1, [Inst(OpNoop, push)])
    ensures EvalDone(w, m, if t.EVal? && t.v.b == sense then s else t, lt + ls + 2, push, fuel, n)
  {
    hide CodeAt, Steps;
    n := k1;
    if t.EVal? {
      var m1 := AfterTest(m, t, lt, sense, ls + 1);
      if t.v.b == sense {
        StepsAdd(w, Running(m), k1, k2);
        n := k1 + k2;
        if !s.EVal? { return; }
        m1 := After(m1, ls, s.v, false, s.st);
      }
      StepNoop(w, m, n, m1, push);
      n := n + 1;
    }
  }

  /** The result of storing what `r` computed. */
  function StoreOut(r: EOut, loc: Loc): EOut {
    if r.EVal? then Store1(r.st, loc, r.v, r.v) else r
  }

  lemma RefRun(w: World, m: Mach, lv: Lval, loc: Loc, i: Inst) returns (n: nat)
    requires m.frame.Frame? && loc == LocOf(lv, m.frame.box)
    requires CodeAt(CodeOf(w, m.obj), m.pc, [i]) && (i.op == RefOp(lv) || i.op == RefStoreOp(lv))
    ensures Steps(w, Running(m), n) == Running(After(m, 1, Ref(loc), i.push, m.store))
  {
    n := 0;
    StepRef(w, m, n, m, lv, i);
    n := n + 1;
  }

  lemma AssignRun(w: World, m: Mach, lv: Lval, loc: Loc, s: EOut, ls: nat, push: bool, fuel: nat, k: nat)
    returns (n: nat)
    requires m.frame.Frame? && loc == LocOf(lv, m.frame.box)
    requires CodeAt(CodeOf(w, m.obj), m.pc, [P(RefStoreOp(lv))])
    requires EvalDone(w, After(m, 1, Ref(loc), true, m.store), s, ls, false, fuel, k)
    requires CodeAt(CodeOf(w, m.obj), m.pc + 1 + ls, [Inst(Op.OpAssign, push)])
    ensures EvalDone(w, m, StoreOut(s, loc), ls + 2, push, fuel, n)
  {
    hide CodeAt, Steps;
    n := RefRun(w, m, lv, loc, P(RefStoreOp(lv)));
    StepsAdd(w, Running(m), n, k);
    n := n + k;
    if s.EVal? {
      StepAssign(w, m, n, After(After(m, 1, Ref(loc), true, m.store), ls, s.v, false, s.st), loc, m.stack, push);
      n := n + 1;
    }
  }

  /** A reference is pushed and the variable fetched. */
  lemma FetchRun(w: World, m: Mach, lv: Lval, loc: Loc, push: bool) returns (n: nat)
    requires m.frame.Frame? && loc == LocOf(lv, m.frame.box)
    requires CodeAt(CodeOf(w, m.obj), m.pc, [P(RefOp(lv))])
    requires CodeAt(CodeOf(w, m.obj), m.pc + 1, [Inst(OpFetch, push)])
    ensures Steps(w, Running(m), n) ==
      match Read(m.store, loc)
      case None => Raised(UninitializedValue, m.store)
      case Some(v) => Running(After(After(m, 1, Ref(loc), true, m.store), 1, v, push, m.store))
  {
    n := RefRun(w, m, lv, loc, P(RefOp(lv)));
    StepFetch(w, m, n, After(m, 1, Ref(loc), true, m.store), push);
    n := n + 1;
  }

  lemma AssignOpRun(w: World, m: Mach, lv: Lval, loc: Loc, op: nat, s: EOut, ls: nat, push: bool, fuel: nat, k: nat)
    returns (n: nat)
    requires m.frame.Frame? && loc == LocOf(lv, m.frame.box)
    requires CodeAt(CodeOf(w, m.obj), m.pc, [P(RefOp(lv))])
    requires CodeAt(CodeOf(w, m.obj), m.pc + 1, [P(OpFetch)])
    requires
      var c := Read(m.store, loc);
      c.Some? ==>
        EvalDone(w, After(After(m, 1, Ref(loc), true, m.store), 1, c.value, true, m.store), s, ls, false, fuel, k)
    requires CodeAt(CodeOf(w, m.obj), m.pc + 2 + ls, [Inst(OpAssignOp(op), push)])
    ensures EvalDone(w, m,
      match Read(m.store, loc)
      case None => ERaise(UninitializedValue, m.store)
      case Some(old_) =>
        if !s.EVal? then s
        else match w.prims.binary(op, old_, s.v)
          case Raise(x) => ERaise(x, s.st)
          case Val(v) => Store1(s.st, loc, v, v),
      ls + 3, push, fuel, n)
  {
    hide CodeAt, Steps;
    n := FetchRun(w, m, lv, loc, true);
    var c := Read(m.store, loc);
    if c.Some? {
      StepsAdd(w, Running(m), n, k);
      n := n + k;
      if s.EVal? {
        var m1 := After(After(m, 1, Ref(loc), true, m.store), 1, c.value, true, m.store);
        StepAssignOp(w, m, n, After(m1, ls, s.v, false, s.st), op, loc, c.value, m.stack, push);
        n := n + 1;
      }
    }
  }

  /** The common end of a conditional assignment: store, branch over the drop, no-operation. */
  lemma StoreTail(w: World, m: Mach, n0: nat, m1: Mach, loc: Loc, s: Stack, push: bool) returns (n: nat)
    requires AtInst(w, m, n0, m1, I(Op.OpAssign)) && m1.stack == Push(Ref(loc), s)
    requires CodeAt(CodeOf(w, m1.obj), m1.pc + 1, [I(OpBranch(2, ModNone))])
    requires CodeAt(CodeOf(w, m1.obj), m1.pc + 3, [Inst(OpNoop, push)])
    ensures Steps(w, Running(m), n) ==
      if InStore(m1.store, loc) then
        Running(m1.(pc := m1.pc + 4, stack := Put(push, m1.value, s), store := Write(m1.store, loc, m1.value)))
      else Raised(InvalidArrayBounds(m1.value), m1.store)
  {
    hide CodeAt, Steps;
    StepAssign(w, m, n0, m1, loc, s, false);
    n := n0 + 1;
    if InStore(m1.store, loc) {
      var m2 := m1.(pc := m1.pc + 1, stack := s, store := Write(m1.store, loc, m1.value));
      StepBranch(w, m, n, m2, 2, ModNone);
      StepNoop(w, m, n + 1, m2.(pc := m2.pc + 2), push);
      n := n + 2;
    }
  }

  lemma AssignIfRun(w: World, m: Mach, lv: Lval, loc: Loc, sense: bool, s: EOut, ls: nat, push: bool,
                    fuel: nat, k: nat) returns (n: nat)
    requires m.frame.Frame? && loc == LocOf(lv, m.frame.box)
    requires CodeAt(CodeOf(w, m.obj), m.pc, [P(RefOp(lv))])
    requires CodeAt(CodeOf(w, m.obj), m.pc + 1, [I(OpFetch)])
    requires CodeAt(CodeOf(w, m.obj), m.pc + 2, [I(TestOp(sense, ls + 1))])
    requires
      var c := Read(m.store, loc);
      c == Some(Bool(sense)) ==> EvalDone(w, After(After(m, 1, Ref(loc), true, m.store), 2, c.value, false, m.store),
                                          s, ls, false, fuel, k)
    requires CodeAt(CodeOf(w, m.obj), m.pc + 3 + ls, [I(Op.OpAssign)])
    requires CodeAt(CodeOf(w, m.obj), m.pc + 4 + ls, [I(OpBranch(2, ModNone))])
    requires CodeAt(CodeOf(w, m.obj), m.pc + 6 + ls, [Inst(OpNoop, push)])
    ensures EvalDone(w, m,
      match Read(m.store, loc)
      case None => ERaise(UninitializedValue, m.store)
      case Some(v) =>
        if !v.Bool? then ERaise(InvalidArgument(v), m.store)
        else if v.b != sense then EVal(v, m.store)
        else StoreOut(s, loc),
      ls + 7, push, fuel, n)
  {
    hide CodeAt, Steps;
    n := FetchRun(w, m, lv, loc, false);
    var c := Read(m.store, loc);
    if c.None? { return; }
    var m1 := After(After(m, 1, Ref(loc), true, m.store), 1, c.value, false, m.store);
    StepTest(w, m, n, m1, sense, ls + 1);
    n := n + 1;
    if !c.value.Bool? { return; }
    var m2 := m1.(pc := m1.pc + 1 + ls);
    if c.value.b == sense {
      StepsAdd(w, Running(m), n, k);
      n := n + k;
      if !s.EVal? { return; }
      m2 := m2.(value := s.v, store := s.st);
    } else {
      WriteSame(m.store, loc, c.value);  // the branch leads to the store of the unchanged value
    }
    n := StoreTail(w, m, n, m2, loc, m.stack, push);
  }

  lemma IncDecRun(w: World, m: Mach, lv: Lval, loc: Loc, op: nat, pre: bool, push: bool, fuel: nat)
    returns (n: nat)
    requires m.frame.Frame? && loc == LocOf(lv, m.frame.box)
    requires CodeAt(CodeOf(w, m.obj), m.pc, [I(RefOp(lv))])
    requires CodeAt(CodeOf(w, m.obj), m.pc + 1, [Inst(if pre then OpPre(op) else OpPost(op), push)])
    ensures EvalDone(w, m,
      match Read(m.store, loc)
      case None => ERaise(UninitializedValue, m.store)
      case Some(v) =>
        match w.prims.incDec(op, v)
        case Raise(x) => ERaise(x, m.store)
        case Val(nv) => Store1(m.store, loc, nv, if pre then nv else v),
      2, push, fuel, n)
  {
    hide CodeAt;
    n := RefRun(w, m, lv, loc, I(RefOp(lv)));
    StepIncDec(w, m, n, After(m, 1, Ref(loc), false, m.store), op, pre, loc, push);
    n := n + 1;
  }

  // ----- calls -----

  function PushAll(s: Stack, vs: seq<Value>): Stack
    decreases |vs|
  {
    if vs == [] then s else PushAll(Push(vs[0], s), vs[1..])
  }

  lemma {:induction false} PushedElts(s: Stack, vs: seq<Value>)
    ensures Height(PushAll(s, vs)) == Height(s) + |vs|
    ensures forall i :: 0 <= i < |vs| ==> Elt(PushAll(s, vs), i) == vs[|vs| - 1 - i]
    ensures forall i :: |vs| <= i < |vs| + Height(s) ==> Elt(PushAll(s, vs), i) == Elt(s, i - |vs|)
    ensures Dropped(PushAll(s, vs), |vs|) == s
    decreases |vs|
  {
    if vs != [] {
      var s1, tl := Push(vs[0], s), vs[1..];
      PushedElts(s1, tl);
      DropOne(PushAll(s1, tl), |tl|);
    }
  }

  lemma {:induction false} DropOne(s: Stack, n: nat)
    requires n < Height(s)
    ensures Dropped(s, n).Push? && Dropped(s, n + 1) == Dropped(s, n).rest
    decreases n
  {
    if n > 0 { DropOne(s.rest, n - 1); }
  }

  /** Where a call of `func` with arguments `args` leads, from a machine whose stack is `s` without the operands. */
  function Called(w: World, m: Mach, func: Value, args: seq<Value>, s: Stack, tail: bool): Conf
    requires m.frame.Frame?
  {
    if !(func.Func? && func.f < |w.objs|) then Raised(InvalidUnop(func), m.store)
    else
      var o := w.objs[func.f];
      if |args| != o.argc then Raised(BadArgCount(|args|, o.argc), m.store)
      else
        var fr :=
          if tail then Frame(|m.store.boxes|, m.frame.savePc, m.frame.saveObj, m.frame.previous)
          else Frame(|m.store.boxes|, m.pc + 1, m.obj, m.frame);
        Running(Mach(func.f, 0, m.value, s, fr, Alloc(m.store, NewBox(args, o.autos))))
  }

  /** The operands of a call: function and arguments `all`, the last of them in the accumulator. */
  lemma PushedArgs(s: Stack, all: seq<Value>)
    requires all != []
    ensures
      var stack, argc := PushAll(s, all[..|all| - 1]), |all| - 1;
      && Height(stack) >= argc && Dropped(stack, argc) == s
      && Args(stack, all[argc], argc) == all[1..]
      && (argc > 0 ==> Elt(stack, argc - 1) == all[0])
  {
    var argc := |all| - 1;
    PushedElts(s, all[..argc]);
    hide PushAll, Dropped, Height, Elt;
    var stack := PushAll(s, all[..argc]);
    forall k | 0 <= k < argc ensures Args(stack, all[argc], argc)[k] == all[1..][k] {
      if k <= argc - 2 { assert Elt(stack, argc - 2 - k) == all[..argc][k + 1]; }
    }
  }

  lemma CallEffect(w: World, m: Mach, all: seq<Value>, s: Stack, tail: bool)
    requires m.frame.Frame? && all != []
    requires m.stack == PushAll(s, all[..|all| - 1]) && m.value == all[|all| - 1]
    ensures ThreadCall(w, m, false, |all| - 1, tail) == Called(w, m, all[0], all[1..], s, tail)
  {
    PushedArgs(s, all);
    hide Args, Dropped, Elt, Height, PushAll;
  }

  lemma StepCall(w: World, m: Mach, n: nat, m1: Mach, all: seq<Value>, s: Stack, tail: bool)
    requires m1.frame.Frame? && all != []
    requires m1.stack == PushAll(s, all[..|all| - 1]) && m1.value == all[|all| - 1]
    requires AtInst(w, m, n, m1, I(if tail then OpTailCall(|all| - 1) else OpCall(|all| - 1)))
    ensures Steps(w, Running(m), n + 1) == Called(w, m1, all[0], all[1..], s, tail)
  {
    var argc := |all| - 1;
    CallEffect(w, m1, all, s, tail);
    hide CodeAt, Steps, ThreadCall, Called, PushAll;
    if tail {
      OneMore(w, m, n, m1, I(OpTailCall(argc)));
    } else {
      OneMore(w, m, n, m1, I(OpCall(argc)));
    }
  }

  /** `n` transitions evaluate a list of values, all but the last of which end on the stack. */
  ghost predicate ArgsDone(w: World, m: Mach, r: AOut, len: nat, fuel: nat, n: nat) {
    var c := Steps(w, Running(m), n);
    match r
    case AVals(vs, st) =>
      vs != [] &&
      c == Running(m.(pc := m.pc + len, value := vs[|vs| - 1], stack := PushAll(m.stack, vs[..|vs| - 1]), store := st))
    case ARaise(x, st) => c == Raised(x, st)
    case ATimeout => n >= fuel && c.Running?
  }

  /** A value in front of evaluated values. */
  function Prepend(r: EOut, a: AOut): AOut {
    match r
    case ERaise(x, st) => ARaise(x, st)
    case ETimeout => ATimeout
    case EVal(v, _) => if a.AVals? then AVals([v] + a.vs, a.st) else a
  }

  lemma PrependRun(w: World, m: Mach, r: EOut, l1: nat, a: AOut, l2: nat, fuel: nat, k1: nat, k2: nat) returns (n: nat)
    requires EvalDone(w, m, r, l1, true, fuel, k1)
    requires r.EVal? ==> ArgsDone(w, After(m, l1, r.v, true, r.st), a, l2, fuel, k2)
    ensures ArgsDone(w, m, Prepend(r, a), l1 + l2, fuel, n)
  {
    n := k1;
    if r.EVal? {
      StepsAdd(w, Running(m), k1, k2);
      n := k1 + k2;
      if a.AVals? {
        var all := [r.v] + a.vs;
        assert all[..|all| - 1][1..] == a.vs[..|a.vs| - 1];
      }
    }
  }

  lemma SingleRun(w: World, m: Mach, r: EOut, len: nat, fuel: nat, k: nat)
    requires EvalDone(w, m, r, len, false, fuel, k)
    ensures ArgsDone(w, m, Prepend(r, AVals([], if r.EVal? then r.st else m.store)), len, fuel, k)
  {
  }

  /** `n` transitions leave the function with the result `r` of its body. */
  ghost predicate ReturnDone(w: World, m: Mach, r: EOut, fuel: nat, n: nat)
    requires m.frame.Frame?
  {
    var c := Steps(w, Running(m), n);
    match r
    case EVal(v, st) => c == Running(Mach(m.frame.saveObj, m.frame.savePc, v, m.stack, m.frame.previous, st))
    case ERaise(x, st) => c == Raised(x, st)
    case ETimeout => n >= fuel && c.Running?
  }

  /** The call itself, the body of the function called and the no-operation behind the call. */
  lemma CallRun(w: World, m: Mach, a: AOut, len: nat, m1: Mach, r: EOut, push: bool, fuel: nat, k1: nat, k2: nat)
    returns (n: nat)
    requires m.frame.Frame? && ArgsDone(w, m, a, len, fuel, k1) && a.AVals?
    requires CodeAt(CodeOf(w, m.obj), m.pc + len, [I(OpCall(|a.vs| - 1))])
    requires CodeAt(CodeOf(w, m.obj), m.pc + len + 1, [Inst(OpNoop, push)])
    requires
      var c := Called(w, m.(pc := m.pc + len, value := a.vs[|a.vs| - 1], store := a.st), a.vs[0], a.vs[1..], m.stack,
        false);
      if c.Running? then
        (if r == ETimeout && fuel == 0 then true
         else c.m == m1 && fuel > 0 && ReturnDone(w, m1, r, fuel - 1, k2))
      else r == ERaise(c.x, c.store)
    ensures EvalDone(w, m, r, len + 2, push, fuel, n)
  {
    hide CodeAt, Steps;
    var last := m.(pc := m.pc + len, value := a.vs[|a.vs| - 1], stack := PushAll(m.stack, a.vs[..|a.vs| - 1]),
      store := a.st);
    StepCall(w, m, k1, last, a.vs, m.stack, false);
    n := k1 + 1;
    var c := Called(w, last, a.vs[0], a.vs[1..], m.stack, false);
    if c.Running? && fuel > 0 {
      StepsAdd(w, Running(m), n, k2);
      n := n + k2;
      if r.EVal? {
        StepNoop(w, m, n, m.(pc := m.pc + len + 1, value := r.v, store := r.st), push);
        n := n + 1;
      }
    }
  }

  // ----- statements -----

  /** Like `m` apart from program counter, store and accumulator. */
  ghost predicate Same(c: Conf, m: Mach, pc: int, st: Store) {
    c.Running? && c.m == m.(pc := pc, store := st, value := c.m.value)
  }

  /** `n` transitions do what the result `r` of a statement ending at `end` says. */
  ghost predicate StmtDone(w: World, m: Mach, r: SOut, end: int, brk: Target, cont: Target, fuel: nat, n: nat) {
    var c := Steps(w, Running(m), n);
    match r
    case Normal(st) => Same(c, m, end, st)
    case Broke(st) => brk.At? && Same(c, m, brk.i, st)
    case Continued(st) => cont.At? && Same(c, m, cont.i, st)
    case Returned(v, st) =>
      m.frame.Frame? && c == Running(Mach(m.frame.saveObj, m.frame.savePc, v, m.stack, m.frame.previous, st))
    case SRaise(x, st) => c == Raised(x, st)
    case STimeout => n >= fuel && c.Running?
  }

  /** What is done from a later point of the same activation is done from the beginning. */
  lemma Shift(w: World, m: Mach, k: nat, m1: Mach, r: SOut, end: int, brk: Target, cont: Target,
              fuel1: nat, n1: nat, fuel: nat)
    requires Steps(w, Running(m), k) == Running(m1) && Same(Running(m1), m, m1.pc, m1.store)
    requires StmtDone(w, m1, r, end, brk, cont, fuel1, n1) && k + fuel1 >= fuel
    ensures StmtDone(w, m, r, end, brk, cont, fuel, k + n1)
  {
    StepsAdd(w, Running(m), k, n1);
  }

  /** A test, then what it selects; `r` is the result of that. */
  lemma CondRun(w: World, m: Mach, t: EOut, len: nat, sense: bool, off: int, r: SOut, end: int, brk: Target,
      cont: Target,
                fuel: nat, k1: nat, k2: nat) returns (n: nat)
    requires TestDone(w, m, t, len, sense, off, fuel, k1)
    requires t.EVal? ==> StmtDone(w, AfterTest(m, t, len, sense, off), r, end, brk, cont, fuel, k2)
    ensures StmtDone(w, m, if t.EVal? then r else FromE(t), end, brk, cont, fuel, n)
  {
    n := k1;
    if t.EVal? {
      Shift(w, m, k1, AfterTest(m, t, len, sense, off), r, end, brk, cont, fuel, k2, fuel);
      n := k1 + k2;
    }
  }

  /** The machine after `n` transitions that leave it running. */
  ghost function Later(w: World, m: Mach, n: nat): Mach
    requires Steps(w, Running(m), n).Running?
  {
    Steps(w, Running(m), n).m
  }

  /** A statement that starts with a branch to `to`. */
  lemma EnterRun(w: World, m: Mach, to: int, r: SOut, end: int, fuel: nat, k: nat) returns (n: nat)
    requires CodeAt(CodeOf(w, m.obj), m.pc, [I(OpBranch(to - m.pc, ModNone))])
    requires StmtDone(w, m.(pc := to), r, end, Keep, Keep, fuel, k)
    ensures StmtDone(w, m, r, end, Keep, Keep, fuel, n)
  {
    hide CodeAt;
    n := 0;
    StepBranch(w, m, n, m, to - m.pc, ModNone);
    n := n + 1;
    Shift(w, m, n, m.(pc := to), r, end, Keep, Keep, fuel, k, fuel);
    n := n + k;
  }

  /** The result of a loop after one round: `r` ended the body, `nx` the step, `again` the rest of the loop. */
  function Round(r: SOut, nx: SOut, again: SOut): SOut {
    if !Loops(r) then Leave(r) else if nx.Normal? then again else nx
  }

  /** The same with a test `t` in front. */
  function TestedRound(t: EOut, r: SOut, nx: SOut, again: SOut): SOut {
    if !t.EVal? then FromE(t)
    else if t.v == TrueVal then Round(r, nx, again)
    else Normal(t.st)
  }

  /** Body and step of a loop whose step ends at `t` and that ends at `end`. */
  ghost predicate BodyDone(w: World, m: Mach, r: SOut, nx: SOut, step: int, t: int, end: int, fuel: nat, k1: nat,
      k2: nat) {
    && StmtDone(w, m, r, step, At(end), At(step), fuel, k1)
    && (Loops(r) ==> StmtDone(w, Later(w, m, k1), nx, t, Keep, Keep, fuel, k2))
  }

  /** Body and step, to where the loop goes on or ends. */
  lemma BodyRun(w: World, m: Mach, r: SOut, nx: SOut, step: int, t: int, end: int, fuel: nat, k1: nat, k2: nat)
      returns (n: nat)
    requires BodyDone(w, m, r, nx, step, t, end, fuel, k1, k2)
    ensures
      var o := Round(r, nx, STimeout);
      if Loops(r) && nx.Normal? then Same(Steps(w, Running(m), n), m, t, nx.st)
      else StmtDone(w, m, o, end, Keep, Keep, fuel, n)
  {
    n := k1;
    if Loops(r) {
      Shift(w, m, k1, Later(w, m, k1), nx, t, Keep, Keep, fuel, k2, fuel);
      n := k1 + k2;
    }
  }

  /** One round of a loop that starts with its test. */
  lemma TestedRun(w: World, m: Mach, t: EOut, len: nat, off: int, r: SOut, nx: SOut, again: SOut,
                  fuel: nat, k1: nat, k2: nat, k3: nat) returns (n: nat)
    requires TestDone(w, m, t, len, false, off, fuel, k1)
    requires t.EVal? && t.v.b ==>
      var m1 := AfterTest(m, t, len, false, off);
      if Loops(r) && nx.Normal? then
        fuel > 0 && Steps(w, Running(m1), k2).Running? &&
        Same(Running(Later(w, m1, k2)), m1, m.pc, nx.st) &&
        StmtDone(w, Later(w, m1, k2), again, m.pc + len + 1, Keep, Keep, fuel - 1, k3)
      else StmtDone(w, m1, Round(r, nx, STimeout), m.pc + len + 1, Keep, Keep, fuel, k2)
    ensures StmtDone(w, m, TestedRound(t, r, nx, again), m.pc + len + 1, Keep, Keep, fuel, n)
  {
    n := k1;
    if t.EVal? && t.v.b {
      var m1, end := AfterTest(m, t, len, false, off), m.pc + len + 1;
      if Loops(r) && nx.Normal? {
        var m2 := Later(w, m1, k2);
        StepsAdd(w, Running(m), k1, k2);
        Shift(w, m, k1 + k2, m2, again, end, Keep, Keep, fuel - 1, k3, fuel);
        n := k1 + k2 + k3;
      } else {
        Shift(w, m, k1, m1, Round(r, nx, STimeout), end, Keep, Keep, fuel, k2, fuel);
        n := k1 + k2;
      }
    }
  }

  /** One round of a loop without a test; at `t` stands the branch back to the top. */
  lemma EndlessRun(w: World, m: Mach, r: SOut, nx: SOut, again: SOut, t: int, fuel: nat, k1: nat, k2: nat)
    returns (n: nat)
    requires CodeAt(CodeOf(w, m.obj), t, [I(OpBranch(m.pc - t, ModNone))])
    requires
      if Loops(r) && nx.Normal? then
        fuel > 0 && Steps(w, Running(m), k1).Running? &&
        Same(Running(Later(w, m, k1)), m, t, nx.st) &&
        StmtDone(w, Later(w, m, k1).(pc := m.pc), again, t + 1, Keep, Keep, fuel - 1, k2)
      else StmtDone(w, m, Round(r, nx, STimeout), t + 1, Keep, Keep, fuel, k1)
    ensures StmtDone(w, m, Round(r, nx, again), t + 1, Keep, Keep, fuel, n)
  {
    hide CodeAt, Steps;
    n := k1;
    if Loops(r) && nx.Normal? {
      var m2 := Later(w, m, k1);
      StepBranch(w, m, k1, m2, m.pc - t, ModNone);
      var m3 := m2.(pc := m.pc);
      Shift(w, m, k1 + 1, m3, again, t + 1, Keep, Keep, fuel - 1, k2, fuel);
      n := k1 + 1 + k2;
    }
  }

  /** One round of a loop whose test comes last. */
  lemma LastTestRun(w: World, m: Mach, r: SOut, t: EOut, len: nat, off: int, again: SOut, test: int,
                    fuel: nat, k1: nat, k2: nat, k3: nat) returns (n: nat)
    requires StmtDone(w, m, r, test, At(test + len + 1), At(test), fuel, k1)
    requires Loops(r) ==> TestDone(w, Later(w, m, k1), t, len, false, off, fuel, k2)
    requires test + len + off == m.pc
    requires Loops(r) && t.EVal? && t.v.b ==>
      fuel > 0 && StmtDone(w, AfterTest(Later(w, m, k1), t, len, false, off), again, test + len + 1, Keep, Keep,
          fuel - 1, k3)
    ensures StmtDone(w, m,
      if !Loops(r) then Leave(r) else if !t.EVal? then FromE(t) else if t.v == TrueVal then again else Normal(t.st),
      test + len + 1, Keep, Keep, fuel, n)
  {
    n := k1;
    if Loops(r) {
      var m1 := Later(w, m, k1);
      StepsAdd(w, Running(m), k1, k2);
      n := k1 + k2;
      if t.EVal? && t.v.b {
        var m2 := AfterTest(m1, t, len, false, off);
        Shift(w, m, k1 + k2, m2, again, test + len + 1, Keep, Keep, fuel - 1, k3, fuel);
        n := k1 + k2 + k3;
      }
    }
  }

  /** A tail call: the body of the function called returns in place of its caller. */
  lemma TailRun(w: World, m: Mach, a: AOut, len: nat, m1: Mach, r: EOut, fuel: nat, k1: nat, k2: nat) returns (n: nat)
    requires m.frame.Frame? && ArgsDone(w, m, a, len, fuel, k1) && a.AVals?
    requires CodeAt(CodeOf(w, m.obj), m.pc + len, [I(OpTailCall(|a.vs| - 1))])
    requires
      var c := Called(w, m.(pc := m.pc + len, value := a.vs[|a.vs| - 1], store := a.st), a.vs[0], a.vs[1..], m.stack,
        true);
      if c.Running? then
        (if r == ETimeout && fuel == 0 then true
         else c.m == m1 && fuel > 0 && ReturnDone(w, m1, r, fuel - 1, k2))
      else r == ERaise(c.x, c.store)
    ensures ReturnDone(w, m, r, fuel, n)
  {
    hide CodeAt, PushAll, Steps, Alloc, NewBox;
    var last := m.(pc := m.pc + len, value := a.vs[|a.vs| - 1], stack := PushAll(m.stack, a.vs[..|a.vs| - 1]),
      store := a.st);
    StepCall(w, m, k1, last, a.vs, m.stack, true);
    n := k1 + 1;
    var c := Called(w, last, a.vs[0], a.vs[1..], m.stack, true);
    if c.Running? && fuel > 0 {
      StepsAdd(w, Running(m), n, k2);
      n := n + k2;
    }
  }

  lemma StepReturn(w: World, m: Mach, n: nat, m1: Mach, i: Inst)
    requires m1.frame.Frame? && AtInst(w, m, n, m1, i) && !i.push && (i.op.OpReturn? || i.op.OpReturnVoid?)
    ensures Steps(w, Running(m), n + 1) ==
      Running(Mach(m1.frame.saveObj, m1.frame.savePc, if i.op.OpReturn? then m1.value else Void,
                   m1.stack, m1.frame.previous, m1.store))
  {
    OneMore(w, m, n, m1, i);
  }

  lemma StepDefault(w: World, m: Mach, n: nat, m1: Mach, off: int)
    requires m1.stack.Push? && AtInst(w, m, n, m1, I(OpDefault(off)))
    ensures Steps(w, Running(m), n + 1) == Running(m1.(pc := m1.pc + off, stack := m1.stack.rest))
  {
    OneMore(w, m, n, m1, I(OpDefault(off)));
    Drop1(m1.stack);
  }

  lemma StepCase(w: World, m: Mach, n: nat, m1: Mach, off: int)
    requires m1.stack.Push? && AtInst(w, m, n, m1, I(OpCase(off)))
    ensures Steps(w, Running(m), n + 1) ==
      match w.prims.equal(m1.stack.top, m1.value)
      case Raise(x) => Raised(x, m1.store)
      case Val(v) =>
        if v == TrueVal then Running(m1.(pc := m1.pc + off, value := v, stack := m1.stack.rest))
        else Running(m1.(pc := m1.pc + 1, value := v))
  {
    OneMore(w, m, n, m1, I(OpCase(off)));
    Drop1(m1.stack);
  }

  // ----- switch -----

  /** `n` transitions do what the result `r` of a selection says; the subject is on top of the stack. */
  ghost predicate SelDone(w: World, m: Mach, r: Sel, to: int, end: int, fuel: nat, n: nat)
    requires m.stack.Push?
  {
    var c := Steps(w, Running(m), n);
    match r
    case Selected(_, st) => Same(c, m.(stack := m.stack.rest), to, st)
    case Unmatched(st) => Same(c, m, end, st)
    case SelRaise(x, st) => c == Raised(x, st)
    case SelTimeout => n >= fuel && c.Running?
  }

  /** The selection among `arms`, whose first label evaluates to `r` and whose others select `s`. */
  function Compared(pr: Prims, subject: Value, arms: Cases, r: EOut, s: Sel): Sel {
    match r
    case ERaise(x, st) => SelRaise(x, st)
    case ETimeout => SelTimeout
    case EVal(v, st) =>
      match pr.equal(subject, v)
      case Raise(x) => SelRaise(x, st)
      case Val(t) => if t == TrueVal then Selected(arms, st) else s
  }

  /** The machine after a comparison that gave `t`. */
  function Mismatch(m: Mach, r: EOut, len: nat, t: Value): Mach
    requires r.EVal?
  {
    After(m, len, r.v, false, r.st).(pc := m.pc + len + 1, value := t)
  }

  lemma CaseRun(w: World, m: Mach, r: EOut, len: nat, off: int, arms: Cases, s: Sel, to: int, end: int,
                fuel: nat, k1: nat, k2: nat) returns (n: nat)
    requires m.stack.Push? && EvalDone(w, m, r, len, false, fuel, k1)
    requires CodeAt(CodeOf(w, m.obj), m.pc + len, [I(OpCase(off))])
    requires r.EVal? ==>
      var t := w.prims.equal(m.stack.top, r.v);
      t.Val? ==> if t.v == TrueVal then to == m.pc + len + off
          else SelDone(w, Mismatch(m, r, len, t.v), s, to, end, fuel, k2)
    ensures SelDone(w, m, Compared(w.prims, m.stack.top, arms, r, s), to, end, fuel, n)
  {
    hide CodeAt, Steps;
    n := k1;
    if r.EVal? {
      StepCase(w, m, n, After(m, len, r.v, false, r.st), off);
      n := n + 1;
      var t := w.prims.equal(m.stack.top, r.v);
      if t.Val? && t.v != TrueVal {
        StepsAdd(w, Running(m), n, k2);
        n := n + k2;
      }
    }
  }

  /** The machine in front of the arms a switch goes to. */
  ghost function AtArms(w: World, m: Mach, e: EOut, len: nat, sel: Sel, to: int, k: nat): Mach
    requires e.EVal? && (sel.Selected? || sel.Unmatched?) &&
      Steps(w, Running(After(m, len, e.v, true, e.st)), k).Running?
  {
    m.(pc := to, store := sel.st, value := Later(w, After(m, len, e.v, true, e.st), k).value)
  }

  /** The result of a switch with subject `e`, selection `sel` and result `r` of the arms. */
  function Switched(e: EOut, sel: Sel, r: SOut): SOut {
    if !e.EVal? then FromE(e)
    else match sel
      case SelRaise(x, st) => SRaise(x, st)
      case SelTimeout => STimeout
      case _ => LeaveSwitch(r)
  }

  /** Subject and comparisons of a switch, and the default if nothing was selected. */
  lemma SelectRun(w: World, m: Mach, e: EOut, len: nat, sel: Sel, to: int, tests: int, off: int,
                  fuel: nat, k1: nat, k2: nat) returns (n: nat)
    requires EvalDone(w, m, e, len, true, fuel, k1) && e.EVal?
    requires SelDone(w, After(m, len, e.v, true, e.st), sel, to, tests, fuel, k2)
    requires sel.Unmatched? ==> to == tests + off
    requires CodeAt(CodeOf(w, m.obj), tests, [I(OpDefault(off))])
    ensures
      if sel.Selected? || sel.Unmatched? then Steps(w, Running(m), n) == Running(AtArms(w, m, e, len, sel, to, k2))
      else StmtDone(w, m, Switched(e, sel, STimeout), 0, Keep, Keep, fuel, n)
  {
    StepsAdd(w, Running(m), k1, k2);
    n := k1 + k2;
    if sel.Unmatched? {
      StepDefault(w, m, n, Later(w, After(m, len, e.v, true, e.st), k2), off);
      n := n + 1;
    }
  }

  /** A break out of a switch goes to its end. */
  lemma SwitchRun(w: World, m: Mach, k: nat, m1: Mach, r: SOut, end: int, brk: Target, cont: Target, fuel: nat, k3: nat)
    requires Steps(w, Running(m), k) == Running(m1) && Same(Running(m1), m, m1.pc, m1.store)
    requires StmtDone(w, m1, r, end, At(end), cont, fuel, k3)
    ensures StmtDone(w, m, LeaveSwitch(r), end, brk, cont, fuel, k + k3)
  {
    Shift(w, m, k, m1, r, end, At(end), cont, fuel, k3, fuel);
  }
}
