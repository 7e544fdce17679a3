/** The virtual machine: instructions, machine state and the effect of one instruction. */
module Machine {
  import opened Options
  import opened Values

  /** Which statement a branch still waiting for its target came from. */
  datatype BranchMod = ModNone | ModBreak | ModContinue

  datatype Op =
    | OpNoop
    | OpBranch(offset: int, mod: BranchMod)
    | OpBranchFalse(offset: int)
    | OpBranchTrue(offset: int)
    | OpCase(offset: int)
    | OpDefault(offset: int)
    | OpReturn
    | OpReturnVoid
    | OpGlobal(g: nat)
    | OpGlobalRef(g: nat)
    | OpGlobalRefStore(g: nat)
    | OpLocal(elt: nat)
    | OpLocalRef(elt: nat)
    | OpLocalRefStore(elt: nat)
    | OpFetch
    | OpConst(constant: Value)
    | OpBin(op: nat)
    | OpUn(op: nat)
    | OpPre(op: nat)
    | OpPost(op: nat)
    | OpAssign
    | OpAssignOp(op: nat)
    | OpCall(argc: nat)
    | OpTailCall(argc: nat)
    | OpDrop
    | OpEnd

  datatype Inst = Inst(op: Op, push: bool)

  type Code = seq<Inst>

  /** A compiled function: its code, number of formals and number of automatic variables. */
  datatype Obj = Obj(code: Code, argc: nat, autos: nat)

  /** Everything a run depends on besides the machine state: the functions and the code it starts in. */
  datatype World = World(prims: Prims, objs: seq<Obj>, start: Code)

  /** Objects are known by number; any number beyond the functions stands for the start code. */
  function CodeOf(w: World, obj: nat): Code {
    if obj < |w.objs| then w.objs[obj].code else w.start
  }

  datatype Frame =
    | NoFrame
    | Frame(box: nat, savePc: int, saveObj: nat, previous: Frame)

  function Depth(f: Frame): nat {
    match f
    case NoFrame => 0
    case Frame(_, _, _, p) => 1 + Depth(p)
  }

  datatype Stack = Empty | Push(top: Value, rest: Stack)

  function Height(s: Stack): nat {
    match s
    case Empty => 0
    case Push(_, r) => 1 + Height(r)
  }

  function Elt(s: Stack, i: nat): Value
    requires i < Height(s)
  {
    if i == 0 then s.top else Elt(s.rest, i - 1)
  }

  function Dropped(s: Stack, n: nat): Stack
    requires n <= Height(s)
  {
    if n == 0 then s else Dropped(s.rest, n - 1)
  }

  /** The registers of a running thread. */
  datatype Mach = Mach(obj: nat, pc: int, value: Value, stack: Stack, frame: Frame, store: Store)

  datatype Conf =
    | Running(m: Mach)
    | Raised(x: Exn, store: Store)
    | Finished(value: Value, store: Store)
    | Crashed

  /** Common end of an instruction: drop operands, push the value if the push flag is set, go to `next`. */
  function Retire(m: Mach, push: bool, v: Value, drop: nat, next: int): Conf {
    if Height(m.stack) < drop then Crashed
    else
      var s := Dropped(m.stack, drop);
      Running(m.(pc := next, value := v, stack := if push then Push(v, s) else s))
  }

  /** Store `v` through reference `r`, then retire with `result` in the accumulator. */
  function AssignThrough(m: Mach, push: bool, r: Value, v: Value, result: Value, drop: nat): Conf {
    if !r.Ref? then Raised(InvalidBinop(r, v), m.store)
    else if !InStore(m.store, r.loc) then Raised(InvalidArrayBounds(v), m.store)
    else Retire(m.(store := Write(m.store, r.loc, v)), push, result, drop, m.pc + 1)
  }

  function LoadCell(m: Mach, push: bool, c: Cell): Conf {
    match c
    case None => Raised(UninitializedValue, m.store)
    case Some(v) => Retire(m, push, v, 0, m.pc + 1)
  }

  function BranchOn(m: Mach, push: bool, sense: bool, offset: int): Conf {
    if !m.value.Bool? then Raised(InvalidArgument(m.value), m.store)
    else Retire(m, push, m.value, 0, if m.value.b == sense then m.pc + offset else m.pc + 1)
  }

  function IncDec(w: World, m: Mach, push: bool, op: nat, pre: bool): Conf {
    if !m.value.Ref? then Raised(InvalidUnop(m.value), m.store)
    else match Read(m.store, m.value.loc)
      case None => Raised(UninitializedValue, m.store)
      case Some(v) =>
        match w.prims.incDec(op, v)
        case Raise(x) => Raised(x, m.store)
        case Val(nv) => AssignThrough(m, push, m.value, nv, if pre then nv else v, 0)
  }

  function CaseInst(w: World, m: Mach, push: bool, off: int): Conf {
    if m.stack.Empty? then Crashed
    else match w.prims.equal(m.stack.top, m.value)
      case Raise(x) => Raised(x, m.store)
      case Val(v) =>
        if v == TrueVal then Retire(m, push, v, 1, m.pc + off) else Retire(m, push, v, 0, m.pc + 1)
  }

  function BinInst(w: World, m: Mach, push: bool, op: nat): Conf {
    if m.stack.Empty? then Crashed
    else match w.prims.binary(op, m.stack.top, m.value)
      case Raise(x) => Raised(x, m.store)
      case Val(v) => Retire(m, push, v, 1, m.pc + 1)
  }

  function UnInst(w: World, m: Mach, push: bool, op: nat): Conf {
    match w.prims.unary(op, m.value)
    case Raise(x) => Raised(x, m.store)
    case Val(v) => Retire(m, push, v, 0, m.pc + 1)
  }

  function AssignInst(m: Mach, push: bool): Conf {
    if m.stack.Empty? then Crashed else AssignThrough(m, push, m.stack.top, m.value, m.value, 1)
  }

  function AssignOpInst(w: World, m: Mach, push: bool, op: nat): Conf {
    if Height(m.stack) < 2 then Crashed
    else match w.prims.binary(op, m.stack.top, m.value)
      case Raise(x) => Raised(x, m.store)
      case Val(v) => AssignThrough(m, push, Elt(m.stack, 1), v, v, 2)
  }

  /** Actual arguments of a call: all but the last are on the stack, the last is the accumulator. */
  function Args(s: Stack, value: Value, argc: nat): (r: seq<Value>)
    requires argc <= Height(s)
    ensures |r| == argc
  {
    seq(argc, k requires 0 <= k < argc => if k <= argc - 2 then Elt(s, argc - 2 - k) else value)
  }

  function ThreadCall(w: World, m: Mach, push: bool, argc: nat, tail: bool): Conf {
    if Height(m.stack) < argc then Crashed
    else
      var func := if argc > 0 then Elt(m.stack, argc - 1) else m.value;
      if !(func.Func? && func.f < |w.objs|) then Raised(InvalidUnop(func), m.store)
      else
        var o := w.objs[func.f];
        if o.argc != argc then Raised(BadArgCount(argc, o.argc), m.store)
        else if tail && m.frame.NoFrame? then Crashed
        else
          var st := Alloc(m.store, NewBox(Args(m.stack, m.value, argc), o.autos));
          var b := |m.store.boxes|;
          var fr :=
            if tail then Frame(b, m.frame.savePc, m.frame.saveObj, m.frame.previous)
            else Frame(b, m.pc + 1, m.obj, m.frame);
          Retire(m.(obj := func.f, frame := fr, store := st), push, m.value, argc, 0)
  }

  function ThreadReturn(m: Mach, push: bool, v: Value): Conf {
    if m.frame.NoFrame? then Raised(InvalidArgument(Void), m.store)
    else
      Retire(m.(obj := m.frame.saveObj, frame := m.frame.previous), push, v, 0, m.frame.savePc)
  }

  /** The effect of one instruction on a machine whose program counter designates it. */
  function ExecInst(w: World, m: Mach, inst: Inst): Conf {
    var p := inst.push;
    match inst.op
    case OpNoop => Retire(m, p, m.value, 0, m.pc + 1)
    case OpBranch(off, _) => Retire(m, p, m.value, 0, m.pc + off)
    case OpBranchFalse(off) => BranchOn(m, p, false, off)
    case OpBranchTrue(off) => BranchOn(m, p, true, off)
    case OpCase(off) => CaseInst(w, m, p, off)
    case OpDefault(off) => Retire(m, p, m.value, 1, m.pc + off)
    case OpReturn => ThreadReturn(m, p, m.value)
    case OpReturnVoid => ThreadReturn(m, p, Void)
    case OpGlobal(g) => LoadCell(m, p, Read(m.store, GlobalLoc(g)))
    case OpGlobalRef(g) => Retire(m, p, Ref(GlobalLoc(g)), 0, m.pc + 1)
    case OpGlobalRefStore(g) => Retire(m, p, Ref(GlobalLoc(g)), 0, m.pc + 1)
    case OpLocal(e) =>
      if m.frame.NoFrame? then Crashed else LoadCell(m, p, Read(m.store, LocalLoc(m.frame.box, e)))
    case OpLocalRef(e) =>
      if m.frame.NoFrame? then Crashed else Retire(m, p, Ref(LocalLoc(m.frame.box, e)), 0, m.pc + 1)
    case OpLocalRefStore(e) =>
      if m.frame.NoFrame? then Crashed else Retire(m, p, Ref(LocalLoc(m.frame.box, e)), 0, m.pc + 1)
    case OpFetch =>
      if m.value.Ref? then LoadCell(m, p, Read(m.store, m.value.loc)) else Raised(InvalidUnop(m.value), m.store)
    case OpConst(v) => Retire(m, p, v, 0, m.pc + 1)
    case OpBin(op) => BinInst(w, m, p, op)
    case OpUn(op) => UnInst(w, m, p, op)
    case OpPre(op) => IncDec(w, m, p, op, true)
    case OpPost(op) => IncDec(w, m, p, op, false)
    case OpAssign => AssignInst(m, p)
    case OpAssignOp(op) => AssignOpInst(w, m, p, op)
    case OpCall(argc) => ThreadCall(w, m, p, argc, false)
    case OpTailCall(argc) => ThreadCall(w, m, p, argc, true)
    case OpDrop => Retire(m, p, m.value, 1, m.pc + 1)
    case OpEnd => Finished(m.value, m.store)
  }

  /** One transition; a configuration that is not running stays as it is. */
  function Step(w: World, c: Conf): Conf {
    if !c.Running? then c
    else
      var m := c.m;
      if !(0 <= m.pc < |CodeOf(w, m.obj)|) then Crashed
      else ExecInst(w, m, CodeOf(w, m.obj)[m.pc])
  }

  /** `n` transitions. */
  function Steps(w: World, c: Conf, n: nat): Conf
    decreases n
  {
    if n == 0 then c else Steps(w, Step(w, c), n - 1)
  }

  lemma {:induction false} StepsAdd(w: World, c: Conf, m: nat, n: nat)
    ensures Steps(w, c, m + n) == Steps(w, Steps(w, c, m), n)
    decreases m
  {
    if m > 0 {
      StepsAdd(w, Step(w, c), m - 1, n);
    }
  }

  lemma {:induction false} StoppedStays(w: World, c: Conf, n: nat)
    requires !c.Running?
    ensures Steps(w, c, n) == c
    decreases n
  {
    if n > 0 {
      StoppedStays(w, c, n - 1);
    }
  }
}
