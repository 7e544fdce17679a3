/** The instruction loop: registers, stack and frame of a thread updated in place. */
module Execute {
  import opened Values
  import opened Machine
  import opened Syntax
  import opened Codegen
  import opened Correctness
  import opened Compiler

  datatype Status = Going | Threw(x: Exn) | Ended | Lost

  /** A thread with its continuation. */
  class Thread {
    var obj: nat
    var pc: int
    var value: Value
    var stack: Stack
    var frame: Frame
    var store: Store
    var status: Status

    ghost function State(): Conf
      reads this
    {
      match status
      case Going => Running(Mach(obj, pc, value, stack, frame, store))
      case Threw(x) => Raised(x, store)
      case Ended => Finished(value, store)
      case Lost => Crashed
    }

    constructor (obj: nat, store: Store)
      ensures State() == Running(Mach(obj, 0, Void, Empty, NoFrame, store))
    {
      this.obj, this.store := obj, store;
      pc, value, stack, frame, status := 0, Void, Empty, NoFrame, Going;
    }

    method RaiseStandardException(x: Exn)
      modifies this`status
      ensures status == Threw(x)
    {
      status := Threw(x);
    }

    /** Store `v` through the reference `r`. */
    method ThreadAssign(r: Value, v: Value)
      modifies this`store, this`status
      ensures
        if !r.Ref? then status == Threw(InvalidBinop(r, v)) && store == old(store)
        else if !InStore(old(store), r.loc) then status == Threw(InvalidArrayBounds(v)) && store == old(store)
        else status == old(status) && store == Write(old(store), r.loc, v)
    {
      if !r.Ref? {
        RaiseStandardException(InvalidBinop(r, v));
      } else if !InStore(store, r.loc) {
        RaiseStandardException(InvalidArrayBounds(v));
      } else {
        store := Write(store, r.loc, v);
      }
    }

    /** Check and carry out a call, up to the operands on the stack; `next` is where control goes. */
    method ThreadCall(w: World, argc: nat, tail: bool) returns (next: int)
      requires argc <= Height(stack) && status == Going
      modifies this`obj, this`frame, this`store, this`status
      ensures
        var m := Mach(old(obj), pc, value, stack, old(frame), old(store));
        match Machine.ThreadCall(w, m, false, argc, tail)
        case Running(m1) =>
          status == Going && obj == m1.obj && frame == m1.frame && store == m1.store && next == m1.pc &&
              m1.value == value
        case Raised(x, st) => status == Threw(x) && store == st
        case Crashed => status == Lost
        case Finished(_, _) => false
    {
      next := pc + 1;
      var func := if argc > 0 then Elt(stack, argc - 1) else value;
      if !(func.Func? && func.f < |w.objs|) {
        RaiseStandardException(InvalidUnop(func));
        return;
      }
      var o := w.objs[func.f];
      if o.argc != argc {
        RaiseStandardException(BadArgCount(argc, o.argc));
        return;
      }
      if tail && frame.NoFrame? {
        status := Lost;
        return;
      }
      var box := NewBox(Args(stack, value, argc), o.autos);
      if tail {
        frame := Frame(|store.boxes|, frame.savePc, frame.saveObj, frame.previous);
      } else {
        frame := Frame(|store.boxes|, pc + 1, obj, frame);
      }
      store := Alloc(store, box);
      obj := func.f;
      next := 0;
    }

    /** Return from the current function. */
    method ThreadReturn() returns (next: int)
      modifies this`obj, this`frame, this`status
      ensures
        if old(frame).NoFrame? then status == Threw(InvalidArgument(Void)) && frame == old(frame) && obj == old(obj)
        else
          && status == old(status) && next == old(frame).savePc
          && obj == old(frame).saveObj && frame == old(frame).previous
    {
      next := pc + 1;
      if frame.NoFrame? {
        RaiseStandardException(InvalidArgument(Void));
      } else {
        next, obj, frame := frame.savePc, frame.saveObj, frame.previous;
      }
    }

    method LoadCell(c: Cell) returns (v: Value)
      modifies this`status
      ensures if c.Some? then v == c.value && status == old(status) else status == Threw(UninitializedValue)
    {
      if c.Some? { v := c.value; } else { v := Void; RaiseStandardException(UninitializedValue); }
    }

    /** A primitive operator applied: its value, or its exception raised. */
    method Operate(r: OpResult) returns (v: Value)
      modifies this`status
      ensures if r.Val? then v == r.v && status == old(status) else status == Threw(r.x)
    {
      if r.Val? { v := r.v; } else { v := Void; RaiseStandardException(r.x); }
    }

    /** Common end of an instruction: operands dropped, value pushed if wanted, program counter advanced. */
    method Retire(v: Value, drop: nat, push: bool, next: int)
      requires status == Going
      modifies this`value, this`stack, this`pc, this`status
      ensures State() == Machine.Retire(Mach(obj, old(pc), old(value), old(stack), frame, store), push, v, drop, next)
    {
      if Height(stack) < drop {
        status := Lost;
      } else {
        value := v;
        var d := 0;
        ghost var s := stack;
        while d < drop
          invariant d <= drop <= Height(s) && value == v && status == Going
          invariant drop - d <= Height(stack) && Dropped(stack, drop - d) == Dropped(s, drop)
        {
          stack := stack.rest;
          d := d + 1;
        }
        if push { stack := Push(v, stack); }
        pc := next;
      }
    }

    /** Execute the instruction at the program counter. */
    method Step(w: World)
      modifies this
      ensures State() == Machine.Step(w, old(State()))
    {
      if status != Going { return; }
      if !(0 <= pc < |CodeOf(w, obj)|) {
        status := Lost;
        return;
      }
      var inst := CodeOf(w, obj)[pc];
      match inst.op {
        case OpReturn => var next := ThreadReturn(); Complete(value, 0, inst.push, next);
        case OpReturnVoid => var next := ThreadReturn(); Complete(Void, 0, inst.push, next);
        case OpCall(argc) => Call(w, argc, false, inst.push);
        case OpTailCall(argc) => Call(w, argc, true, inst.push);
        case OpAssign => Assign(inst);
        case OpAssignOp(op) => AssignOp(w, op, inst);
        case OpPre(op) => IncDec(w, op, true, inst);
        case OpPost(op) => IncDec(w, op, false, inst);
        case OpEnd => status := Ended;
        case _ => Simple(w, inst);
      }
    }

    /** Retire unless the instruction raised an exception. */
    method Complete(v: Value, drop: nat, push: bool, next: int)
      modifies this`value, this`stack, this`pc, this`status
      ensures
        if old(status) == Going then
          State() == Machine.Retire(Mach(obj, old(pc), old(value), old(stack), frame, store), push, v, drop, next)
        else value == old(value) && stack == old(stack) && pc == old(pc) && status == old(status)
    {
      if status == Going { Retire(v, drop, push, next); }
    }

    method Call(w: World, argc: nat, tail: bool, push: bool)
      requires status == Going
      modifies this
      ensures State() == Machine.ThreadCall(w, old(State()).m, push, argc, tail)
    {
      if Height(stack) < argc {
        status := Lost;
      } else {
        var next := ThreadCall(w, argc, tail);
        Complete(value, argc, push, next);
      }
    }

    method Assign(inst: Inst)
      requires status == Going
      modifies this
      ensures State() == AssignInst(old(State()).m, inst.push)
    {
      if stack.Empty? {
        status := Lost;
      } else {
        ThreadAssign(stack.top, value);
        Complete(value, 1, inst.push, pc + 1);
      }
    }

    method AssignOp(w: World, op: nat, inst: Inst)
      requires status == Going
      modifies this
      ensures State() == AssignOpInst(w, old(State()).m, inst.push, op)
    {
      if Height(stack) < 2 {
        status := Lost;
      } else {
        var v := Operate(w.prims.binary(op, stack.top, value));
        if status == Going { ThreadAssign(Elt(stack, 1), v); }
        Complete(v, 2, inst.push, pc + 1);
      }
    }

    method IncDec(w: World, op: nat, pre: bool, inst: Inst)
      requires status == Going
      modifies this
      ensures State() == Machine.IncDec(w, old(State()).m, inst.push, op, pre)
    {
      if !value.Ref? {
        RaiseStandardException(InvalidUnop(value));
      } else {
        var v := LoadCell(Read(store, value.loc));
        if status == Going {
          var nv := Operate(w.prims.incDec(op, v));
          if status == Going { ThreadAssign(value, nv); }
          Complete(if pre then nv else v, 0, inst.push, pc + 1);
        }
      }
    }

    /** The instructions that change only accumulator, stack and program counter. */
    method Simple(w: World, inst: Inst)
      requires status == Going
      requires !inst.op.OpReturn? && !inst.op.OpReturnVoid? && !inst.op.OpCall? && !inst.op.OpTailCall?
      requires !inst.op.OpAssign? && !inst.op.OpAssignOp? && !inst.op.OpPre? && !inst.op.OpPost? && !inst.op.OpEnd?
      modifies this
      ensures State() == ExecInst(w, old(State()).m, inst)
    {
      var v, drop, next := value, 0, pc + 1;
      match inst.op {
        case OpNoop =>
        case OpBranch(off, _) => next := pc + off;
        case OpBranchFalse(off) =>
          if !value.Bool? { RaiseStandardException(InvalidArgument(value)); }
          else if !value.b { next := pc + off; }
        case OpBranchTrue(off) =>
          if !value.Bool? { RaiseStandardException(InvalidArgument(value)); }
          else if value.b { next := pc + off; }
        case OpCase(off) =>
          if stack.Empty? { status := Lost; } else {
            v := Operate(w.prims.equal(stack.top, value));
            if status == Going && v == TrueVal { drop, next := 1, pc + off; }
          }
        case OpDefault(off) => drop, next := 1, pc + off;
        case OpGlobal(g) => v := LoadCell(Read(store, GlobalLoc(g)));
        case OpGlobalRef(g) => v := Ref(GlobalLoc(g));
        case OpGlobalRefStore(g) => v := Ref(GlobalLoc(g));
        case OpLocal(e) =>
          if frame.NoFrame? { status := Lost; } else { v := LoadCell(Read(store, LocalLoc(frame.box, e))); }
        case OpLocalRef(e) =>
          if frame.NoFrame? { status := Lost; } else { v := Ref(LocalLoc(frame.box, e)); }
        case OpLocalRefStore(e) =>
          if frame.NoFrame? { status := Lost; } else { v := Ref(LocalLoc(frame.box, e)); }
        case OpFetch =>
          if value.Ref? { v := LoadCell(Read(store, value.loc)); } else { RaiseStandardException(InvalidUnop(value)); }
        case OpConst(k) => v := k;
        case OpBin(op) =>
          if stack.Empty? { status := Lost; } else {
            v := Operate(w.prims.binary(op, stack.top, value));
            drop := 1;
          }
        case OpUn(op) => v := Operate(w.prims.unary(op, value));
        case OpDrop => drop := 1;
      }
      Complete(v, drop, inst.push, next);
    }

    /** Execute until the thread stops or `n` instructions have been executed. */
    method Run(w: World, n: nat)
      modifies this
      ensures State() == Steps(w, old(State()), n)
    {
      var i := 0;
      while i < n && status == Going
        invariant i <= n
        invariant Steps(w, State(), n - i) == Steps(w, old(State()), n)
      {
        Step(w);
        i := i + 1;
      }
      if status != Going { StoppedStays(w, State(), n - i); }
    }
  }

  /**
   * Compile a program and run it: the thread does what the source program means.  If the fuel suffices
   * for the source program, some number of instructions suffices for the thread.
   */
  method RunProgram(p: Prog, main: nat, st: Store, n: nat) returns (t: Thread, clean: bool)
    ensures fresh(t) && (clean <==> Clean(p)) && t.State() == Correctness.Run(p, main, st, n)
    ensures clean && !t.State().Running? ==> exists fuel :: Agrees(Meaning(p, main, st, fuel), t.State())
  {
    var objs: seq<Obj>;
    objs, clean := CompileProgram(p);
    t := new Thread(|p.funs|, st);
    t.Run(World(p.prims, objs, StartCode(main)), n);
    if clean && t.status != Going {
      CompiledCorrectly(p, main, st, t.State());
    }
  }
}
