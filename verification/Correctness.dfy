/** Whole programs: the compiled program behaves exactly as the reference semantics says. */
module Correctness {
  import opened Values
  import opened Machine
  import opened Syntax
  import opened Codegen
  import opened Placement
  import opened Compose
  import opened Simulation

  /** The compiled program, about to call function `main`. */
  function WorldOf(p: Prog, main: nat): World {
    World(p.prims, Objects(p), StartCode(main))
  }

  function StartMach(p: Prog, st: Store): Mach {
    Mach(|p.funs|, 0, Void, Empty, NoFrame, st)
  }

  /** The configuration the compiled program reaches after `n` instructions. */
  function Run(p: Prog, main: nat, st: Store, n: nat): Conf {
    Steps(WorldOf(p, main), Running(StartMach(p, st)), n)
  }

  /** What the source program means, given `fuel`. */
  function Meaning(p: Prog, main: nat, st: Store, fuel: nat): EOut {
    Apply(p, Func(main), [], st, fuel)
  }

  /** The final configuration `c` is the outcome `r`. */
  predicate Agrees(r: EOut, c: Conf) {
    match r
    case EVal(v, st) => c == Finished(v, st)
    case ERaise(x, st) => c == Raised(x, st)
    case ETimeout => false
  }

  /** The compiled program does within some number of instructions what the meaning says, or outlives the fuel. */
  lemma Forward(p: Prog, main: nat, st: Store, fuel: nat) returns (n: nat)
    requires Clean(p)
    ensures
      var r, c := Meaning(p, main, st, fuel), Run(p, main, st, n);
      if r == ETimeout then n >= fuel && c.Running? else Agrees(r, c)
  {
    hide Alloc, AssignInst, AssignOpInst, BinInst, BranchOn, CaseInst, Exec, LoadCell, NewBox, ReachesEnd, Read, Step,
      UnInst;
    var w, m := WorldOf(p, main), StartMach(p, st);
    var code := StartCode(main);
    assert CodeOf(w, m.obj) == code;
    n := 0;
    StepConst(w, m, n, m, Func(main), false);
    n := n + 1;
    var m1 := After(m, 1, Func(main), false, st);
    assert AtInst(w, m, n, m1, I(OpCall(0)));
    OneMore(w, m, n, m1, I(OpCall(0)));
    n := n + 1;
    var c := ThreadCall(w, m1, false, 0, false);
    var r := Meaning(p, main, st, fuel);
    if c.Running? && fuel > 0 {
      assert Args(m1.stack, m1.value, 0) == [];
      var k := BodySim(w, p, main, c.m, fuel - 1);
      StepsAdd(w, Running(m), n, k);
      n := n + k;
      if r.EVal? {
        n := Finish(w, main, m, n, m.(pc := 2, value := r.v, store := r.st));
      }
    }
  }

  lemma StartParts(main: nat)
    ensures CodeAt(StartCode(main), 2, [I(OpNoop)]) && CodeAt(StartCode(main), 3, [I(OpEnd)])
  {
    var front := [I(OpConst(Func(main))), I(OpCall(0))];
    assert StartCode(main) == front + [I(OpNoop)] + [I(OpEnd)];
    Split3(StartCode(main), 0, front, [I(OpNoop)], [I(OpEnd)]);
  }

  /** Behind the call of the main function. */
  lemma Finish(w: World, main: nat, m: Mach, k: nat, m1: Mach) returns (n: nat)
    requires CodeOf(w, m1.obj) == StartCode(main) && m1.pc == 2
    requires Steps(w, Running(m), k) == Running(m1)
    ensures Steps(w, Running(m), n) == Finished(m1.value, m1.store)
  {
    var m2 := After(m1, 1, m1.value, false, m1.store);
    StartParts(main);
    hide Steps, StartCode, CodeAt;
    StepNoop(w, m, k, m1, false);
    OneMore(w, m, k + 1, m2, I(OpEnd));
    n := k + 2;
  }

  /** A machine that has stopped after both `i` and `j` instructions has stopped in the same way. */
  lemma StoppedOnce(w: World, c: Conf, i: nat, j: nat)
    requires !Steps(w, c, i).Running? && i <= j
    ensures Steps(w, c, i) == Steps(w, c, j)
  {
    StepsAdd(w, c, i, j - i);
    StoppedStays(w, Steps(w, c, i), j - i);
  }

  /**
   * The main theorem: the compiled program stops in configuration `c` exactly if the source
   * program has the outcome `c`.  So it never crashes, and it runs forever exactly if the
   * source program does.
   */
  lemma CompiledCorrectly(p: Prog, main: nat, st: Store, c: Conf)
    requires Clean(p) && !c.Running?
    ensures (exists n :: Run(p, main, st, n) == c) <==> (exists fuel :: Agrees(Meaning(p, main, st, fuel), c))
  {
    var w, start := WorldOf(p, main), Running(StartMach(p, st));
    if n :| Run(p, main, st, n) == c {
      var k := Forward(p, main, st, n + 1);
      if n <= k { StoppedOnce(w, start, n, k); } else { StoppedOnce(w, start, k, n); }
      assert Agrees(Meaning(p, main, st, n + 1), c);
    }
    if fuel :| Agrees(Meaning(p, main, st, fuel), c) {
      var k := Forward(p, main, st, fuel);
      assert Run(p, main, st, k) == c;
    }
  }

  /**
   * No run of a compiled program leaves its code, pops an empty stack or returns without a frame:
   * every instruction executed lies inside its object.
   */
  lemma NeverCrashes(p: Prog, main: nat, st: Store, n: nat)
    requires Clean(p)
    ensures
      var c := Run(p, main, st, n);
      c != Crashed && (c.Running? ==> 0 <= c.m.pc < |CodeOf(WorldOf(p, main), c.m.obj)|)
  {
    forall k ensures Run(p, main, st, k) != Crashed {
      CompiledCorrectly(p, main, st, Crashed);
    }
    var w, start := WorldOf(p, main), Running(StartMach(p, st));
    StepsAdd(w, start, n, 1);
    assert Steps(w, Run(p, main, st, n), 1) == Step(w, Run(p, main, st, n));
    assert Run(p, main, st, n + 1) != Crashed;
  }

  /** The compiled program runs forever exactly if no fuel suffices for the source program. */
  lemma DivergesAlike(p: Prog, main: nat, st: Store)
    requires Clean(p)
    ensures (forall n :: Run(p, main, st, n).Running?) <==> (forall fuel :: Meaning(p, main, st, fuel) == ETimeout)
  {
    if n :| !Run(p, main, st, n).Running? {
      CompiledCorrectly(p, main, st, Run(p, main, st, n));
    }
    if fuel :| Meaning(p, main, st, fuel) != ETimeout {
      var k := Forward(p, main, st, fuel);
    }
  }

  /** The outcome of a source program does not depend on the fuel. */
  lemma OneOutcome(p: Prog, main: nat, st: Store, f1: nat, f2: nat)
    requires Clean(p)
    requires Meaning(p, main, st, f1) != ETimeout && Meaning(p, main, st, f2) != ETimeout
    ensures Meaning(p, main, st, f1) == Meaning(p, main, st, f2)
  {
    var w, start := WorldOf(p, main), Running(StartMach(p, st));
    var i := Forward(p, main, st, f1);
    var j := Forward(p, main, st, f2);
    if i <= j { StoppedOnce(w, start, i, j); } else { StoppedOnce(w, start, j, i); }
  }

  // ----- frames -----

  /** How many of the next `n` instructions are ordinary calls that are carried out, or returns. */
  function Entered(w: World, c: Conf, n: nat): int
    decreases n
  {
    if n == 0 then 0 else FrameChange(w, c) + Entered(w, Step(w, c), n - 1)
  }

  function FrameChange(w: World, c: Conf): int {
    if c.Running? && 0 <= c.m.pc < |CodeOf(w, c.m.obj)| then
      match CodeOf(w, c.m.obj)[c.m.pc].op
      case OpCall(_) => 1
      case OpReturn => -1
      case OpReturnVoid => -1
      case _ => 0
    else 0
  }

  /** One instruction changes the frame depth only if it is a call or a return. */
  lemma FrameStep(w: World, c: Conf)
    requires c.Running? && Step(w, c).Running?
    ensures Depth(Step(w, c).m.frame) == Depth(c.m.frame) + FrameChange(w, c)
  {
    hide Dropped, Height, Elt, Args, NewBox, Read, Write;
  }

  /**
   * Over any run the depth of frames is that at its beginning plus the calls minus the returns.
   * Tail calls do not count, so a chain of tail calls of any length runs at constant depth.
   */
  lemma {:induction false} FrameBalance(w: World, c: Conf, n: nat)
    requires Steps(w, c, n).Running?
    ensures c.Running? && Depth(Steps(w, c, n).m.frame) == Depth(c.m.frame) + Entered(w, c, n)
    decreases n
  {
    if n > 0 {
      if !c.Running? { StoppedStays(w, c, n); }
      if !Step(w, c).Running? { StoppedStays(w, Step(w, c), n - 1); }
      FrameStep(w, c);
      hide Step, FrameChange;
      FrameBalance(w, Step(w, c), n - 1);
    }
  }
}
