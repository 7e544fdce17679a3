/** Mutexes built from semaphores: each instruction of acquire, try_acquire and release on its own. */
module Mutexes {
  import opened Options
  import opened Semaphores

  /** How far a thread is in an operation on a mutex. */
  datatype Phase =
    | Idle
    | Acquiring(m: nat)   // the owner has been checked, the wait comes next or is under way
    | Trying(m: nat)      // the owner has been checked, the test comes next
    | Got(m: nat)         // the semaphore has been taken, the owner is not yet set
    | Releasing(m: nat)   // the owner has been cleared, the signal comes next

  /** Mutex `m` uses semaphore `m` for itself; the semaphores beyond are for all. */
  datatype MState = MState(base: State, phases: seq<Phase>, owners: seq<Option<nat>>)

  /** What the first runnable thread does: start an operation, go on with it, or something else. */
  datatype MAction = Acquire(m: nat) | TryAcquire(m: nat) | Release(m: nat) | Continue | Plain(a: Action)

  function Head(ms: MState): nat
    requires ms.base.running != []
  {
    ms.base.running[0]
  }

  /** The instruction that is executed. */
  function BaseAction(ms: MState, a: MAction): Action
    requires ms.base.running != [] && Head(ms) < |ms.phases|
  {
    match a
    case Plain(b) => b
    case Continue =>
      (match ms.phases[Head(ms)]
        case Acquiring(m) => Wait(m)
        case Trying(m) => Test(m)
        case Releasing(m) => Signal(m)
        case _ => Other)
    case _ => Other
  }

  ghost predicate MAllowed(ms: MState, a: MAction) {
    && Queues(ms.base) && RunnableHead(ms.base)
    && |ms.phases| == |ms.base.threads| && |ms.owners| <= |ms.base.sems|
    && (match a
        case Acquire(m) => ms.phases[Head(ms)].Idle? && m < |ms.owners|
        case TryAcquire(m) => ms.phases[Head(ms)].Idle? && m < |ms.owners|
        case Release(m) => ms.phases[Head(ms)].Idle? && m < |ms.owners|
        case Continue => !ms.phases[Head(ms)].Idle?
        case Plain(b) =>
          ms.phases[Head(ms)].Idle? && !(b.Wait? && b.s < |ms.owners|) && !(b.Signal? && b.s < |ms.owners|) &&
              !(b.Test? && b.s < |ms.owners|))
    && Allowed(ms.base, BaseAction(ms, a))
  }

  /** Whether the semaphore is obtained by the wait or test that goes on. */
  predicate Obtains(st: State, s: nat)
    requires st.running != [] && st.running[0] < |st.threads| && s < |st.sems|
  {
    st.threads[st.running[0]].partial.Some? || st.sems[s] > 0
  }

  function Phases(ms: MState, a: MAction): seq<Phase>
    requires RunnableHead(ms.base) && Head(ms) < |ms.phases| && Allowed(ms.base, BaseAction(ms, a))
    requires a.Acquire? || a.TryAcquire? || a.Release? ==> a.m < |ms.owners|
  {
    var t := Head(ms);
    var ps := ms.phases;
    match a
    case Acquire(m) => if ms.owners[m] == Some(t) then ps else ps[t := Acquiring(m)]     // else: deadlock is raised
    case TryAcquire(m) => if ms.owners[m] == Some(t) then ps else ps[t := Trying(m)]
    case Release(m) => if ms.owners[m] == Some(t) then ps[t := Releasing(m)] else ps     // else: notowned is raised
    case Plain(b) => if b.Spawn? then ps + [Idle] else ps
    case Continue =>
      match ps[t]
      case Acquiring(m) => if Obtains(ms.base, m) then ps[t := Got(m)] else ps
      case Trying(m) => ps[t := if ms.base.sems[m] > 0 then Got(m) else Idle]
      case _ => ps[t := Idle]
  }

  function Owners(ms: MState, a: MAction): seq<Option<nat>>
    requires RunnableHead(ms.base) && Head(ms) < |ms.phases|
    requires a.Release? ==> a.m < |ms.owners|
    requires a.Continue? && ms.phases[Head(ms)].Got? ==> ms.phases[Head(ms)].m < |ms.owners|
  {
    var t := Head(ms);
    match a
    case Release(m) => if ms.owners[m] == Some(t) then ms.owners[m := None] else ms.owners
    case Continue => if ms.phases[t].Got? then ms.owners[ms.phases[t].m := Some(t)] else ms.owners
    case _ => ms.owners
  }

  ghost predicate PhasesOk(ms: MState) {
    && |ms.phases| == |ms.base.threads| && |ms.owners| <= |ms.base.sems|
    && forall t: nat :: t < |ms.phases| ==>
      && (!ms.phases[t].Idle? ==> ms.phases[t].m < |ms.owners|)
      && (ms.base.threads[t].partial.Some? && ms.base.threads[t].partial.value < |ms.owners| ==>
            ms.phases[t] == Acquiring(ms.base.threads[t].partial.value))
  }

  ghost function MStep(ms: MState, a: MAction): MState
    requires PhasesOk(ms) && MAllowed(ms, a)
  {
    MState(Step(ms.base, BaseAction(ms, a)), Phases(ms, a), Owners(ms, a))
  }

  // ----- who holds a mutex -----

  predicate Grip(p: Phase, m: nat) { p == Got(m) || p == Releasing(m) }

  /** A thread holds a mutex from the moment the semaphore is taken until it is signalled. */
  predicate Holds(ms: MState, t: nat, m: nat) {
    (m < |ms.owners| && ms.owners[m] == Some(t)) || (t < |ms.phases| && Grip(ms.phases[t], m))
  }

  function Grips(ps: seq<Phase>, m: nat): nat {
    if ps == [] then 0 else (if Grip(ps[0], m) then 1 else 0) + Grips(ps[1..], m)
  }

  lemma {:induction false} GripsUpdate(ps: seq<Phase>, t: nat, p: Phase, m: nat)
    requires t < |ps|
    ensures Grips(ps[t := p], m) == Grips(ps, m) - (if Grip(ps[t], m) then 1 else 0) + (if Grip(p, m) then 1 else 0)
    decreases |ps|
  {
    if t == 0 {
      assert ps[t := p][1..] == ps[1..];
    } else {
      assert ps[t := p][1..] == ps[1..][t - 1 := p];
      GripsUpdate(ps[1..], t - 1, p, m);
    }
  }

  lemma {:induction false} GripsSnoc(ps: seq<Phase>, p: Phase, m: nat)
    ensures Grips(ps + [p], m) == Grips(ps, m) + (if Grip(p, m) then 1 else 0)
    decreases |ps|
  {
    if ps == [] {
      assert ps + [p] == [p];
    } else {
      assert (ps + [p])[1..] == ps[1..] + [p];
      GripsSnoc(ps[1..], p, m);
    }
  }

  /** Two threads with a grip count twice. */
  lemma GripsTwo(ps: seq<Phase>, t1: nat, t2: nat, m: nat)
    requires t1 < |ps| && t2 < |ps| && t1 != t2 && Grip(ps[t1], m) && Grip(ps[t2], m)
    ensures Grips(ps, m) >= 2
  {
    GripsUpdate(ps, t1, Idle, m);
    GripsUpdate(ps[t1 := Idle], t2, Idle, m);
  }

  lemma GripsOne(ps: seq<Phase>, t: nat, m: nat)
    requires t < |ps| && Grip(ps[t], m)
    ensures Grips(ps, m) >= 1
  {
    GripsUpdate(ps, t, Idle, m);
  }

  /** Those who hold the mutex are the completed waits less the signals. */
  ghost predicate Tallied(ms: MState, h: History, m: nat) {
    && m < |ms.owners| && m < |h.done| && m < |h.signals| && m < |h.start|
    && h.start[m] == 1
    && (if ms.owners[m].Some? then 1 else 0) + Grips(ms.phases, m) + h.signals[m] == h.done[m]
  }

  ghost predicate MInv(ms: MState, h: History) {
    Inv(ms.base, h) && PhasesOk(ms) && forall m: nat :: m < |ms.owners| ==> Tallied(ms, h, m)
  }

  /** A mutex is held at most once. */
  lemma AtMostOnce(ms: MState, h: History, m: nat)
    requires MInv(ms, h) && m < |ms.owners|
    ensures (if ms.owners[m].Some? then 1 else 0) + Grips(ms.phases, m) <= 1
  {
    assert Tallied(ms, h, m) && CountedAt(ms.base, h, m);
  }

  /** No two threads hold the same mutex. */
  lemma AtMostOneHolder(ms: MState, h: History, m: nat, t1: nat, t2: nat)
    requires MInv(ms, h) && m < |ms.owners| && Holds(ms, t1, m) && Holds(ms, t2, m)
    ensures t1 == t2
  {
    AtMostOnce(ms, h, m);
    if t1 < |ms.phases| && Grip(ms.phases[t1], m) { GripsOne(ms.phases, t1, m); }
    if t2 < |ms.phases| && Grip(ms.phases[t2], m) { GripsOne(ms.phases, t2, m); }
    if t1 != t2 && t1 < |ms.phases| && t2 < |ms.phases| && Grip(ms.phases[t1], m) && Grip(ms.phases[t2], m) {
      GripsTwo(ms.phases, t1, t2, m);
    }
  }

  // ----- every step -----

  lemma MStepKeeps(ms: MState, h: History, a: MAction)
    requires MInv(ms, h) && MAllowed(ms, a)
    ensures MInv(MStep(ms, a), Record(ms.base, h, BaseAction(ms, a)))
  {
    var b, t := BaseAction(ms, a), Head(ms);
    var ms1, h1 := MStep(ms, a), Record(ms.base, h, b);
    assert t in ms.base.running;
    StepKeeps(ms.base, h, b);
    PhasesKeep(ms, h, a);
    forall m: nat | m < |ms1.owners| ensures Tallied(ms1, h1, m) { TallyKeeps(ms, h, a, m); }
  }

  lemma PartialAfter(st: State, h: History, b: Action)
    requires Inv(st, h) && Allowed(st, b)
    ensures
      var t, ts := st.running[0], Step(st, b).threads;
      && |ts| == |st.threads| + (if b.Spawn? then 1 else 0)
      && (forall x: nat :: x < |st.threads| && x != t ==> ts[x].partial == st.threads[x].partial)
      && (if b.Wait? && !Obtains(st, b.s) then ts[t].partial == Some(b.s) else !b.Finish? ==> ts[t].partial == None)
      && (b.Finish? ==> ts[t].partial == st.threads[t].partial == None)
      && (b.Spawn? ==> ts[|st.threads|].partial == None)
  {
    hide Count, Distinct, Remove, Sleeper, Stepped;
    var t := st.running[0];
    assert t in st.running;
    match b {
      case Wait(s) =>
        var st1 := st.(sems := st.sems[s := st.sems[s] - 1]);
        if Obtains(st, s) {
          CompleteQueues(if st.threads[t].partial.Some? then st else st1, t);
        } else {
          var th := st.threads[t].(priority := PrioritySync, sleep := Some(s), partial := Some(s));
          SetStateQueues(st1.(threads := st1.threads[t := th]), t, Suspended);
        }
      case Signal(s) =>
        var st1 := st.(sems := st.sems[s := st.sems[s] + 1]);
        var st2 := if st1.sems[s] <= 0 then WakeOne(st1, s) else st1;
        assert CountedAt(st, h, s);
        if st1.sems[s] <= 0 {
          WakeKeeps(st1, s, s);
          var x := Sleeper(st1.stopped, st1.threads, s).value;
          SetStateQueues(st1.(threads := st1.threads[x := st1.threads[x].(sleep := None)]), x, Running);
        }
        CompleteQueues(st2, t);
      case Test(s) => CompleteQueues(if st.sems[s] <= 0 then st else st.(sems := st.sems[s := st.sems[s] - 1]), t);
      case Other => CompleteQueues(st, t);
      case Spawn(p) =>
        var st1 := st.(threads := st.threads + [Thread(Running, p, None, None)]);
        InsertDistinct(st.running, |st.threads|, st1.threads);
        var st2 := st1.(running := Insert(st.running, |st.threads|, st1.threads));
        assert Queues(st2);
        CompleteQueues(st2, t);
      case Finish => SetStateQueues(st, t, Finished);
    }
  }

  lemma PhasesKeep(ms: MState, h: History, a: MAction)
    requires MInv(ms, h) && MAllowed(ms, a)
    ensures PhasesOk(MStep(ms, a))
  {
    PartialAfter(ms.base, h, BaseAction(ms, a));
    StepSems(ms.base, BaseAction(ms, a));
  }

  lemma TallyKeeps(ms: MState, h: History, a: MAction, m: nat)
    requires MInv(ms, h) && MAllowed(ms, a) && m < |ms.owners|
    ensures Tallied(MStep(ms, a), Record(ms.base, h, BaseAction(ms, a)), m)
  {
    hide CountedAt, Distinct, Step, ThreadsOk, Record;
    var t := Head(ms);
    assert t in ms.base.running && Tallied(ms, h, m);
    if a.Continue? {
      ContinueTally(ms, h, m);
    } else {
      StartTally(ms, h, a, m);
    }
  }

  lemma StartTally(ms: MState, h: History, a: MAction, m: nat)
    requires MInv(ms, h) && MAllowed(ms, a) && m < |ms.owners| && !a.Continue?
    ensures Tallied(MStep(ms, a), Record(ms.base, h, BaseAction(ms, a)), m)
  {
    hide CountedAt, Distinct, Step, ThreadsOk;
    var t := Head(ms);
    assert t in ms.base.running && Tallied(ms, h, m);
    match a {
      case Acquire(m1) => GripsUpdate(ms.phases, t, Acquiring(m1), m);
      case TryAcquire(m1) => GripsUpdate(ms.phases, t, Trying(m1), m);
      case Release(m1) => GripsUpdate(ms.phases, t, Releasing(m1), m);
      case Plain(b) => if b.Spawn? { GripsSnoc(ms.phases, Idle, m); }
    }
  }

  lemma ContinueTally(ms: MState, h: History, m: nat)
    requires MInv(ms, h) && MAllowed(ms, Continue) && m < |ms.owners|
    ensures Tallied(MStep(ms, Continue), Record(ms.base, h, BaseAction(ms, Continue)), m)
  {
    hide CountedAt, Distinct, Step, ThreadsOk;
    var t := Head(ms);
    assert t in ms.base.running && Tallied(ms, h, m);
    AtMostOnce(ms, h, m);
    match ms.phases[t] {
      case Acquiring(m1) => GripsUpdate(ms.phases, t, Got(m1), m);
      case Trying(m1) => GripsUpdate(ms.phases, t, if ms.base.sems[m1] > 0 then Got(m1) else Idle, m);
      case Got(m1) =>
        if m1 == m { GripsOne(ms.phases, t, m); }
        GripsUpdate(ms.phases, t, Idle, m);
      case Releasing(m1) => GripsUpdate(ms.phases, t, Idle, m);
      case Idle =>
    }
  }

  // ----- runs -----

  ghost predicate MPossible(ms: MState, as_: seq<MAction>)
    decreases |as_|
  {
    as_ == [] || (PhasesOk(ms) && MAllowed(ms, as_[0]) && MPossible(MStep(ms, as_[0]), as_[1..]))
  }

  ghost function MRun(ms: MState, as_: seq<MAction>): MState
    requires MPossible(ms, as_)
    decreases |as_|
  {
    if as_ == [] then ms else MRun(MStep(ms, as_[0]), as_[1..])
  }

  /** Nobody is in an operation, no mutex is owned and each has its one token. */
  ghost predicate MInitial(ms: MState) {
    && Initial(ms.base) && |ms.phases| == |ms.base.threads| && |ms.owners| <= |ms.base.sems|
    && (forall t :: 0 <= t < |ms.phases| ==> ms.phases[t].Idle?)
    && (forall m :: 0 <= m < |ms.owners| ==> ms.owners[m] == None && ms.base.sems[m] == 1)
  }

  lemma {:induction false} GripsNone(ps: seq<Phase>, m: nat)
    requires forall t :: 0 <= t < |ps| ==> ps[t].Idle?
    ensures Grips(ps, m) == 0
    decreases |ps|
  {
    if ps != [] { GripsNone(ps[1..], m); }
  }

  lemma {:induction false} MRunKeeps(ms: MState, h: History, as_: seq<MAction>) returns (h1: History)
    requires MInv(ms, h) && MPossible(ms, as_)
    ensures MInv(MRun(ms, as_), h1) && |MRun(ms, as_).owners| == |ms.owners|
    decreases |as_|
  {
    if as_ == [] {
      h1 := h;
    } else {
      MStepKeeps(ms, h, as_[0]);
      h1 := MRunKeeps(MStep(ms, as_[0]), Record(ms.base, h, BaseAction(ms, as_[0])), as_[1..]);
    }
  }

  /** After any run, in any order of instructions, no two threads hold the same mutex. */
  lemma MutualExclusion(ms: MState, as_: seq<MAction>, m: nat, t1: nat, t2: nat)
    requires MInitial(ms) && MPossible(ms, as_) && m < |ms.owners|
    requires Holds(MRun(ms, as_), t1, m) && Holds(MRun(ms, as_), t2, m)
    ensures t1 == t2
  {
    var h := NoHistory(ms.base);
    InitialInv(ms.base);
    forall m1: nat | m1 < |ms.owners| ensures Tallied(ms, h, m1) { GripsNone(ms.phases, m1); }
    var h1 := MRunKeeps(ms, h, as_);
    AtMostOneHolder(MRun(ms, as_), h1, m, t1, t2);
  }
}
