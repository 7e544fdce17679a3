/** Who owns a mutex, told by the operations that have been carried out. */
module Ownership {
  import opened Options
  import opened Semaphores
  import opened Mutexes

  // ----- the history of operations -----

  /**
   * Who holds mutex `m` after an instruction, if `who` held it before: the thread that has taken it when its acquire
   * or try goes on behind the semaphore, and nobody when the holder releases it.
   */
  ghost function HolderNext(ms: MState, a: MAction, m: nat, who: Option<nat>): Option<nat>
    requires ms.base.running != [] && Head(ms) < |ms.phases|
  {
    if a == Continue && ms.phases[Head(ms)] == Got(m) then Some(Head(ms))
    else if a == Release(m) && who == Some(Head(ms)) then None
    else who
  }

  /** Who holds the mutex after a run: the last that has taken it and not released it since. */
  ghost function HolderAfter(ms: MState, as_: seq<MAction>, m: nat, who: Option<nat>): Option<nat>
    requires MPossible(ms, as_)
    decreases |as_|
  {
    if as_ == [] then who else HolderAfter(MStep(ms, as_[0]), as_[1..], m, HolderNext(ms, as_[0], m, who))
  }

  /** The thread that takes a mutex is its owner from then on, and no other mutex changes its owner. */
  lemma TakerOwns(ms: MState, m: nat)
    requires PhasesOk(ms) && MAllowed(ms, Continue) && ms.phases[Head(ms)] == Got(m)
    ensures m < |ms.owners| && |MStep(ms, Continue).owners| == |ms.owners|
    ensures MStep(ms, Continue).owners[m] == Some(Head(ms))
    ensures forall m1: nat :: m1 < |ms.owners| && m1 != m ==> MStep(ms, Continue).owners[m1] == ms.owners[m1]
  {
    hide Step;
  }

  lemma OwnerNext(ms: MState, a: MAction, m: nat)
    requires PhasesOk(ms) && MAllowed(ms, a) && m < |ms.owners|
    ensures |MStep(ms, a).owners| == |ms.owners|
    ensures MStep(ms, a).owners[m] == HolderNext(ms, a, m, ms.owners[m])
  {
    hide Step;
  }

  lemma {:induction false} OwnerAfter(ms: MState, as_: seq<MAction>, m: nat)
    requires MPossible(ms, as_) && m < |ms.owners|
    ensures |MRun(ms, as_).owners| == |ms.owners|
    ensures MRun(ms, as_).owners[m] == HolderAfter(ms, as_, m, ms.owners[m])
    decreases |as_|
  {
    if as_ != [] {
      OwnerNext(ms, as_[0], m);
      OwnerAfter(MStep(ms, as_[0]), as_[1..], m);
    }
  }

  /** After any run the owner of a mutex is the thread that has last taken it and not released it since. */
  lemma OwnerIsHolder(ms: MState, as_: seq<MAction>, m: nat)
    requires MInitial(ms) && MPossible(ms, as_) && m < |ms.owners|
    ensures |MRun(ms, as_).owners| == |ms.owners|
    ensures MRun(ms, as_).owners[m] == HolderAfter(ms, as_, m, None)
  {
    OwnerAfter(ms, as_, m);
  }

  // ----- what a held mutex does to the operations -----

  lemma {:induction false} CountOne(ts: seq<Thread>, t: nat, s: nat, blocked: bool)
    requires t < |ts| && Is(ts[t], s, blocked)
    ensures Count(ts, s, blocked) > 0
    decreases t
  {
    if t > 0 {
      assert ts[1..][t - 1] == ts[t];
      CountOne(ts[1..], t - 1, s, blocked);
    }
  }

  /** While a mutex is owned its semaphore is not obtained. */
  lemma OwnedIsTaken(ms: MState, h: History, m: nat)
    requires MInv(ms, h) && RunnableHead(ms.base) && m < |ms.owners| && ms.owners[m].Some?
    ensures ms.base.sems[m] <= 0
    ensures ms.base.threads[Head(ms)].partial != Some(m)
  {
    assert Tallied(ms, h, m) && CountedAt(ms.base, h, m);
    if ms.base.threads[Head(ms)].partial == Some(m) { CountOne(ms.base.threads, Head(ms), m, false); }
  }

  lemma {:induction false} ReachedInv(ms: MState, as_: seq<MAction>) returns (h: History)
    requires MInitial(ms) && MPossible(ms, as_)
    ensures MInv(MRun(ms, as_), h)
  {
    var h0 := NoHistory(ms.base);
    InitialInv(ms.base);
    forall m: nat | m < |ms.owners| ensures Tallied(ms, h0, m) { GripsNone(ms.phases, m); }
    h := MRunKeeps(ms, h0, as_);
  }

  /** A release goes on exactly for the thread that holds the mutex, and then nobody does; for others it is raised. */
  lemma ReleaseByHolder(ms: MState, as_: seq<MAction>, m: nat)
    requires MInitial(ms) && MPossible(ms, as_) && m < |ms.owners| && MAllowed(MRun(ms, as_), Release(m))
    ensures
      var r := MRun(ms, as_);
      var holder := HolderAfter(ms, as_, m, None);
      && PhasesOk(r) && |MStep(r, Release(m)).owners| == |ms.owners| == |r.owners|
      && (holder == Some(Head(r)) ==>
            MStep(r, Release(m)).phases == r.phases[Head(r) := Releasing(m)] && MStep(r, Release(m)).owners[m] == None)
      && (holder != Some(Head(r)) ==>
            MStep(r, Release(m)).phases == r.phases && MStep(r, Release(m)).owners == r.owners)
  {
    var h := ReachedInv(ms, as_);
    OwnerIsHolder(ms, as_, m);
    hide Step, MRun, HolderAfter, MPossible, MInitial;
  }

  /**
   * While a thread holds the mutex an acquire is raised exactly for that thread, and every other goes on to wait; the
   * wait blocks, and a try fails.
   */
  lemma AcquireOfHeld(ms: MState, as_: seq<MAction>, m: nat, a: MAction, u: nat)
    requires MInitial(ms) && MPossible(ms, as_) && m < |ms.owners| && HolderAfter(ms, as_, m, None) == Some(u)
    requires MAllowed(MRun(ms, as_), a)
    ensures PhasesOk(MRun(ms, as_))
    ensures
      var r := MRun(ms, as_);
      var t, r1 := Head(r), MStep(r, a);
      && (a == Acquire(m) || a == TryAcquire(m) ==>
            (t == u ==> r1.phases == r.phases) &&
            (t != u ==> r1.phases == r.phases[t := if a.Acquire? then Acquiring(m) else Trying(m)]))
      && (a == Continue && r.phases[t] == Acquiring(m) ==>
            r1.phases == r.phases && t < |r1.base.threads| && r1.base.threads[t].state == Suspended)
      && (a == Continue && r.phases[t] == Trying(m) ==> r1.phases == r.phases[t := Idle])
  {
    var h := ReachedInv(ms, as_);
    OwnerIsHolder(ms, as_, m);
    var r := MRun(ms, as_);
    hide MRun, HolderAfter, MPossible, MInitial;
    OwnedIsTaken(r, h, m);
    hide MInv;
    if a == Continue && r.phases[Head(r)] == Acquiring(m) { WaitBlocks(r.base, Head(r), m); }
    hide Step;
  }

  lemma WaitBlocks(st: State, t: nat, s: nat)
    requires Queues(st) && RunnableHead(st) && t == st.running[0] && Allowed(st, Wait(s))
    requires st.threads[t].partial != Some(s) && st.sems[s] <= 0
    ensures t < |Step(st, Wait(s)).threads| && Step(st, Wait(s)).threads[t].state == Suspended
  {
    var th := st.threads[t].(priority := PrioritySync, sleep := Some(s), partial := Some(s));
    var st1 := st.(sems := st.sems[s := st.sems[s] - 1]);
    var st2 := st1.(threads := st1.threads[t := th]);
    assert Queues(st2);
    SetStateQueues(st2, t, Suspended);
  }

  /** While a thread holds the mutex no other has taken its semaphore or is about to signal it. */
  lemma HolderAlone(ms: MState, as_: seq<MAction>, m: nat, u: nat, t: nat)
    requires MInitial(ms) && MPossible(ms, as_) && m < |ms.owners| && HolderAfter(ms, as_, m, None) == Some(u)
    ensures Holds(MRun(ms, as_), t, m) <==> t == u
  {
    OwnerIsHolder(ms, as_, m);
    if Holds(MRun(ms, as_), t, m) { MutualExclusion(ms, as_, m, t, u); }
  }

  lemma {:induction false} NoGrips(ps: seq<Phase>, m: nat)
    requires forall t :: 0 <= t < |ps| ==> !Grip(ps[t], m)
    ensures Grips(ps, m) == 0
    decreases |ps|
  {
    if ps != [] {
      assert forall t :: 0 <= t < |ps[1..]| ==> ps[1..][t] == ps[t + 1];
      NoGrips(ps[1..], m);
    }
  }

  /** A mutex that nobody holds or waits for is obtained at once, by a wait and by a try. */
  lemma FreeIsObtained(ms: MState, as_: seq<MAction>, m: nat)
    requires MInitial(ms) && MPossible(ms, as_) && m < |ms.owners|
    requires forall t: nat :: !Holds(MRun(ms, as_), t, m)
    requires forall t: nat :: t < |MRun(ms, as_).base.threads| ==> MRun(ms, as_).base.threads[t].partial != Some(m)
    ensures |MRun(ms, as_).owners| == |ms.owners| <= |MRun(ms, as_).base.sems|
    ensures MRun(ms, as_).base.sems[m] == 1 && PhasesOk(MRun(ms, as_))
    ensures
      var r := MRun(ms, as_);
      MAllowed(r, Continue) && (r.phases[Head(r)] == Acquiring(m) || r.phases[Head(r)] == Trying(m)) ==>
        MStep(r, Continue).phases == r.phases[Head(r) := Got(m)]
  {
    var h := ReachedInv(ms, as_);
    OwnerIsHolder(ms, as_, m);
    var r := MRun(ms, as_);
    hide MRun, HolderAfter, MPossible, MInitial;
    assert Tallied(r, h, m) && CountedAt(r.base, h, m);
    assert forall t: nat :: r.owners[m] == Some(t) ==> Holds(r, t, m);
    forall t | 0 <= t < |r.phases| ensures !Grip(r.phases[t], m) { assert !Holds(r, t, m); }
    NoGrips(r.phases, m);
    forall t: nat | t < |r.base.threads| ensures !Is(r.base.threads[t], m, true) && !Is(r.base.threads[t], m, false) {
      assert ThreadOk(r.base.threads[t], |r.base.sems|);
    }
    CountNone(r.base.threads, m, true);
    CountNone(r.base.threads, m, false);
    hide Step, Inv;
  }
}
