/** Threads, their queues and semaphores, one instruction at a time. */
module Semaphores {
  import opened Options

  datatype ThreadState = Running | Suspended | Finished

  /**
   * A thread.  `partial` is set while a wait has taken its turn but has not been completed; it names the
   * semaphore of that wait, which the thread executes again when it runs.
   */
  datatype Thread = Thread(state: ThreadState, priority: int, sleep: Option<nat>, partial: Option<nat>)

  const PrioritySync: int := 200

  /** The runnable threads and the suspended ones, highest priority first, and the counts of the semaphores. */
  datatype State = State(running: seq<nat>, stopped: seq<nat>, threads: seq<Thread>, sems: seq<int>)

  datatype Action = Wait(s: nat) | Signal(s: nat) | Test(s: nat) | Other | Spawn(priority: int) | Finish

  // ----- queues -----

  /** Insert behind the threads of the same or a higher priority. */
  function Insert(q: seq<nat>, t: nat, ts: seq<Thread>): (r: seq<nat>)
    requires t < |ts| && forall x :: x in q ==> x < |ts|
    ensures |r| == |q| + 1
    ensures forall x :: x in r <==> x in q || x == t
  {
    if q == [] then [t]
    else
      assert q[0] in q && forall x :: x in q[1..] ==> x in q;
      if ts[q[0]].priority < ts[t].priority then [t] + q
      else [q[0]] + Insert(q[1..], t, ts)
  }

  function Remove(q: seq<nat>, t: nat): (r: seq<nat>)
    ensures t !in q ==> r == q
    ensures t in q ==> |r| == |q| - 1
    ensures forall x :: x in r ==> x in q
    ensures forall x :: x in q && x != t ==> x in r
  {
    if q == [] then [] else if q[0] == t then q[1..] else [q[0]] + Remove(q[1..], t)
  }

  ghost predicate Distinct(q: seq<nat>) {
    forall i, j :: 0 <= i < j < |q| ==> q[i] != q[j]
  }

  lemma {:induction false} InsertDistinct(q: seq<nat>, t: nat, ts: seq<Thread>)
    requires t < |ts| && (forall x :: x in q ==> x < |ts|) && Distinct(q) && t !in q
    ensures Distinct(Insert(q, t, ts))
    decreases |q|
  {
    assert q != [] ==> q[0] in q && forall x :: x in q[1..] ==> x in q;
    if q != [] && ts[q[0]].priority >= ts[t].priority {
      InsertDistinct(q[1..], t, ts);
      var r := Insert(q[1..], t, ts);
      assert q[0] !in q[1..];
      assert Insert(q, t, ts) == [q[0]] + r;
      assert q[0] !in r;
    }
  }

  lemma {:induction false} RemoveDistinct(q: seq<nat>, t: nat)
    requires Distinct(q)
    ensures Distinct(Remove(q, t)) && t !in Remove(q, t)
    decreases |q|
  {
    if q != [] && q[0] != t {
      RemoveDistinct(q[1..], t);
      assert q[0] !in q[1..];
      assert q[0] !in Remove(q[1..], t);
    }
  }

  /** A thread whose priority is no higher than that of any other goes to the end. */
  lemma {:induction false} InsertLast(q: seq<nat>, t: nat, ts: seq<Thread>)
    requires t < |ts| && (forall x :: x in q ==> x < |ts|) && forall x :: x in q ==> ts[x].priority >= ts[t].priority
    ensures Insert(q, t, ts) == q + [t]
    decreases |q|
  {
    if q != [] {
      assert q[0] in q && forall x :: x in q[1..] ==> x in q;
      InsertLast(q[1..], t, ts);
      assert Insert(q, t, ts) == [q[0]] + Insert(q[1..], t, ts);
      assert [q[0]] + (q[1..] + [t]) == q + [t];
    }
  }

  // ----- one instruction -----

  ghost predicate Known(st: State) {
    && (forall x :: x in st.running ==> x < |st.threads|)
    && (forall x :: x in st.stopped ==> x < |st.threads|)
  }

  /** Move a thread between the queues. */
  function SetState(st: State, t: nat, to: ThreadState): (r: State)
    requires Known(st) && t < |st.threads|
    ensures Known(r) && |r.threads| == |st.threads| && r.sems == st.sems
  {
    var th := st.threads[t];
    if th.state == to then st
    else
      var st1 := match th.state
        case Running => st.(running := Remove(st.running, t))
        case Suspended => st.(stopped := Remove(st.stopped, t))
        case Finished => st;
      var st2 := st1.(threads := st1.threads[t := th.(state := to)]);
      match to
      case Running => st2.(running := Insert(st2.running, t, st2.threads))
      case Suspended => st2.(stopped := Insert(st2.stopped, t, st2.threads))
      case Finished => st2
  }

  /** Let the other threads of the same priority go first. */
  function Stepped(st: State, t: nat): (r: State)
    requires Known(st) && t < |st.threads| && st.threads[t].state == Running
    ensures Known(r) && r.threads == st.threads && r.sems == st.sems && r.stopped == st.stopped
  {
    if NextIsNoLower(st.running, t, st.threads) then st.(running := Insert(Remove(st.running, t), t, st.threads))
      else st
  }

  /** The thread behind `t` in the queue has no lower priority. */
  predicate NextIsNoLower(q: seq<nat>, t: nat, ts: seq<Thread>)
    requires t < |ts| && forall x :: x in q ==> x < |ts|
  {
    if |q| < 2 then false
    else
      assert q[0] in q && q[1] in q && forall x :: x in q[1..] ==> x in q;
      if q[0] == t then ts[t].priority <= ts[q[1]].priority
      else NextIsNoLower(q[1..], t, ts)
  }

  /** An instruction has been completely executed. */
  function Complete(st: State, t: nat): (r: State)
    requires Known(st) && t < |st.threads| && st.threads[t].state == Running
    ensures Known(r)
  {
    Stepped(st.(threads := st.threads[t := st.threads[t].(partial := None)]), t)
  }

  /** The first suspended thread that sleeps on `s`. */
  function Sleeper(q: seq<nat>, ts: seq<Thread>, s: nat): (r: Option<nat>)
    requires forall x :: x in q ==> x < |ts|
    ensures r.Some? ==> r.value in q && ts[r.value].state == Suspended && ts[r.value].sleep == Some(s)
    ensures r.None? ==> forall x :: x in q ==> !(ts[x].state == Suspended && ts[x].sleep == Some(s))
  {
    if q == [] then None
    else
      assert q[0] in q && forall x :: x in q[1..] ==> x in q;
      if ts[q[0]].state == Suspended && ts[q[0]].sleep == Some(s) then Some(q[0])
      else Sleeper(q[1..], ts, s)
  }

  function WakeOne(st: State, s: nat): (r: State)
    requires Known(st)
    ensures Known(r) && |r.threads| == |st.threads| && r.sems == st.sems
  {
    match Sleeper(st.stopped, st.threads, s)
    case None => st
    case Some(t) => SetState(st.(threads := st.threads[t := st.threads[t].(sleep := None)]), t, Running)
  }

  /** Go to sleep on `s`, in the middle of an instruction. */
  function Sleep(st: State, t: nat, s: nat): (r: State)
    requires Known(st) && t < |st.threads|
    ensures Known(r)
  {
    var th := st.threads[t].(priority := PrioritySync, sleep := Some(s), partial := Some(s));
    SetState(st.(threads := st.threads[t := th]), t, Suspended)
  }

  /** A thread that was woken in the middle of a wait executes that wait. */
  predicate Allowed(st: State, a: Action) {
    && st.running != [] && st.running[0] < |st.threads|
    && (match st.threads[st.running[0]].partial case None => true case Some(s) => a == Wait(s))
    && (match a
        case Wait(s) => s < |st.sems|
        case Signal(s) => s < |st.sems|
        case Test(s) => s < |st.sems|
        case _ => true)
  }

  /** The first runnable thread executes one instruction. */
  function Step(st: State, a: Action): (r: State)
    requires Known(st) && Allowed(st, a) && st.threads[st.running[0]].state == Running
  {
    var t := st.running[0];
    match a
    case Wait(s) =>
      if st.threads[t].partial.Some? then Complete(st, t)
      else
        var st1 := st.(sems := st.sems[s := st.sems[s] - 1]);
        if st1.sems[s] < 0 then Sleep(st1, t, s) else Complete(st1, t)
    case Signal(s) =>
      var st1 := st.(sems := st.sems[s := st.sems[s] + 1]);
      var st2 := if st1.sems[s] <= 0 then WakeOne(st1, s) else st1;
      if st2.threads[t].state == Running then Complete(st2, t) else st2
    case Test(s) =>
      Complete(if st.sems[s] <= 0 then st else st.(sems := st.sems[s := st.sems[s] - 1]), t)
    case Other => Complete(st, t)
    case Spawn(p) =>
      var n := |st.threads|;
      var st1 := st.(threads := st.threads + [Thread(Running, p, None, None)]);
      Complete(st1.(running := Insert(st1.running, n, st1.threads)), t)
    case Finish => SetState(st, t, Finished)
  }

  // ----- the queues hold what the threads' states say -----

  ghost predicate Queues(st: State) {
    && Known(st) && Distinct(st.running) && Distinct(st.stopped)
    && forall t: nat :: t < |st.threads| ==>
      (t in st.running <==> st.threads[t].state == Running) && (t in st.stopped <==> st.threads[t].state == Suspended)
  }

  lemma SetStateQueues(st: State, t: nat, to: ThreadState)
    requires Queues(st) && t < |st.threads|
    ensures Queues(SetState(st, t, to))
    ensures SetState(st, t, to).threads == st.threads[t := st.threads[t].(state := to)]
  {
    var th := st.threads[t];
    if th.state != to {
      RemoveDistinct(st.running, t);
      RemoveDistinct(st.stopped, t);
      var st1 := match th.state
        case Running => st.(running := Remove(st.running, t))
        case Suspended => st.(stopped := Remove(st.stopped, t))
        case Finished => st;
      var ts := st1.threads[t := th.(state := to)];
      if to == Running { InsertDistinct(st1.running, t, ts); }
      if to == Suspended { InsertDistinct(st1.stopped, t, ts); }
    } else {
      assert st.threads[t := th] == st.threads;
    }
  }

  lemma CompleteQueues(st: State, t: nat)
    requires Queues(st) && t < |st.threads| && st.threads[t].state == Running
    ensures Queues(Complete(st, t))
    ensures Complete(st, t).threads == st.threads[t := st.threads[t].(partial := None)]
    ensures Complete(st, t).sems == st.sems && Complete(st, t).stopped == st.stopped
  {
    var st1 := st.(threads := st.threads[t := st.threads[t].(partial := None)]);
    RemoveDistinct(st1.running, t);
    InsertDistinct(Remove(st1.running, t), t, st1.threads);
  }

  // ----- counting -----

  /** Blocked on `s`, or woken from it without having completed the wait. */
  predicate Is(th: Thread, s: nat, blocked: bool) {
    if blocked then th.state == Suspended && th.sleep == Some(s) else th.state == Running && th.partial == Some(s)
  }

  function Count(ts: seq<Thread>, s: nat, blocked: bool): nat {
    if ts == [] then 0 else (if Is(ts[0], s, blocked) then 1 else 0) + Count(ts[1..], s, blocked)
  }

  lemma {:induction false} CountUpdate(ts: seq<Thread>, t: nat, th: Thread, s: nat, blocked: bool)
    requires t < |ts|
    ensures Count(ts[t := th], s, blocked) ==
      Count(ts, s, blocked) - (if Is(ts[t], s, blocked) then 1 else 0) + (if Is(th, s, blocked) then 1 else 0)
    decreases |ts|
  {
    if t == 0 {
      assert ts[t := th][1..] == ts[1..];
    } else {
      assert ts[t := th][1..] == ts[1..][t - 1 := th];
      CountUpdate(ts[1..], t - 1, th, s, blocked);
    }
  }

  lemma {:induction false} CountSnoc(ts: seq<Thread>, th: Thread, s: nat, blocked: bool)
    ensures Count(ts + [th], s, blocked) == Count(ts, s, blocked) + (if Is(th, s, blocked) then 1 else 0)
    decreases |ts|
  {
    if ts == [] {
      assert ts + [th] == [th];
    } else {
      assert (ts + [th])[1..] == ts[1..] + [th];
      CountSnoc(ts[1..], th, s, blocked);
    }
  }

  lemma {:induction false} CountWitness(ts: seq<Thread>, s: nat, blocked: bool)
    requires Count(ts, s, blocked) > 0
    ensures exists t: nat :: t < |ts| && Is(ts[t], s, blocked)
    decreases |ts|
  {
    if Is(ts[0], s, blocked) {
      assert Is(ts[0], s, blocked);
    } else {
      CountWitness(ts[1..], s, blocked);
      var t: nat :| t < |ts[1..]| && Is(ts[1..][t], s, blocked);
      assert Is(ts[t + 1], s, blocked);
    }
  }

  // ----- what has happened -----

  /** Per semaphore: its first count, and how many waits were begun and completed and how many signals given. */
  datatype History = History(start: seq<int>, begun: seq<nat>, done: seq<nat>, signals: seq<nat>)

  function Inc(q: seq<nat>, s: nat): seq<nat>
    requires s < |q|
  {
    q[s := q[s] + 1]
  }

  function Record(st: State, h: History, a: Action): (r: History)
    requires Allowed(st, a) && |h.begun| == |h.done| == |h.signals| == |st.sems|
    ensures |r.begun| == |r.done| == |r.signals| == |st.sems| && r.start == h.start
  {
    match a
    case Wait(s) =>
      if st.threads[st.running[0]].partial.Some? then h.(done := Inc(h.done, s))
      else if st.sems[s] - 1 < 0 then h.(begun := Inc(h.begun, s))
      else h.(begun := Inc(h.begun, s), done := Inc(h.done, s))
    case Signal(s) => h.(signals := Inc(h.signals, s))
    case Test(s) => if st.sems[s] <= 0 then h else h.(begun := Inc(h.begun, s), done := Inc(h.done, s))
    case _ => h
  }

  /** What a thread in the middle of a wait looks like. */
  ghost predicate ThreadOk(th: Thread, sems: nat) {
    && (th.state == Suspended ==> th.sleep.Some? && th.partial == th.sleep && th.priority == PrioritySync)
    && (th.state != Suspended ==> th.sleep == None)
    && (th.partial.Some? ==> th.partial.value < sems)
  }

  ghost predicate ThreadsOk(st: State) {
    forall t: nat :: t < |st.threads| ==> ThreadOk(st.threads[t], |st.sems|)
  }

  /** Semaphore `s` counts right: its first count and the signals, less the waits begun. */
  ghost predicate CountedAt(st: State, h: History, s: nat) {
    && s < |st.sems| && s < |h.start| && s < |h.begun| && s < |h.done| && s < |h.signals|
    && st.sems[s] == h.start[s] + h.signals[s] - h.begun[s]
    && Count(st.threads, s, true) == (if st.sems[s] < 0 then -st.sems[s] else 0)
    && h.begun[s] == h.done[s] + Count(st.threads, s, true) + Count(st.threads, s, false)
  }

  ghost predicate Counted(st: State, h: History) {
    && |h.start| == |h.begun| == |h.done| == |h.signals| == |st.sems|
    && forall s: nat :: s < |st.sems| ==> CountedAt(st, h, s)
  }

  ghost predicate Inv(st: State, h: History) {
    Queues(st) && ThreadsOk(st) && Counted(st, h)
  }

  lemma {:induction false} CompleteKeeps(st: State, h: History, t: nat, s: nat)
    requires Queues(st) && ThreadsOk(st) && t < |st.threads| && st.threads[t].state == Running
    ensures Queues(Complete(st, t)) && ThreadsOk(Complete(st, t))
    ensures
      var ts := Complete(st, t).threads;
      Count(ts, s, true) == Count(st.threads, s, true) &&
      Count(ts, s, false) == Count(st.threads, s, false) - (if st.threads[t].partial == Some(s) then 1 else 0)
  {
    CompleteQueues(st, t);
    var th := st.threads[t].(partial := None);
    CountUpdate(st.threads, t, th, s, true);
    CountUpdate(st.threads, t, th, s, false);
  }

  lemma SleepKeeps(st: State, t: nat, s: nat, s1: nat)
    requires Queues(st) && ThreadsOk(st) && t < |st.threads| && s < |st.sems|
    requires st.threads[t].state == Running && st.threads[t].partial == None
    ensures Queues(Sleep(st, t, s)) && ThreadsOk(Sleep(st, t, s)) && Sleep(st, t, s).sems == st.sems
    ensures
      var ts := Sleep(st, t, s).threads;
      Count(ts, s1, true) == Count(st.threads, s1, true) + (if s1 == s then 1 else 0) &&
      Count(ts, s1, false) == Count(st.threads, s1, false)
  {
    var th := st.threads[t].(priority := PrioritySync, sleep := Some(s), partial := Some(s));
    var st1 := st.(threads := st.threads[t := th]);
    SetStateQueues(st1, t, Suspended);
    var th1 := th.(state := Suspended);
    assert st1.threads[t := th1] == st.threads[t := th1];
    CountUpdate(st.threads, t, th1, s1, true);
    CountUpdate(st.threads, t, th1, s1, false);
  }

  lemma WakeKeeps(st: State, s: nat, s1: nat)
    requires Queues(st) && ThreadsOk(st) && Count(st.threads, s, true) > 0
    ensures Queues(WakeOne(st, s)) && ThreadsOk(WakeOne(st, s)) && WakeOne(st, s).sems == st.sems
    ensures Sleeper(st.stopped, st.threads, s).Some?
    ensures
      var ts := WakeOne(st, s).threads;
      && Count(ts, s1, true) == Count(st.threads, s1, true) - (if s1 == s then 1 else 0)
      && Count(ts, s1, false) == Count(st.threads, s1, false) + (if s1 == s then 1 else 0)
      && forall x: nat :: x < |st.threads| && st.threads[x].state == Running ==> ts[x] == st.threads[x]
  {
    hide Count, Distinct, Insert, Remove, Sleeper;
    CountWitness(st.threads, s, true);
    var w: nat :| w < |st.threads| && Is(st.threads[w], s, true);
    assert w in st.stopped;
    var t := Sleeper(st.stopped, st.threads, s).value;
    var th := st.threads[t].(sleep := None);
    var st1 := st.(threads := st.threads[t := th]);
    SetStateQueues(st1, t, Running);
    var th1 := th.(state := Running);
    assert st1.threads[t := th1] == st.threads[t := th1];
    CountUpdate(st.threads, t, th1, s1, true);
    CountUpdate(st.threads, t, th1, s1, false);
  }

  /** Nobody sleeps on `s`: waking changes nothing. */
  lemma WakeNone(st: State, s: nat)
    requires Queues(st) && Count(st.threads, s, true) == 0
    ensures WakeOne(st, s) == st
  {
    var r := Sleeper(st.stopped, st.threads, s);
    if r.Some? {
      CountUpdate(st.threads, r.value, st.threads[r.value].(state := Finished), s, true);
    }
  }

  /** Every instruction keeps the invariant. */
  lemma StepKeeps(st: State, h: History, a: Action)
    requires Inv(st, h) && Allowed(st, a)
    ensures Inv(Step(st, a), Record(st, h, a))
  {
    match a {
      case Wait(s) => WaitKeeps(st, h, s);
      case Signal(s) => SignalKeeps(st, h, s);
      case Test(s) => TestKeeps(st, h, s);
      case Other => OtherKeeps(st, h);
      case Spawn(p) => SpawnKeeps(st, h, p);
      case Finish => FinishKeeps(st, h);
    }
  }

  lemma WaitKeeps(st: State, h: History, s: nat)
    requires Inv(st, h) && Allowed(st, Wait(s))
    ensures Inv(Step(st, Wait(s)), Record(st, h, Wait(s)))
  {
    hide Distinct, Insert, NextIsNoLower, Remove, SetState, Sleep, WakeOne;
    var t := st.running[0];
    assert t in st.running;
    var st2, h2 := Step(st, Wait(s)), Record(st, h, Wait(s));
    if st.threads[t].partial.Some? {
      forall s1: nat | s1 < |st.sems| ensures CountedAt(st2, h2,
        s1) { assert CountedAt(st, h, s1); CompleteKeeps(st, h, t, s1); }
      CompleteKeeps(st, h, t, 0);
      CompleteQueues(st, t);
    } else {
      var st1 := st.(sems := st.sems[s := st.sems[s] - 1]);
      forall s1: nat | s1 < |st.sems| ensures CountedAt(st2, h2, s1) { assert CountedAt(st, h, s1);
        if st1.sems[s] < 0 { SleepKeeps(st1, t, s, s1); } else { CompleteKeeps(st1, h, t, s1); CompleteQueues(st1, t); }
      }
      if st1.sems[s] < 0 { SleepKeeps(st1, t, s, 0); } else { CompleteKeeps(st1, h, t, 0); CompleteQueues(st1, t); }
    }
  }

  lemma TestKeeps(st: State, h: History, s: nat)
    requires Inv(st, h) && Allowed(st, Test(s))
    ensures Inv(Step(st, Test(s)), Record(st, h, Test(s)))
  {
    var t := st.running[0];
    assert t in st.running;
    var st1 := if st.sems[s] <= 0 then st else st.(sems := st.sems[s := st.sems[s] - 1]);
    var st2, h2 := Step(st, Test(s)), Record(st, h, Test(s));
    forall s1: nat | s1 < |st.sems| ensures CountedAt(st2, h2, s1) {
      assert CountedAt(st, h, s1);
      CompleteKeeps(st1, h, t, s1);
      CompleteQueues(st1, t);
    }
    CompleteKeeps(st1, h, t, 0);
    CompleteQueues(st1, t);
  }

  lemma OtherKeeps(st: State, h: History)
    requires Inv(st, h) && Allowed(st, Other)
    ensures Inv(Step(st, Other), Record(st, h, Other))
  {
    var t := st.running[0];
    assert t in st.running;
    forall s: nat | s < |st.sems| ensures CountedAt(Step(st, Other), Record(st, h, Other), s) {
      assert CountedAt(st, h, s);
      CompleteKeeps(st, h, t, s);
      CompleteQueues(st, t);
    }
    CompleteKeeps(st, h, t, 0);
    CompleteQueues(st, t);
  }

  lemma FinishKeeps(st: State, h: History)
    requires Inv(st, h) && Allowed(st, Finish)
    ensures Inv(Step(st, Finish), Record(st, h, Finish))
  {
    var t := st.running[0];
    assert t in st.running;
    var th := st.threads[t].(state := Finished);
    SetStateQueues(st, t, Finished);
    forall s: nat | s < |st.sems| ensures CountedAt(Step(st, Finish), Record(st, h, Finish), s) {
      assert CountedAt(st, h, s);
      CountUpdate(st.threads, t, th, s, true);
      CountUpdate(st.threads, t, th, s, false);
    }
  }

  lemma SignalKeeps(st: State, h: History, s: nat)
    requires Inv(st, h) && Allowed(st, Signal(s))
    ensures Inv(Step(st, Signal(s)), Record(st, h, Signal(s)))
  {
    hide Distinct, Insert, Is, NextIsNoLower, Remove, Sleep, Sleeper, ThreadOk;
    var t := st.running[0];
    assert t in st.running;
    var st1 := st.(sems := st.sems[s := st.sems[s] + 1]);
    var st2 := if st1.sems[s] <= 0 then WakeOne(st1, s) else st1;
    var st3, h3 := Step(st, Signal(s)), Record(st, h, Signal(s));
    assert CountedAt(st, h, s);
    if st1.sems[s] <= 0 { WakeKeeps(st1, s, s); }
    forall s1: nat | s1 < |st.sems| ensures CountedAt(st3, h3, s1) { assert CountedAt(st, h, s1);
      if st1.sems[s] <= 0 { WakeKeeps(st1, s, s1); }
      CompleteKeeps(st2, h, t, s1);
      CompleteQueues(st2, t);
    }
    CompleteKeeps(st2, h, t, 0);
    CompleteQueues(st2, t);
  }

  lemma SpawnKeeps(st: State, h: History, p: int)
    requires Inv(st, h) && Allowed(st, Spawn(p))
    ensures Inv(Step(st, Spawn(p)), Record(st, h, Spawn(p)))
  {
    var t, n, th := st.running[0], |st.threads|, Thread(Running, p, None, None);
    assert t in st.running;
    var st1 := st.(threads := st.threads + [th]);
    InsertDistinct(st.running, n, st1.threads);
    var st2 := st1.(running := Insert(st.running, n, st1.threads));
    assert Queues(st2) && ThreadsOk(st2);
    var st3 := Step(st, Spawn(p));
    forall s1: nat | s1 < |st.sems| ensures CountedAt(st3, h, s1) { assert CountedAt(st, h, s1);
      CountSnoc(st.threads, th, s1, true);
      CountSnoc(st.threads, th, s1, false);
      CompleteKeeps(st2, h, t, s1);
      CompleteQueues(st2, t);
    }
    CompleteKeeps(st2, h, t, 0);
    CompleteQueues(st2, t);
  }

  // ----- runs -----

  /** Nobody waits. */
  ghost predicate Quiet(st: State) {
    && Queues(st)
    && forall t: nat :: t < |st.threads| ==>
         st.threads[t].state != Suspended && st.threads[t].sleep == None && st.threads[t].partial == None
  }

  /** Nobody waits and every count is at least zero. */
  ghost predicate Initial(st: State) {
    Quiet(st) && forall s: nat :: s < |st.sems| ==> st.sems[s] >= 0
  }

  function NoHistory(st: State): History {
    var zero := seq(|st.sems|, _ => 0);
    History(st.sems, zero, zero, zero)
  }

  /** The actions can be taken one after the other. */
  ghost predicate Possible(st: State, as_: seq<Action>)
    decreases |as_|
  {
    as_ == [] || (Queues(st) && Allowed(st, as_[0]) && RunnableHead(st) && Possible(Step(st, as_[0]), as_[1..]))
  }

  ghost predicate RunnableHead(st: State) {
    st.running != [] && st.running[0] < |st.threads| && st.threads[st.running[0]].state == Running
  }

  ghost function Run(st: State, as_: seq<Action>): State
    requires Possible(st, as_)
    decreases |as_|
  {
    if as_ == [] then st else Run(Step(st, as_[0]), as_[1..])
  }

  ghost function RunHistory(st: State, h: History, as_: seq<Action>): History
    requires Possible(st, as_) && |h.begun| == |h.done| == |h.signals| == |st.sems|
    decreases |as_|
  {
    if as_ == [] then h
    else
      StepSems(st, as_[0]);
      RunHistory(Step(st, as_[0]), Record(st, h, as_[0]), as_[1..])
  }

  lemma {:induction false} CountNone(ts: seq<Thread>, s: nat, blocked: bool)
    requires forall t: nat :: t < |ts| ==> !Is(ts[t], s, blocked)
    ensures Count(ts, s, blocked) == 0
    decreases |ts|
  {
    if ts != [] {
      assert forall t: nat :: t < |ts[1..]| ==> ts[1..][t] == ts[t + 1];
      CountNone(ts[1..], s, blocked);
    }
  }

  lemma InitialInv(st: State)
    requires Initial(st)
    ensures Inv(st, NoHistory(st))
  {
    forall s: nat | s < |st.sems| ensures CountedAt(st, NoHistory(st), s) {
      CountNone(st.threads, s, true);
      CountNone(st.threads, s, false);
    }
  }

  lemma {:induction false} RunKeeps(st: State, h: History, as_: seq<Action>)
    requires Inv(st, h) && Possible(st, as_)
    ensures Inv(Run(st, as_), RunHistory(st, h, as_)) && RunHistory(st, h, as_).start == h.start
    decreases |as_|
  {
    if as_ != [] {
      StepKeeps(st, h, as_[0]);
      RunKeeps(Step(st, as_[0]), Record(st, h, as_[0]), as_[1..]);
    }
  }

  /** What a semaphore counts after a run, how many threads it blocks, and how many waits are completed at most. */
  ghost predicate CountsAfter(st: State, as_: seq<Action>, s: nat)
    requires Possible(st, as_) && s < |st.sems|
  {
    var st1, h := Run(st, as_), RunHistory(st, NoHistory(st), as_);
    && s < |st1.sems| == |h.signals| == |h.begun| == |h.done|
    && st1.sems[s] == st.sems[s] + h.signals[s] - h.begun[s]
    && Count(st1.threads, s, true) == (if st1.sems[s] < 0 then -st1.sems[s] else 0)
    && h.done[s] <= st.sems[s] + h.signals[s]
  }

  /**
   * After any run, in any order of instructions: a semaphore counts its first count and the signals less the
   * waits begun; as many threads are blocked as it is below zero; and no more waits are completed than its
   * first count and the signals allow.
   */
  lemma SemaphoreCounts(st: State, as_: seq<Action>, s: nat)
    requires Initial(st) && Possible(st, as_) && s < |st.sems|
    ensures Inv(st, NoHistory(st)) && CountsAfter(st, as_, s)
  {
    InitialInv(st);
    RunKeeps(st, NoHistory(st), as_);
    RunSems(st, as_);
    assert CountedAt(Run(st, as_), RunHistory(st, NoHistory(st), as_), s);
  }

  /** Where nobody waits at first, that holds after every run exactly if no first count is below zero. */
  lemma CountsExactly(st: State)
    requires Quiet(st)
    ensures (forall as_: seq<Action>, s: nat :: s < |st.sems| && Possible(st, as_) ==> CountsAfter(st, as_, s)) <==>
      forall s: nat :: s < |st.sems| ==> st.sems[s] >= 0
  {
    if forall as_: seq<Action>, s: nat :: s < |st.sems| && Possible(st, as_) ==> CountsAfter(st, as_, s) {
      forall s: nat | s < |st.sems| ensures st.sems[s] >= 0 {
        assert Possible(st, []);
        assert CountsAfter(st, [], s);
      }
    }
    if forall s: nat :: s < |st.sems| ==> st.sems[s] >= 0 {
      forall as_: seq<Action>, s: nat | s < |st.sems| && Possible(st, as_) ensures CountsAfter(st, as_, s) {
        SemaphoreCounts(st, as_, s);
      }
    }
  }

  lemma {:induction false} RunSems(st: State, as_: seq<Action>)
    requires Possible(st, as_)
    ensures |Run(st, as_).sems| == |st.sems|
    decreases |as_|
  {
    if as_ != [] {
      StepSems(st, as_[0]);
      RunSems(Step(st, as_[0]), as_[1..]);
    }
  }

  lemma StepSems(st: State, a: Action)
    requires Queues(st) && Allowed(st, a) && RunnableHead(st)
    ensures |Step(st, a).sems| == |st.sems|
  {
  }

  /** Two threads and a semaphore whose first count is below zero. */
  const Owing: State := State([0, 1], [], [Thread(Running, 2, None, None), Bystander], [-1])
  const Bystander: Thread := Thread(Running, 1, None, None)

  /** The first thread waits. */
  const Asleep: State := State([1], [0], [Thread(Suspended, PrioritySync, Some(0), Some(0)), Bystander], [-2])

  /** A signal has woken it; it executes its wait again. */
  const Woken: State := State([0, 1], [], [Thread(Running, PrioritySync, None, Some(0)), Bystander], [-1])
  const Through: State := State([0, 1], [], [Thread(Running, PrioritySync, None, None), Bystander], [-1])

  const OneWait: seq<Action> := [Wait(0), Signal(0), Wait(0)]

  lemma OwingSleeps()
    ensures Known(Owing) && Step(Owing, Wait(0)) == Asleep
  {
    var t0, t1 := Thread(Running, 2, None, None), Bystander;
    var sleeping := Thread(Suspended, PrioritySync, Some(0), Some(0));
    var th := t0.(priority := PrioritySync, sleep := Some(0), partial := Some(0));
    assert [-1][0 := -2] == [-2];
    assert [t0, t1][0 := th] == [th, t1] && [th, t1][0 := sleeping] == [sleeping, t1];
    assert Remove([0, 1], 0) == [1];
    assert Insert([], 0, [sleeping, t1]) == [0];
    assert Step(Owing, Wait(0)) == Sleep(Owing.(sems := [-2]), 0, 0);
  }

  lemma OwingWakes()
    ensures Known(Asleep) && Step(Asleep, Signal(0)) == Woken
  {
    var t1, sleeping := Bystander, Thread(Suspended, PrioritySync, Some(0), Some(0));
    var woken := Thread(Running, PrioritySync, None, Some(0));
    var m := sleeping.(sleep := None);
    assert [-2][0 := -1] == [-1];
    assert [sleeping, t1][0 := m] == [m, t1] && [m, t1][0 := woken] == [woken, t1];
    assert Sleeper([0], [sleeping, t1], 0) == Some(0);
    assert Remove([0], 0) == [];
    assert Insert([1], 0, [woken, t1]) == [0, 1];
    assert [woken, t1][1 := t1] == [woken, t1];
    assert WakeOne(Asleep.(sems := [-1]), 0) == Woken;
    assert [0, 1][1..] == [1];
    assert !NextIsNoLower([1], 1, [woken, t1]);
    assert !NextIsNoLower([0, 1], 1, [woken, t1]);
    assert Complete(Woken, 1) == Woken;
    assert Step(Asleep, Signal(0)) == Complete(WakeOne(Asleep.(sems := [-1]), 0), 1);
  }

  lemma OwingFinishes()
    ensures Step(Woken, Wait(0)) == Through
  {
    assert Woken.threads[0 := Through.threads[0]] == Through.threads;
  }

  /** The run is possible, and the wait is completed. */
  lemma OwingRuns()
    ensures Possible(Owing, OneWait) && Run(Owing, OneWait) == Through
    ensures RunHistory(Owing, NoHistory(Owing), OneWait).done == [1]
    ensures RunHistory(Owing, NoHistory(Owing), OneWait).signals == [1]
  {
    OwingSleeps();
    OwingWakes();
    OwingFinishes();
    assert Queues(Owing) && Queues(Asleep) && Queues(Woken);
    var rest, last := OneWait[1..], OneWait[1..][1..];
    assert rest == [Signal(0), Wait(0)] && last == [Wait(0)] && last[1..] == [];
    var h0 := NoHistory(Owing);
    assert h0 == History([-1], [0], [0], [0]);
    var h1 := Record(Owing, h0, Wait(0));
    assert h1 == History([-1], [1], [0], [0]);
    hide Step, Queues, NoHistory;
    assert Possible(Through, []) && Possible(Woken, last) && Possible(Asleep, rest);
    assert Run(Woken, last) == Through && Run(Asleep, rest) == Through;
    var h2 := Record(Asleep, h1, Signal(0));
    var h3 := Record(Woken, h2, Wait(0));
    assert RunHistory(Woken, h2, last) == h3;
    assert RunHistory(Asleep, h1, rest) == h3;
  }

  /**
   * With a first count of -1 one signal lets a wait be completed, though the two add up to nothing: the bound on
   * completed waits is broken.
   */
  lemma NegativeStart()
    ensures Quiet(Owing) && Owing.sems == [-1] && Possible(Owing, OneWait) && !CountsAfter(Owing, OneWait, 0)
    ensures var st := Run(Owing, OneWait); st.stopped == [] && st.sems == [-1] && st.threads[0].partial == None
    ensures RunHistory(Owing, NoHistory(Owing), OneWait).done == [1]
    ensures RunHistory(Owing, NoHistory(Owing), OneWait).signals == [1]
  {
    OwingRuns();
    hide Possible, Run, RunHistory, NoHistory;
  }

  // ----- first come, first served -----

  /** The threads blocked on `s`, in the order in which they will be woken. */
  function Waiters(q: seq<nat>, ts: seq<Thread>, s: nat): seq<nat> {
    if q == [] then []
    else (if q[0] < |ts| && Is(ts[q[0]], s, true) then [q[0]] else []) + Waiters(q[1..], ts, s)
  }

  lemma {:induction false} WaitersSame(q: seq<nat>, ts: seq<Thread>, ts1: seq<Thread>, s: nat)
    requires forall x :: x in q ==> x < |ts| && x < |ts1| && (Is(ts[x], s, true) <==> Is(ts1[x], s, true))
    ensures Waiters(q, ts, s) == Waiters(q, ts1, s)
    decreases |q|
  {
    if q != [] {
      assert q[0] in q && forall x :: x in q[1..] ==> x in q;
      WaitersSame(q[1..], ts, ts1, s);
    }
  }

  lemma {:induction false} WaitersSnoc(q: seq<nat>, t: nat, ts: seq<Thread>, s: nat)
    requires t < |ts|
    ensures Waiters(q + [t], ts, s) == Waiters(q, ts, s) + if Is(ts[t], s, true) then [t] else []
    decreases |q|
  {
    if q == [] {
      assert q + [t] == [t];
    } else {
      assert (q + [t])[1..] == q[1..] + [t];
      WaitersSnoc(q[1..], t, ts, s);
    }
  }

  /** The first sleeper is the first waiter. */
  lemma {:induction false} FirstAmongWaiters(q: seq<nat>, ts: seq<Thread>, s: nat)
    requires (forall x :: x in q ==> x < |ts|) && Sleeper(q, ts, s).Some?
    ensures Waiters(q, ts, s) != [] && Waiters(q, ts, s) == [Sleeper(q, ts, s).value] + Waiters(q, ts, s)[1..]
    decreases |q|
  {
    assert q[0] in q && forall x :: x in q[1..] ==> x in q;
    if !Is(ts[q[0]], s, true) { FirstAmongWaiters(q[1..], ts, s); }
  }

  /** Without it the others remain in their order. */
  lemma {:induction false} OtherWaiters(q: seq<nat>, ts: seq<Thread>, s: nat, s1: nat)
    requires (forall x :: x in q ==> x < |ts|) && Sleeper(q, ts, s).Some?
    ensures Waiters(q, ts, s) != []
    ensures
      var t := Sleeper(q, ts, s).value;
      Waiters(Remove(q, t), ts, s1) == if s1 == s then Waiters(q, ts, s)[1..] else Waiters(q, ts, s1)
    decreases |q|
  {
    FirstAmongWaiters(q, ts, s);
    assert q[0] in q && forall x :: x in q[1..] ==> x in q;
    var t := Sleeper(q, ts, s).value;
    if t == q[0] {
      assert Remove(q, t) == q[1..];
    } else {
      assert !Is(ts[q[0]], s, true) && Sleeper(q[1..], ts, s) == Sleeper(q, ts, s);
      OtherWaiters(q[1..], ts, s, s1);
      var rest := Remove(q[1..], t);
      assert Remove(q, t) == [q[0]] + rest && ([q[0]] + rest)[1..] == rest;
    }
  }

  lemma FirstWaiter(q: seq<nat>, ts: seq<Thread>, s: nat, s1: nat)
    requires (forall x :: x in q ==> x < |ts|) && Sleeper(q, ts, s).Some?
    ensures
      var t := Sleeper(q, ts, s).value;
      && Waiters(q, ts, s) != [] && Waiters(q, ts, s) == [t] + Waiters(q, ts, s)[1..]
      && Waiters(Remove(q, t), ts, s1) == if s1 == s then Waiters(q, ts, s)[1..] else Waiters(q, ts, s1)
  {
    FirstAmongWaiters(q, ts, s);
    OtherWaiters(q, ts, s, s1);
  }

  /**
   * A wait that blocks puts its thread behind all waiters; a signal makes the first waiter runnable and
   * leaves the others in their order; nothing else changes who waits.
   */
  lemma FirstComeFirstServed(st: State, h: History, a: Action, s: nat)
    requires Inv(st, h) && Allowed(st, a) && s < |st.sems|
    ensures
      var t, before, after := st.running[0], Waiters(st.stopped, st.threads, s),
        Waiters(Step(st, a).stopped, Step(st, a).threads, s);
      if a == Wait(s) && st.threads[t].partial.None? && st.sems[s] <= 0 then after == before + [t]
      else if a == Signal(s) && st.sems[s] < 0 then
        before != [] && after == before[1..] && before[0] < |st.threads| &&
            Step(st, a).threads[before[0]].state == Running
      else after == before
  {
    var t := st.running[0];
    assert t in st.running && CountedAt(st, h, s);
    match a {
      case Wait(s1) =>
        var st1 := st.(sems := st.sems[s1 := st.sems[s1] - 1]);
        if st.threads[t].partial.None? && st1.sems[s1] < 0 {
          SleepWaiters(st1, h, t, s1, s);
        } else {
          CompleteWaiters(if st.threads[t].partial.Some? then st else st1, t, s);
        }
      case Signal(s1) => SignalWaiters(st, h, s1, s);
      case Test(s1) => CompleteWaiters(if st.sems[s1] <= 0 then st
          else st.(sems := st.sems[s1 := st.sems[s1] - 1]), t, s);
      case Other => CompleteWaiters(st, t, s);
      case Spawn(p) =>
        var st1 := st.(threads := st.threads + [Thread(Running, p, None, None)]);
        InsertDistinct(st.running, |st.threads|, st1.threads);
        var st2 := st1.(running := Insert(st.running, |st.threads|, st1.threads));
        assert Queues(st2);
        WaitersSame(st.stopped, st.threads, st1.threads, s);
        CompleteWaiters(st2, t, s);
      case Finish =>
        SetStateQueues(st, t, Finished);
        WaitersSame(st.stopped, st.threads, Step(st, a).threads, s);
    }
  }

  lemma CompleteWaiters(st: State, t: nat, s: nat)
    requires Queues(st) && t < |st.threads| && st.threads[t].state == Running
    ensures Waiters(Complete(st, t).stopped, Complete(st, t).threads, s) == Waiters(st.stopped, st.threads, s)
  {
    CompleteQueues(st, t);
    WaitersSame(st.stopped, st.threads, Complete(st, t).threads, s);
  }

  lemma SleepWaiters(st: State, h: History, t: nat, s1: nat, s: nat)
    requires Queues(st) && ThreadsOk(st) && t < |st.threads| && st.threads[t].state == Running
    ensures
      Waiters(Sleep(st, t, s1).stopped, Sleep(st, t, s1).threads, s) ==
      Waiters(st.stopped, st.threads, s) + if s1 == s then [t] else []
  {
    var th := st.threads[t].(priority := PrioritySync, sleep := Some(s1), partial := Some(s1));
    var st1 := st.(threads := st.threads[t := th]);
    SetStateQueues(st1, t, Suspended);
    var ts := Sleep(st, t, s1).threads;
    assert t !in st.stopped;
    InsertLast(st.stopped, t, ts);
    WaitersSnoc(st.stopped, t, ts, s);
    WaitersSame(st.stopped, st.threads, ts, s);
  }

  lemma SignalWaiters(st: State, h: History, s1: nat, s: nat)
    requires Inv(st, h) && Allowed(st, Signal(s1)) && s < |st.sems|
    ensures
      var before, st3 := Waiters(st.stopped, st.threads, s), Step(st, Signal(s1));
      if s1 == s && st.sems[s] < 0 then
        before != [] && Waiters(st3.stopped, st3.threads, s) == before[1..] &&
        before[0] < |st.threads| && st3.threads[before[0]].state == Running
      else Waiters(st3.stopped, st3.threads, s) == before
  {
    hide Distinct, Waiters, Count, Insert, Sleep;
    var t := st.running[0];
    assert t in st.running && CountedAt(st, h, s1);
    var st1 := st.(sems := st.sems[s1 := st.sems[s1] + 1]);
    if st1.sems[s1] > 0 {
      CompleteWaiters(st1, t, s);
    } else if Count(st.threads, s1, true) == 0 {
      WakeNone(st1, s1);
      CompleteWaiters(st1, t, s);
    } else {
      WakeKeeps(st1, s1, s);
      var st2, x := WakeOne(st1, s1), Sleeper(st.stopped, st.threads, s1).value;
      var th := st.threads[x].(sleep := None);
      SetStateQueues(st1.(threads := st.threads[x := th]), x, Running);
      FirstWaiter(st.stopped, st.threads, s1, s);
      assert x !in Remove(st.stopped, x) by { RemoveDistinct(st.stopped, x); }
      WaitersSame(Remove(st.stopped, x), st.threads, st2.threads, s);
      CompleteWaiters(st2, t, s);
      CompleteQueues(st2, t);
    }
  }
}
