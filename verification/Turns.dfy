/** Threads run by priority, and those of the same priority in turn. */
module Turns {
  import opened Options
  import opened Semaphores

  // ----- queues in the order of priority -----

  function Rank(ts: seq<Thread>, t: nat): int {
    if t < |ts| then ts[t].priority else 0
  }

  /** Nobody stands behind a thread of a lower priority. */
  ghost predicate Ordered(q: seq<nat>, ts: seq<Thread>) {
    forall i, j :: 0 <= i < j < |q| ==> Rank(ts, q[i]) >= Rank(ts, q[j])
  }

  ghost predicate InOrder(st: State) {
    Ordered(st.running, st.threads) && Ordered(st.stopped, st.threads)
  }

  lemma OrderedAlike(q: seq<nat>, ts: seq<Thread>, ts1: seq<Thread>)
    requires Ordered(q, ts) && forall i :: 0 <= i < |q| ==> Rank(ts1, q[i]) == Rank(ts, q[i])
    ensures Ordered(q, ts1)
  {
  }

  /** A queue is in order if it is behind its first element and that stands before none of a higher priority. */
  lemma OrderedCons(x: nat, q: seq<nat>, ts: seq<Thread>)
    requires Ordered(q, ts) && forall y :: y in q ==> Rank(ts, x) >= Rank(ts, y)
    ensures Ordered([x] + q, ts)
  {
    hide Rank;
    var r := [x] + q;
    forall i, j | 0 <= i < j < |r| ensures Rank(ts, r[i]) >= Rank(ts, r[j]) {
      assert r[j] == q[j - 1] && q[j - 1] in q;
      if i > 0 { assert r[i] == q[i - 1]; }
    }
  }

  lemma OrderedTail(q: seq<nat>, ts: seq<Thread>)
    requires Ordered(q, ts) && q != []
    ensures Ordered(q[1..], ts) && forall y :: y in q[1..] ==> Rank(ts, q[0]) >= Rank(ts, y)
  {
    hide Rank;
    var r := q[1..];
    forall i, j | 0 <= i < j < |r| ensures Rank(ts, r[i]) >= Rank(ts, r[j]) {
      assert r[i] == q[i + 1] && r[j] == q[j + 1];
    }
    forall y | y in r ensures Rank(ts, q[0]) >= Rank(ts, y) {
      var i :| 0 <= i < |r| && r[i] == y;
      assert q[i + 1] == y;
    }
  }

  lemma {:induction false} InsertOrdered(q: seq<nat>, t: nat, ts: seq<Thread>)
    requires Ordered(q, ts) && t < |ts| && forall x :: x in q ==> x < |ts|
    ensures Ordered(Insert(q, t, ts), ts)
    decreases |q|
  {
    if q == [] {
    } else {
      assert q[0] in q && forall x :: x in q[1..] ==> x in q;
      OrderedTail(q, ts);
      if ts[q[0]].priority >= ts[t].priority {
        InsertOrdered(q[1..], t, ts);
        OrderedCons(q[0], Insert(q[1..], t, ts), ts);
      } else {
        forall y | y in q ensures Rank(ts, t) >= Rank(ts, y) { assert y == q[0] || y in q[1..]; }
        OrderedCons(t, q, ts);
      }
    }
  }

  lemma {:induction false} RemoveOrdered(q: seq<nat>, t: nat, ts: seq<Thread>)
    requires Ordered(q, ts)
    ensures Ordered(Remove(q, t), ts)
    decreases |q|
  {
    if q != [] {
      OrderedTail(q, ts);
      if q[0] != t {
        RemoveOrdered(q[1..], t, ts);
        OrderedCons(q[0], Remove(q[1..], t), ts);
      }
    }
  }

  /** Moving a thread between the queues keeps the order, whatever its priority was before. */
  lemma SetStateOrdered(st: State, t: nat, to: ThreadState)
    requires Queues(st) && t < |st.threads| && st.threads[t].state != to
    requires Ordered(Remove(st.running, t), st.threads) && Ordered(Remove(st.stopped, t), st.threads)
    ensures InOrder(SetState(st, t, to))
  {
    var th := st.threads[t];
    var ts := st.threads[t := th.(state := to)];
    var run := if th.state == Running then Remove(st.running, t) else st.running;
    var stop := if th.state == Suspended then Remove(st.stopped, t) else st.stopped;
    OrderedAlike(run, st.threads, ts);
    OrderedAlike(stop, st.threads, ts);
    if to == Running { InsertOrdered(run, t, ts); }
    if to == Suspended { InsertOrdered(stop, t, ts); }
  }

  // ----- an instruction up to its completion -----

  /** The state in which the instruction is completed, if its thread does not sleep or finish. */
  ghost function Effect(st: State, a: Action): (r: State)
    requires Known(st) && Allowed(st, a)
    ensures Known(r)
  {
    match a
    case Wait(s) =>
      if st.threads[st.running[0]].partial.Some? then st else st.(sems := st.sems[s := st.sems[s] - 1])
    case Signal(s) =>
      var st1 := st.(sems := st.sems[s := st.sems[s] + 1]);
      if st1.sems[s] <= 0 then WakeOne(st1, s) else st1
    case Test(s) => if st.sems[s] <= 0 then st else st.(sems := st.sems[s := st.sems[s] - 1])
    case Spawn(p) =>
      var st1 := st.(threads := st.threads + [Thread(Running, p, None, None)]);
      st1.(running := Insert(st1.running, |st.threads|, st1.threads))
    case _ => st
  }

  /** The thread that executes the instruction can go on behind it. */
  ghost predicate GoesOn(st: State, a: Action)
    requires Known(st) && Allowed(st, a) && RunnableHead(st)
  {
    Step(st, a).threads != [] && st.running[0] < |Step(st, a).threads| &&
    Step(st, a).threads[st.running[0]].state == Running
  }

  lemma EffectQueues(st: State, a: Action)
    requires Queues(st) && Allowed(st, a) && RunnableHead(st)
    ensures
      var r, t := Effect(st, a), st.running[0];
      Queues(r) && t < |r.threads| && r.threads[t] == st.threads[t]
  {
    hide Insert, Remove, Sleeper, Distinct;
    match a {
      case Signal(s) =>
        var st1 := st.(sems := st.sems[s := st.sems[s] + 1]);
        var x := Sleeper(st1.stopped, st1.threads, s);
        assert Queues(st1);
        if x.Some? {
          var th := st1.threads[x.value].(sleep := None);
          var st2 := st1.(threads := st1.threads[x.value := th]);
          assert Queues(st2);
          SetStateQueues(st2, x.value, Running);
        }
      case Spawn(p) =>
        var st1 := st.(threads := st.threads + [Thread(Running, p, None, None)]);
        InsertDistinct(st.running, |st.threads|, st1.threads);
      case _ =>
    }
  }

  lemma EffectOrdered(st: State, a: Action)
    requires Queues(st) && Allowed(st, a) && RunnableHead(st) && InOrder(st)
    ensures InOrder(Effect(st, a))
  {
    hide Insert, Remove, Sleeper, Distinct;
    match a {
      case Signal(s) =>
        var st1 := st.(sems := st.sems[s := st.sems[s] + 1]);
        var x := Sleeper(st1.stopped, st1.threads, s);
        if x.Some? {
          var th := st1.threads[x.value].(sleep := None);
          var st2 := st1.(threads := st1.threads[x.value := th]);
          OrderedAlike(st.running, st.threads, st2.threads);
          OrderedAlike(st.stopped, st.threads, st2.threads);
          RemoveOrdered(st2.running, x.value, st2.threads);
          RemoveOrdered(st2.stopped, x.value, st2.threads);
          SetStateOrdered(st2, x.value, Running);
        }
      case Spawn(p) =>
        var st1 := st.(threads := st.threads + [Thread(Running, p, None, None)]);
        assert forall i :: 0 <= i < |st.running| ==> st.running[i] in st.running;
        assert forall i :: 0 <= i < |st.stopped| ==> st.stopped[i] in st.stopped;
        OrderedAlike(st.running, st.threads, st1.threads);
        OrderedAlike(st.stopped, st.threads, st1.threads);
        InsertOrdered(st.running, |st.threads|, st1.threads);
      case _ =>
    }
  }

  /** An instruction is completed, or its thread sleeps or finishes. */
  lemma StepIs(st: State, a: Action)
    requires Queues(st) && Allowed(st, a) && RunnableHead(st)
    ensures
      var t, r := st.running[0], Effect(st, a);
      && Queues(r) && t < |r.threads| && r.threads[t].state == Running
      && (GoesOn(st, a) ==> Step(st, a) == Complete(r, t))
      && (!GoesOn(st, a) ==> Step(st, a) == (if a == Finish then SetState(st, t, Finished) else Sleep(r, t, a.s)) &&
                             (a.Finish? || a.Wait?))
  {
    var t := st.running[0];
    EffectQueues(st, a);
    var r := Effect(st, a);
    CompleteQueues(r, t);
    if a.Finish? { SetStateQueues(st, t, Finished); }
    if a.Wait? {
      var th := r.threads[t].(priority := PrioritySync, sleep := Some(a.s), partial := Some(a.s));
      var r1 := r.(threads := r.threads[t := th]);
      assert Queues(r1);
      SetStateQueues(r1, t, Suspended);
    }
  }

  /** The thread that a signal to `s` wakes. */
  ghost predicate Woken(st: State, a: Action, x: nat)
    requires Known(st)
  {
    a.Signal? && a.s < |st.sems| && st.sems[a.s] < 0 && Sleeper(st.stopped, st.threads, a.s) == Some(x)
  }

  /**
   * What an instruction does to each thread: the one that executes it sleeps, finishes, or has completed it; one may be
   * woken, which runs on with its wait to complete; a thread spawned has the priority given; no other is changed.
   */
  lemma ThreadTable(st: State, a: Action, x: nat)
    requires Queues(st) && Allowed(st, a) && RunnableHead(st) && x < |st.threads|
    ensures
      var t, ts, r := st.running[0], st.threads, Step(st, a).threads;
      && |r| == |ts| + (if a.Spawn? then 1 else 0)
      && (a.Spawn? ==> r[|ts|] == Thread(Running, a.priority, None, None))
      && (x != t && !Woken(st, a, x) ==> r[x] == ts[x])
      && (x != t && Woken(st, a, x) ==> r[x] == ts[x].(sleep := None, state := Running))
      && r[t] == (if a.Finish? then ts[t].(state := Finished)
                  else if a.Wait? && ts[t].partial.None? && st.sems[a.s] <= 0
                  then Thread(Suspended, PrioritySync, Some(a.s), Some(a.s))
                  else ts[t].(partial := None))
  {
    hide Insert, Remove, Sleeper, Distinct;
    var t := st.running[0];
    StepIs(st, a);
    EffectTable(st, a, x);
    EffectTable(st, a, t);
    var e := Effect(st, a);
    CompleteQueues(e, t);
    if a.Finish? { SetStateQueues(st, t, Finished); }
    if a.Wait? {
      var th := e.threads[t].(priority := PrioritySync, sleep := Some(a.s), partial := Some(a.s));
      var e1 := e.(threads := e.threads[t := th]);
      assert Queues(e1);
      SetStateQueues(e1, t, Suspended);
      CompletesOrSleeps(st, a.s);
    }
    hide Effect, Step, Complete, Sleep, SetState;
  }

  lemma CompletesOrSleeps(st: State, s: nat)
    requires Queues(st) && Allowed(st, Wait(s)) && RunnableHead(st)
    ensures
      var t := st.running[0];
      Step(st, Wait(s)) == if st.threads[t].partial.None? && st.sems[s] <= 0 then Sleep(Effect(st, Wait(s)), t, s)
                           else Complete(Effect(st, Wait(s)), t)
  {
  }

  lemma EffectTable(st: State, a: Action, x: nat)
    requires Queues(st) && Allowed(st, a) && RunnableHead(st) && x < |st.threads|
    ensures
      var ts, r := st.threads, Effect(st, a).threads;
      && |r| == |ts| + (if a.Spawn? then 1 else 0)
      && (a.Spawn? ==> r[|ts|] == Thread(Running, a.priority, None, None))
      && r[x] == if Woken(st, a, x) then ts[x].(sleep := None, state := Running) else ts[x]
  {
    hide Insert, Remove, Sleeper, Distinct;
    match a {
      case Signal(s) =>
        var st1 := st.(sems := st.sems[s := st.sems[s] + 1]);
        var y := Sleeper(st1.stopped, st1.threads, s);
        assert Queues(st1);
        if y.Some? {
          var th := st1.threads[y.value].(sleep := None);
          var st2 := st1.(threads := st1.threads[y.value := th]);
          assert Queues(st2);
          SetStateQueues(st2, y.value, Running);
        }
      case _ =>
    }
  }

  // ----- the order is kept -----

  lemma CompleteOrdered(st: State, t: nat)
    requires Queues(st) && InOrder(st) && t < |st.threads| && st.threads[t].state == Running
    ensures InOrder(Complete(st, t))
  {
    var st1 := st.(threads := st.threads[t := st.threads[t].(partial := None)]);
    OrderedAlike(st.running, st.threads, st1.threads);
    OrderedAlike(st.stopped, st.threads, st1.threads);
    RemoveOrdered(st1.running, t, st1.threads);
    InsertOrdered(Remove(st1.running, t), t, st1.threads);
  }

  lemma SleepOrdered(st: State, t: nat, s: nat)
    requires Queues(st) && InOrder(st) && t < |st.threads| && st.threads[t].state == Running
    ensures InOrder(Sleep(st, t, s))
  {
    var th := st.threads[t].(priority := PrioritySync, sleep := Some(s), partial := Some(s));
    var st1 := st.(threads := st.threads[t := th]);
    RemoveOrdered(st.running, t, st.threads);
    RemoveDistinct(st.running, t);
    RemoveOrdered(st.stopped, t, st.threads);
    RemoveDistinct(st.stopped, t);
    OrderedAlike(Remove(st.running, t), st.threads, st1.threads);
    OrderedAlike(Remove(st.stopped, t), st.threads, st1.threads);
    SetStateOrdered(st1, t, Suspended);
  }

  /** Every instruction keeps both queues in the order of priority, also where a thread is spawned, sleeps or wakes. */
  lemma StepOrdered(st: State, a: Action)
    requires Queues(st) && Allowed(st, a) && RunnableHead(st) && InOrder(st)
    ensures InOrder(Step(st, a))
  {
    var t := st.running[0];
    StepIs(st, a);
    EffectOrdered(st, a);
    var r := Effect(st, a);
    hide Effect, Step, Complete, Sleep, SetState, InOrder;
    if GoesOn(st, a) {
      CompleteOrdered(r, t);
    } else if a.Finish? {
      FinishOrdered(st, t);
    } else {
      SleepOrdered(r, t, a.s);
    }
  }

  lemma FinishOrdered(st: State, t: nat)
    requires Queues(st) && InOrder(st) && t < |st.threads| && st.threads[t].state == Running
    ensures InOrder(SetState(st, t, Finished))
  {
    RemoveOrdered(st.running, t, st.threads);
    RemoveOrdered(st.stopped, t, st.threads);
    SetStateOrdered(st, t, Finished);
  }

  /** So the queues are in order after every run, and nobody runs while a thread of a higher priority could. */
  lemma {:induction false} RunOrdered(st: State, as_: seq<Action>)
    requires InOrder(st) && Possible(st, as_)
    ensures InOrder(Run(st, as_))
    ensures
      var r := Run(st, as_);
      forall x :: x in r.running ==> Rank(r.threads, x) <= Rank(r.threads, r.running[0])
    decreases |as_|
  {
    if as_ != [] {
      StepOrdered(st, as_[0]);
      RunOrdered(Step(st, as_[0]), as_[1..]);
    } else {
      forall x | x in st.running ensures Rank(st.threads, x) <= Rank(st.threads, st.running[0]) {
        var i :| 0 <= i < |st.running| && st.running[i] == x;
      }
    }
  }

  // ----- taking turns -----

  /** How many threads at the front have the priority of the first. */
  function Peers(q: seq<nat>, ts: seq<Thread>): (k: nat)
    ensures k <= |q| && (q != [] ==> k > 0)
    ensures forall i :: 0 <= i < k ==> Rank(ts, q[i]) == Rank(ts, q[0])
    ensures k < |q| ==> Rank(ts, q[k]) != Rank(ts, q[0])
  {
    if |q| <= 1 then |q|
    else if Rank(ts, q[1]) != Rank(ts, q[0]) then 1
    else
      var k1 := Peers(q[1..], ts);
      assert forall i :: 1 <= i < 1 + k1 ==> q[i] == q[1..][i - 1];
      assert 1 + k1 < |q| ==> q[1 + k1] == q[1..][k1];
      1 + k1
  }

  lemma {:induction false} InsertBehind(q: seq<nat>, t: nat, ts: seq<Thread>, k: nat)
    requires t < |ts| && k <= |q| && forall x :: x in q ==> x < |ts|
    requires forall i :: 0 <= i < k ==> Rank(ts, q[i]) >= Rank(ts, t)
    requires k < |q| ==> Rank(ts, q[k]) < Rank(ts, t)
    ensures Insert(q, t, ts) == q[..k] + [t] + q[k..]
    decreases |q|
  {
    if q != [] {
      assert q[0] in q && forall x :: x in q[1..] ==> x in q;
      if k > 0 {
        var r := q[1..];
        assert forall i :: 0 <= i < k - 1 ==> r[i] == q[i + 1];
        assert k < |q| ==> r[k - 1] == q[k];
        assert Rank(ts, q[0]) >= Rank(ts, t);
        assert Insert(q, t, ts) == [q[0]] + Insert(r, t, ts);
        hide Insert, Rank;
        InsertBehind(r, t, ts, k - 1);
        ConsBehind(q, t, k);
      }
    }
  }

  lemma ConsBehind(q: seq<nat>, t: nat, k: nat)
    requires 0 < k <= |q|
    ensures [q[0]] + (q[1..][..k - 1] + [t] + q[1..][k - 1..]) == q[..k] + [t] + q[k..]
  {
    assert q[1..][..k - 1] == q[1..k] && q[1..][k - 1..] == q[k..] && [q[0]] + q[1..k] == q[..k];
  }

  /** The front of the queue with its first element moved behind `k - 1` others. */
  function Turned(q: seq<nat>, k: nat): seq<nat>
    requires 0 < k <= |q|
  {
    q[1..k] + [q[0]] + q[k..]
  }

  /** After its instruction the first thread goes behind the others of its priority. */
  lemma CompleteTurns(st: State, t: nat)
    requires Queues(st) && InOrder(st) && RunnableHead(st) && t == st.running[0]
    ensures Complete(st, t).running == Turned(st.running, Peers(st.running, st.threads))
  {
    var q := st.running;
    var ts := st.threads[t := st.threads[t].(partial := None)];
    assert forall i :: 0 <= i < |q| ==> q[i] in q;
    assert forall i :: 0 <= i < |q| ==> Rank(ts, q[i]) == Rank(st.threads, q[i]);
    PeersAlike(q, st.threads, ts);
    OrderedAlike(q, st.threads, ts);
    assert Complete(st, t).running == if NextIsNoLower(q, t, ts) then Insert(Remove(q, t), t, ts) else q;
    assert NextIsNoLower(q, t, ts) <==> |q| > 1 && Rank(ts, q[1]) >= Rank(ts, q[0]);
    hide Complete, NextIsNoLower, Rank;
    FrontTurns(q, t, ts);
  }

  lemma FrontTurns(q: seq<nat>, t: nat, ts: seq<Thread>)
    requires q != [] && q[0] == t && t < |ts| && Ordered(q, ts) && forall x :: x in q ==> x < |ts|
    ensures
      var k := Peers(q, ts);
      && (|q| > 1 && Rank(ts, q[1]) >= Rank(ts, q[0]) <==> k > 1)
      && Insert(Remove(q, t), t, ts) == Turned(q, k) && (k == 1 ==> Turned(q, k) == q)
  {
    var k, r := Peers(q, ts), q[1..];
    assert Remove(q, t) == r && forall x :: x in r ==> x in q;
    hide Rank, Remove, Insert, Peers, Turned;
    if |q| > 1 { assert Rank(ts, q[0]) >= Rank(ts, q[1]); }
    if k < |q| { assert Rank(ts, q[0]) >= Rank(ts, q[k]); }
    hide Ordered;
    forall i | 0 <= i < k - 1 ensures Rank(ts, r[i]) >= Rank(ts, t) { assert r[i] == q[i + 1]; }
    assert k < |q| ==> r[k - 1] == q[k];
    TurnedIs(q, k);
    InsertBehind(r, t, ts, k - 1);
  }

  lemma TurnedIs(q: seq<nat>, k: nat)
    requires 0 < k <= |q|
    ensures q[1..][..k - 1] + [q[0]] + q[1..][k - 1..] == Turned(q, k)
    ensures k == 1 ==> Turned(q, k) == q
  {
    assert q[1..][..k - 1] == q[1..k] && q[1..][k - 1..] == q[k..];
  }

  /** The instruction changes nothing about who can run. */
  ghost predicate Steady(st: State, a: Action)
    requires Queues(st) && Allowed(st, a) && RunnableHead(st)
  {
    forall x: nat :: x in Step(st, a).running <==> x in st.running
  }

  /**
   * If the same threads can run afterwards, the one that has executed its instruction stands behind all others of its
   * priority, and the others stay in their order: if the next one had the same priority, it is first now.
   */
  lemma TakesTurn(st: State, a: Action)
    requires Queues(st) && Allowed(st, a) && RunnableHead(st) && InOrder(st) && Steady(st, a)
    ensures
      var q, ts, r := st.running, st.threads, Step(st, a);
      var k := Peers(q, ts);
      && r.running == Turned(q, k)
      && (forall x: nat :: x < |ts| ==> x < |r.threads| && Rank(r.threads, x) == Rank(ts, x))
      && Queues(r) && (|q| > 1 && Rank(ts, q[0]) == Rank(ts, q[1]) ==> r.running[0] == q[1])
  {
    var t, e := st.running[0], Effect(st, a);
    StepIs(st, a);
    assert t in st.running && t in Step(st, a).running;
    StaysRunnable(st, a);
    CompleteQueues(e, t);
    SameRunnable(e, t);
    hide Complete, Effect, InOrder, Step;
    SteadyEffect(st, a);
    EffectOrdered(st, a);
    CompleteTurns(e, t);
  }

  lemma SameRunnable(st: State, t: nat)
    requires Queues(st) && t < |st.threads| && st.threads[t].state == Running
    ensures forall x: nat :: x in Complete(st, t).running <==> x in st.running
  {
    CompleteQueues(st, t);
    var ts := Complete(st, t).threads;
    assert forall x: nat :: x < |ts| ==> ts[x].state == st.threads[x].state;
    hide Complete;
  }

  lemma StaysRunnable(st: State, a: Action)
    requires Queues(st) && Allowed(st, a) && RunnableHead(st) && st.running[0] in Step(st, a).running
    ensures GoesOn(st, a)
  {
    var t := st.running[0];
    StepIs(st, a);
    if a.Finish? { SetStateQueues(st, t, Finished); }
    if a.Wait? { SleepLeaves(Effect(st, a), t, a.s); }
  }

  lemma SleepLeaves(st: State, t: nat, s: nat)
    requires Queues(st) && t < |st.threads| && st.threads[t].state == Running
    ensures t !in Sleep(st, t, s).running
  {
    var th := st.threads[t].(priority := PrioritySync, sleep := Some(s), partial := Some(s));
    var st1 := st.(threads := st.threads[t := th]);
    assert Queues(st1);
    SetStateQueues(st1, t, Suspended);
  }

  /** A thread that is woken becomes runnable. */
  lemma WokenEnters(st: State, s: nat)
    requires Queues(st)
    ensures
      var x := Sleeper(st.stopped, st.threads, s);
      x.Some? ==> x.value in WakeOne(st, s).running && x.value !in st.running
  {
    var x := Sleeper(st.stopped, st.threads, s);
    if x.Some? {
      var th := st.threads[x.value].(sleep := None);
      var st2 := st.(threads := st.threads[x.value := th]);
      assert Queues(st2);
      SetStateQueues(st2, x.value, Running);
    }
  }

  /** Without a thread spawned or woken the effect of an instruction leaves the queue and all priorities. */
  lemma SteadyEffect(st: State, a: Action)
    requires Queues(st) && Allowed(st, a) && RunnableHead(st)
    requires forall x: nat :: x in Effect(st, a).running <==> x in st.running
    ensures Effect(st, a).running == st.running && Effect(st, a).threads == st.threads
  {
    match a {
      case Signal(s) =>
        var st1 := st.(sems := st.sems[s := st.sems[s] + 1]);
        assert Queues(st1);
        WokenEnters(st1, s);
      case Spawn(p) => assert |st.threads| !in st.running;
      case _ =>
    }
  }

  lemma {:induction false} PeersAlike(q: seq<nat>, ts: seq<Thread>, ts1: seq<Thread>)
    requires forall i :: 0 <= i < |q| ==> Rank(ts, q[i]) == Rank(ts1, q[i])
    ensures Peers(q, ts) == Peers(q, ts1)
    decreases |q|
  {
    hide Rank;
    if |q| > 1 {
      assert forall i :: 0 <= i < |q[1..]| ==> q[1..][i] == q[i + 1];
      PeersAlike(q[1..], ts, ts1);
    }
  }

  /** Only threads of a lower priority stand behind the thread. */
  ghost predicate LastOfRank(q: seq<nat>, t: nat, ts: seq<Thread>) {
    forall i, j :: 0 <= i < j < |q| && q[i] == t ==> Rank(ts, q[j]) < Rank(ts, t)
  }

  lemma LastCons(x: nat, q: seq<nat>, t: nat, ts: seq<Thread>)
    requires LastOfRank(q, t, ts) && (x == t ==> forall y :: y in q ==> Rank(ts, y) < Rank(ts, t))
    ensures LastOfRank([x] + q, t, ts)
  {
    hide Rank;
    var r := [x] + q;
    forall i, j | 0 <= i < j < |r| && r[i] == t ensures Rank(ts, r[j]) < Rank(ts, t) {
      assert r[j] == q[j - 1] && q[j - 1] in q;
      if i > 0 { assert r[i] == q[i - 1]; }
    }
  }

  lemma {:induction false} InsertedLast(q: seq<nat>, t: nat, ts: seq<Thread>)
    requires t < |ts| && t !in q && Ordered(q, ts) && forall x :: x in q ==> x < |ts|
    ensures LastOfRank(Insert(q, t, ts), t, ts)
    decreases |q|
  {
    if q != [] {
      assert q[0] in q && forall x :: x in q[1..] ==> x in q;
      OrderedTail(q, ts);
      if ts[q[0]].priority >= ts[t].priority {
        InsertedLast(q[1..], t, ts);
        LastCons(q[0], Insert(q[1..], t, ts), t, ts);
      } else {
        forall y | y in q ensures Rank(ts, y) < Rank(ts, t) { assert y == q[0] || y in q[1..]; }
        LastCons(t, q, t, ts);
      }
    }
  }

  /** A thread that is not moved has only threads of a lower priority behind it. */
  lemma {:induction false} UnmovedLast(q: seq<nat>, t: nat, ts: seq<Thread>)
    requires t < |ts| && (forall x :: x in q ==> x < |ts|) && Ordered(q, ts) && Distinct(q)
    requires !NextIsNoLower(q, t, ts)
    ensures LastOfRank(q, t, ts)
    decreases |q|
  {
    if |q| >= 2 {
      assert q[0] in q && q[1] in q && forall x :: x in q[1..] ==> x in q;
      OrderedTail(q, ts);
      OrderedTail(q[1..], ts);
      assert q[1..][0] == q[1] && [q[0]] + q[1..] == q;
      if q[0] == t {
        forall y | y in q[1..] ensures Rank(ts, y) < Rank(ts, t) { assert y == q[1] || y in q[1..][1..]; }
        assert t !in q[1..];
        LastCons(t, q[1..], t, ts);
      } else {
        UnmovedLast(q[1..], t, ts);
        LastCons(q[0], q[1..], t, ts);
      }
    }
  }

  /**
   * Whatever threads an instruction has spawned or woken: behind the thread that has completed it there are only
   * threads of a lower priority.
   */
  lemma BehindItsEquals(st: State, a: Action)
    requires Queues(st) && Allowed(st, a) && RunnableHead(st) && InOrder(st) && GoesOn(st, a)
    ensures LastOfRank(Step(st, a).running, st.running[0], Step(st, a).threads)
  {
    var t, e := st.running[0], Effect(st, a);
    StepIs(st, a);
    EffectOrdered(st, a);
    hide Effect, Step, InOrder;
    CompletedLast(e, t);
  }

  lemma CompletedLast(st: State, t: nat)
    requires Queues(st) && InOrder(st) && t < |st.threads| && st.threads[t].state == Running
    ensures LastOfRank(Complete(st, t).running, t, Complete(st, t).threads)
  {
    var q := st.running;
    var ts := st.threads[t := st.threads[t].(partial := None)];
    assert forall i :: 0 <= i < |q| ==> Rank(ts, q[i]) == Rank(st.threads, q[i]);
    OrderedAlike(q, st.threads, ts);
    assert Complete(st, t).threads == ts;
    assert Complete(st, t).running == if NextIsNoLower(q, t, ts) then Insert(Remove(q, t), t, ts) else q;
    hide Complete, Rank, NextIsNoLower;
    if NextIsNoLower(q, t, ts) {
      RemoveOrdered(q, t, ts);
      RemoveDistinct(q, t);
      InsertedLast(Remove(q, t), t, ts);
    } else {
      UnmovedLast(q, t, ts);
    }
  }

  // ----- rounds -----

  /** A run in which the same threads can always run. */
  ghost predicate SteadyRun(st: State, as_: seq<Action>)
    requires Possible(st, as_)
    decreases |as_|
  {
    as_ != [] ==> Steady(st, as_[0]) && SteadyRun(Step(st, as_[0]), as_[1..])
  }

  /** The queue after `j` turns of its first `k` threads. */
  function After(q: seq<nat>, k: nat, j: nat): seq<nat>
    requires j <= k <= |q|
  {
    q[j..k] + q[..j] + q[k..]
  }

  lemma TurnedOn(q: seq<nat>, k: nat, j: nat)
    requires 0 < k <= |q| && 0 < j <= k
    ensures After(Turned(q, k), k, j - 1) == After(q, k, j)
  {
    var r := Turned(q, k);
    assert r[j - 1..k] == q[j..k] + [q[0]];
    assert r[..j - 1] == q[1..j];
    assert r[k..] == q[k..];
    assert [q[0]] + q[1..j] == q[..j];
  }

  lemma TurnedAt(q: seq<nat>, k: nat, i: nat)
    requires 0 < k <= |q| && i < |q|
    ensures |Turned(q, k)| == |q|
    ensures Turned(q, k)[i] == if i < k - 1 then q[i + 1] else if i == k - 1 then q[0] else q[i]
  {
  }

  lemma TurnedPeers(q: seq<nat>, ts: seq<Thread>)
    requires q != []
    ensures Peers(Turned(q, Peers(q, ts)), ts) == Peers(q, ts)
  {
    hide Rank;
    var k := Peers(q, ts);
    var r := Turned(q, k);
    forall i | 0 <= i < k ensures Rank(ts, r[i]) == Rank(ts, q[0]) { TurnedAt(q, k, i); }
    if k < |q| { TurnedAt(q, k, k); }
    hide Turned;
    PeersAre(r, ts, k);
  }

  lemma {:induction false} PeersAre(q: seq<nat>, ts: seq<Thread>, k: nat)
    requires 0 < k <= |q| && forall i :: 0 <= i < k ==> Rank(ts, q[i]) == Rank(ts, q[0])
    requires k < |q| ==> Rank(ts, q[k]) != Rank(ts, q[0])
    ensures Peers(q, ts) == k
    decreases |q|
  {
    hide Rank;
    if k > 1 {
      assert Rank(ts, q[1]) == Rank(ts, q[0]);
      assert forall i :: 0 <= i < |q[1..]| ==> q[1..][i] == q[i + 1];
      PeersAre(q[1..], ts, k - 1);
    }
  }

  lemma {:induction false} AfterTurns(st: State, as_: seq<Action>)
    requires Possible(st, as_) && InOrder(st) && st.running != [] && |as_| <= Peers(st.running, st.threads)
    requires SteadyRun(st, as_)
    ensures Run(st, as_).running == After(st.running, Peers(st.running, st.threads), |as_|)
    decreases |as_|
  {
    var q, ts := st.running, st.threads;
    var k := Peers(q, ts);
    if as_ == [] {
      assert After(q, k, 0) == q;
    } else {
      RunFirst(st, as_);
      var st1 := Step(st, as_[0]);
      hide Step, Run, Possible, SteadyRun, After, Turned, Peers, InOrder;
      NextTurn(st, as_[0]);
      AfterTurns(st1, as_[1..]);
      TurnedOn(q, k, |as_|);
    }
  }

  lemma NextTurn(st: State, a: Action)
    requires Queues(st) && Allowed(st, a) && RunnableHead(st) && InOrder(st) && Steady(st, a)
    ensures
      var q, st1 := st.running, Step(st, a);
      var k := Peers(q, st.threads);
      st1.running != [] && InOrder(st1) && st1.running == Turned(q, k) && Peers(st1.running, st1.threads) == k
  {
    var q, ts, st1 := st.running, st.threads, Step(st, a);
    TakesTurn(st, a);
    StepOrdered(st, a);
    TurnedPeers(q, ts);
    hide Step, InOrder, Peers, Turned, Rank;
    forall i | 0 <= i < |st1.running| ensures Rank(ts, st1.running[i]) == Rank(st1.threads, st1.running[i]) {
      assert st1.running[i] in st1.running && st1.running[i] in q;
    }
    PeersAlike(st1.running, ts, st1.threads);
  }

  lemma RunFirst(st: State, as_: seq<Action>)
    requires Possible(st, as_) && as_ != []
    ensures Queues(st) && Allowed(st, as_[0]) && RunnableHead(st)
    ensures Possible(Step(st, as_[0]), as_[1..]) && Run(st, as_) == Run(Step(st, as_[0]), as_[1..])
    ensures SteadyRun(st, as_) ==> Steady(st, as_[0]) && SteadyRun(Step(st, as_[0]), as_[1..])
  {
  }

  lemma {:induction false} FrontPossible(st: State, as_: seq<Action>, j: nat)
    requires Possible(st, as_) && j <= |as_|
    ensures Possible(st, as_[..j])
    ensures SteadyRun(st, as_) ==> SteadyRun(st, as_[..j])
    decreases j
  {
    if j > 0 {
      FrontPossible(Step(st, as_[0]), as_[1..], j - 1);
      assert as_[..j][1..] == as_[1..][..j - 1];
    }
  }

  /**
   * Among the threads of the highest priority, as long as none of them waits or finishes and no other thread becomes
   * runnable, each executes one of as many instructions as there are of them: the `j`-th is executed by the `j`-th
   * thread of the queue, and afterwards the queue is as it was.
   */
  lemma RoundRobin(st: State, as_: seq<Action>, j: nat)
    requires Possible(st, as_) && SteadyRun(st, as_) && InOrder(st) && st.running != []
    requires |as_| == Peers(st.running, st.threads) && j < |as_|
    ensures Possible(st, as_[..j]) && Run(st, as_[..j]).running != []
    ensures Run(st, as_[..j]).running[0] == st.running[j]
    ensures Run(st, as_).running == st.running
  {
    var k := |as_|;
    assert |as_[..j]| == j;
    hide After, InOrder, Peers, Possible, Run, SteadyRun;
    FrontPossible(st, as_, j);
    AfterTurns(st, as_[..j]);
    AfterTurns(st, as_);
    AfterFront(st.running, k, j);
  }

  lemma AfterFront(q: seq<nat>, k: nat, j: nat)
    requires j < k <= |q|
    ensures After(q, k, j) != [] && After(q, k, j)[0] == q[j] && After(q, k, k) == q
  {
  }
}
