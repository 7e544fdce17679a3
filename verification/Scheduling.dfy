/** The scheduler as it works: queues, threads and semaphores changed in place. */
module Scheduling {
  import opened Options
  import opened Semaphores

  class Scheduler {
    var running: seq<nat>
    var stopped: seq<nat>
    var threads: seq<Thread>
    var sems: seq<int>
    var suspend: bool      // the running thread is to be suspended in the middle of its instruction

    ghost function Current(): State
      reads this
    {
      State(running, stopped, threads, sems)
    }

    constructor (st: State)
      ensures Current() == st && !suspend
    {
      running, stopped, threads, sems, suspend := st.running, st.stopped, st.threads, st.sems, false;
    }

    /** Put a thread into a queue behind those of the same or a higher priority. */
    method Enqueue(q: seq<nat>, t: nat) returns (r: seq<nat>)
      requires t < |threads| && forall x :: x in q ==> x < |threads|
      ensures r == Insert(q, t, threads)
    {
      var i := 0;
      assert q[..0] + Insert(q[0..], t, threads) == Insert(q, t, threads) by { assert q[0..] == q; }
      hide Insert;
      assert forall j :: 0 <= j < |q| ==> q[j] in q;
      while i < |q| && threads[q[i]].priority >= threads[t].priority
        invariant i <= |q| && forall x :: x in q[i..] ==> x in q
        invariant Insert(q, t, threads) == q[..i] + Insert(q[i..], t, threads)
      {
        ghost var rest := q[i + 1..];
        assert forall x :: x in rest ==> x in q[i..];
        InsertOn(q, rest, i, t, threads);
        i := i + 1;
      }
      InsertHere(q, i, t, threads);
      r := q[..i] + [t] + q[i..];
      assert r == q[..i] + ([t] + q[i..]);
    }

    /** Take a thread out of a queue. */
    method Dequeue(q: seq<nat>, t: nat) returns (r: seq<nat>)
      ensures r == Remove(q, t)
    {
      var i := 0;
      while i < |q| && q[i] != t
        invariant i <= |q| && Remove(q, t) == q[..i] + Remove(q[i..], t)
      {
        RemoveOn(q, i, t);
        i := i + 1;
      }
      if i == |q| {
        r := q;
        assert q[..i] + [] == q;
      } else {
        assert q[i..][0] == q[i] && q[i..][1..] == q[i + 1..];
        r := q[..i] + q[i + 1..];
      }
    }

    method ThreadInsert(t: nat)
      requires Known(Current()) && t < |threads|
      modifies this`running, this`stopped
      ensures running == if threads[t].state == Running then Insert(old(running), t, threads) else old(running)
      ensures stopped == if threads[t].state == Suspended then Insert(old(stopped), t, threads) else old(stopped)
    {
      match threads[t].state
      case Running => running := Enqueue(running, t);
      case Suspended => stopped := Enqueue(stopped, t);
      case Finished =>
    }

    method ThreadRemove(t: nat)
      requires t < |threads|
      modifies this`running, this`stopped
      ensures running == if threads[t].state == Running then Remove(old(running), t) else old(running)
      ensures stopped == if threads[t].state == Suspended then Remove(old(stopped), t) else old(stopped)
    {
      match threads[t].state
      case Running => running := Dequeue(running, t);
      case Suspended => stopped := Dequeue(stopped, t);
      case Finished =>
    }

    method ThreadSetState(t: nat, state: ThreadState)
      requires Known(Current()) && t < |threads|
      modifies this`running, this`stopped, this`threads
      ensures Current() == SetState(old(Current()), t, state)
    {
      if state != threads[t].state {
        ThreadRemove(t);
        threads := threads[t := threads[t].(state := state)];
        ThreadInsert(t);
      }
    }

    method ThreadSleep(t: nat, s: nat, priority: int)
      requires t < |threads|
      modifies this`threads, this`suspend
      ensures suspend && threads == old(threads)[t := old(threads)[t].(priority := priority, sleep := Some(s))]
    {
      threads := threads[t := threads[t].(priority := priority, sleep := Some(s))];
      suspend := true;
    }

    /** Let the other threads of the same priority go first. */
    method ThreadStepped(t: nat)
      requires Known(Current()) && t < |threads| && threads[t].state == Running
      modifies this`running, this`stopped
      ensures Current() == Stepped(old(Current()), t)
    {
      var next := HasNext(t);
      if next {
        ThreadRemove(t);
        ThreadInsert(t);
      }
    }

    /** Whether the thread behind `t` has no lower priority. */
    method HasNext(t: nat) returns (r: bool)
      requires Known(Current()) && t < |threads|
      ensures r == NextIsNoLower(running, t, threads)
    {
      var i := 0;
      while i + 1 < |running| && running[i] != t
        invariant i <= |running| && (i == |running| ==> running == [])
        invariant forall x :: x in running[i..] ==> x in running
        invariant NextIsNoLower(running, t, threads) == NextIsNoLower(running[i..], t, threads)
      {
        assert running[i..][0] == running[i] && running[i..][1..] == running[i + 1..];
        i := i + 1;
      }
      if i + 1 < |running| {
        assert running[i..][0] == running[i] && running[i..][1] == running[i + 1];
        assert running[i + 1] in running;
        return threads[t].priority <= threads[running[i + 1]].priority;
      }
      return false;
    }

    /** Wake the first thread that sleeps on `s`. */
    method ThreadsWakeup(s: nat)
      requires Known(Current())
      modifies this`running, this`stopped, this`threads
      ensures Current() == WakeOne(old(Current()), s)
    {
      var i := 0;
      while i < |stopped|
        invariant i <= |stopped| && Current() == old(Current())
        invariant forall x :: x in stopped[i..] ==> x in stopped
        invariant Sleeper(stopped, threads, s) == Sleeper(stopped[i..], threads, s)
      {
        var t := stopped[i];
        assert stopped[i..][0] == t && stopped[i..][1..] == stopped[i + 1..];
        assert t in stopped;
        if threads[t].state == Suspended && threads[t].sleep == Some(s) {
          threads := threads[t := threads[t].(sleep := None)];
          ThreadSetState(t, Running);
          return;
        }
        i := i + 1;
      }
    }

    /** Wait: `complete` tells whether the instruction has been completed or the thread is to be suspended. */
    method SemaphoreWait(t: nat, s: nat) returns (complete: bool)
      requires t < |threads| && s < |sems| && !suspend
      modifies this`threads, this`sems, this`suspend
      ensures complete == !suspend
      ensures
        if old(threads)[t].partial.Some? then complete && threads == old(threads) && sems == old(sems)
        else
          sems == old(sems)[s := old(sems)[s] - 1] && complete == (sems[s] >= 0) &&
          threads == if complete then old(threads)
                     else old(threads)[t := old(threads)[t].(priority := PrioritySync, sleep := Some(s),
                       partial := Some(s))]
    {
      if threads[t].partial.None? {
        sems := sems[s := sems[s] - 1];
        if sems[s] < 0 {
          threads := threads[t := threads[t].(partial := Some(s))];
          ThreadSleep(t, s, PrioritySync);
          return false;
        }
      }
      return true;
    }

    method SemaphoreTest(t: nat, s: nat) returns (got: bool)
      requires t < |threads| && s < |sems| && !suspend && threads[t].partial == None
      modifies this`threads, this`sems, this`suspend
      ensures !suspend && threads == old(threads) && got == (old(sems)[s] > 0)
      ensures sems == if got then old(sems)[s := old(sems)[s] - 1] else old(sems)
    {
      if sems[s] <= 0 { return false; }
      var complete := SemaphoreWait(t, s);
      return true;
    }

    method SemaphoreSignal(s: nat)
      requires Known(Current()) && s < |sems|
      modifies this`running, this`stopped, this`threads, this`sems
      ensures
        var st1 := old(Current()).(sems := old(sems)[s := old(sems)[s] + 1]);
        Current() == if st1.sems[s] <= 0 then WakeOne(st1, s) else st1
    {
      sems := sems[s := sems[s] + 1];
      if sems[s] <= 0 { ThreadsWakeup(s); }
    }

    /** The first runnable thread executes one instruction. */
    method Execute(a: Action)
      requires Known(Current()) && Allowed(Current(), a) && threads[running[0]].state == Running && !suspend
      modifies this
      ensures Current() == Step(old(Current()), a) && !suspend
    {
      var t := running[0];
      match a {
        case Wait(s) =>
          var complete := SemaphoreWait(t, s);
          if !complete {
            suspend := false;
            ThreadSetState(t, Suspended);
            return;
          }
        case Signal(s) => SemaphoreSignal(s);
        case Test(s) => var got := SemaphoreTest(t, s);
        case Other =>
        case Spawn(p) =>
          threads := threads + [Thread(Running, p, None, None)];
          ThreadInsert(|threads| - 1);
        case Finish =>
          ThreadSetState(t, Finished);
          return;
      }
      if threads[t].state == Running {
        threads := threads[t := threads[t].(partial := None)];
        ThreadStepped(t);
      }
    }
  }

  /** A thread of no lower priority stays in front. */
  lemma InsertOn(q: seq<nat>, rest: seq<nat>, i: nat, t: nat, ts: seq<Thread>)
    requires i < |q| && rest == q[i + 1..] && t < |ts| && q[i] < |ts| && ts[q[i]].priority >= ts[t].priority
    requires (forall x :: x in q[i..] ==> x < |ts|) && (forall x :: x in rest ==> x < |ts|)
    ensures q[..i] + Insert(q[i..], t, ts) == q[..i + 1] + Insert(rest, t, ts)
  {
    assert q[i..][0] == q[i] && q[i..][1..] == rest;
    var r := Insert(rest, t, ts);
    assert q[..i] + ([q[i]] + r) == q[..i + 1] + r;
  }

  /** Here the thread goes in. */
  lemma InsertHere(q: seq<nat>, i: nat, t: nat, ts: seq<Thread>)
    requires i <= |q| && t < |ts| && (forall x :: x in q[i..] ==> x < |ts|)
    requires i < |q| ==> q[i] < |ts| && ts[q[i]].priority < ts[t].priority
    ensures Insert(q[i..], t, ts) == [t] + q[i..]
  {
    if i < |q| { assert q[i..][0] == q[i]; }
  }

  /** Another thread stays in front. */
  lemma RemoveOn(q: seq<nat>, i: nat, t: nat)
    requires i < |q| && q[i] != t
    ensures q[..i] + Remove(q[i..], t) == q[..i + 1] + Remove(q[i + 1..], t)
  {
    assert q[i..][0] == q[i] && q[i..][1..] == q[i + 1..];
    var r := Remove(q[i + 1..], t);
    assert q[..i] + ([q[i]] + r) == q[..i + 1] + r;
  }
}
