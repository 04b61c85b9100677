/** Round-robin selection over the process list, one thread per process, on one CPU (src/sched/sched.c). */
module RoundRobin {
  import opened Requests

  type Signals = nat -> Signal

  /** How far the scan goes from `c` to reach position `j` of a ring of `n`. */
  function Offset(n: nat, c: nat, j: nat): nat
    requires c < n && j < n
  {
    if c <= j then j - c else j + n - c
  }

  /** The scan starts at the current process, or at the first one if nothing has run yet. */
  function Origin(current: int): nat {
    if current < 0 then 0 else current
  }

  /** Ready to run, and no pending signal kills the thread when the scheduler looks at it. */
  ghost predicate Survivor(s: seq<Thread>, signals: Signals, j: nat)
    requires j < |s|
  {
    s[j].status.Queued? && !Strikes(s[j], signals(j))
  }

  ghost predicate AnyQueued(s: seq<Thread>) {
    exists j :: 0 <= j < |s| && s[j].status.Queued?
  }

  /** The current thread gave way to threads that all died, and is found again at the end of the scan. */
  ghost predicate Returns(s: seq<Thread>, current: int, signals: Signals)
    requires current < |s|
  {
    && 0 <= current && s[current].status.Running? && AnyQueued(s) && !Strikes(s[current], signals(current))
    && forall j :: 0 <= j < |s| ==> !Survivor(s, signals, j)
  }

  /** The thread switched to: the first survivor in ring order, else the current thread itself. */
  ghost predicate Chosen(s: seq<Thread>, current: int, signals: Signals, next: nat)
    requires current < |s| && next < |s|
  {
    || (&& Survivor(s, signals, next)
        && forall j :: 0 <= j < |s| && Offset(|s|, Origin(current), j) < Offset(|s|, Origin(current), next)
             ==> !Survivor(s, signals, j))
    || (next == current && Returns(s, current, signals))
  }

  /** A ready thread was passed over, which only happens to threads that died. */
  ghost predicate Passed(s: seq<Thread>, current: int, next: int, j: nat)
    requires current < |s| && next < |s| && j < |s|
  {
    next < 0 || !s[next].status.Queued? || Offset(|s|, Origin(current), j) < Offset(|s|, Origin(current), next)
  }

  ghost function StatusAfter(s: seq<Thread>, current: int, next: int, j: nat): Status
    requires current < |s| && next < |s| && j < |s|
  {
    if j == next then Running
    else if s[j].status.Queued? then (if Passed(s, current, next, j) then Zombie else Queued)
    else if j == current && s[j].status.Running? && AnyQueued(s) then (if next < 0 then Zombie else Queued)
    else s[j].status
  }

  /** The scan looked at the thread as a candidate: a ready one, or the current one found again at the end. */
  ghost predicate LookedAt(s: seq<Thread>, current: int, next: int, j: nat)
    requires current < |s| && next < |s| && j < |s|
  {
    || (s[j].status.Queued? && (j == next || Passed(s, current, next, j)))
    || (j == current && s[j].status.Running? && AnyQueued(s) && (next < 0 || next == current))
  }

  /** The whole record: a thread looked at had a pending signal taken, and nothing else but the status changed. */
  ghost function RecordAfter(s: seq<Thread>, current: int, signals: Signals, next: int, j: nat): Thread
    requires current < |s| && next < |s| && j < |s|
  {
    (if LookedAt(s, current, next, j) then Signalled(s[j], signals(j)) else s[j]).(status := StatusAfter(s, current, next, j))
  }

  ghost predicate SwitchStep(s: seq<Thread>, current: int, signals: Signals, next: int, s': seq<Thread>)
    requires current < |s|
  {
    && |s'| == |s| && next < |s|
    && (if next < 0 then (forall j :: 0 <= j < |s| ==> !Survivor(s, signals, j)) && !Returns(s, current, signals)
        else Chosen(s, current, signals, next))
    && forall j :: 0 <= j < |s| ==> s'[j] == RecordAfter(s, current, signals, next, j)
  }

  /** What the scan has established after looking at `k` places. */
  ghost predicate Scan(s: seq<Thread>, current: int, signals: Signals, k: nat, a: seq<Thread>)
    requires current < |s| && s != []
  {
    && |a| == |s|
    && (forall j :: 0 <= j < |s| && Offset(|s|, Origin(current), j) < k && s[j].status.Queued?
          ==> Strikes(s[j], signals(j)) && a[j] == Signalled(s[j], signals(j)))
    && (forall j :: 0 <= j < |s| && (Offset(|s|, Origin(current), j) >= k || !s[j].status.Queued?) && j != current
          ==> a[j] == s[j])
    && (0 <= current && !(s[current].status.Queued? && 0 < k) ==> CurrentIs(s, current, signals, k, a))
  }

  ghost predicate SeenQueued(s: seq<Thread>, current: int, k: nat)
    requires current < |s|
  {
    exists j :: 0 <= j < |s| && Offset(|s|, Origin(current), j) < k && s[j].status.Queued?
  }

  ghost predicate CurrentIs(s: seq<Thread>, current: int, signals: Signals, k: nat, a: seq<Thread>)
    requires 0 <= current < |s| == |a|
  {
    if s[current].status.Running? && SeenQueued(s, current, k) then
      if k <= |s| then a[current] == s[current].(status := Queued)
      else Strikes(s[current], signals(current)) && a[current] == Signalled(s[current], signals(current))
    else a[current] == s[current]
  }

  /** Position `i` is the one looked at after `k` others; beyond `n` the scan looks a second time. */
  ghost predicate Looks(n: nat, current: int, k: nat, i: nat)
    requires current < n
  {
    i < n && Offset(n, Origin(current), i) == if k < n then k else k - n
  }

  lemma LooksSkips(s: seq<Thread>, current: int, signals: Signals, k: nat, i: nat, a: seq<Thread>)
    requires current < |s| && s != [] && Scan(s, current, signals, k, a) && Looks(|s|, current, k, i)
    requires !a[i].status.Queued?
    ensures Scan(s, current, signals, k + 1, a)
  {
    LookOnce(|s|, current, k, i);
    assert s[i].status.Queued? || SeenQueued(s, current, k + 1) == SeenQueued(s, current, k);
  }

  lemma LookOnce(n: nat, current: int, k: nat, i: nat)
    requires current < n && Looks(n, current, k, i)
    ensures forall j :: 0 <= j < n && Offset(n, Origin(current), j) < k + 1 ==>
              j == i || Offset(n, Origin(current), j) < k
  {
  }

  /** The current thread makes room as soon as a ready thread is found. */
  function Yielded(a: seq<Thread>, current: int): seq<Thread>
    requires current < |a|
  {
    if 0 <= current && a[current].status.Running? then a[current := a[current].(status := Queued)] else a
  }

  lemma LooksKills(s: seq<Thread>, current: int, signals: Signals, k: nat, i: nat, a: seq<Thread>, b: seq<Thread>)
    requires current < |s| && s != [] && Scan(s, current, signals, k, a) && Looks(|s|, current, k, i)
    requires a[i].status.Queued? && Strikes(a[i], signals(i))
    requires |b| == |s| && b[i] == Signalled(Yielded(a, current)[i], signals(i))
    requires forall j :: 0 <= j < |s| && j != i ==> b[j] == Yielded(a, current)[j]
    ensures Scan(s, current, signals, k + 1, b)
  {
  }

  /** The thread as the scan found it when it picks it. */
  ghost predicate Found(s: seq<Thread>, current: int, signals: Signals, i: nat, x: Thread)
    requires current < |s| && i < |s|
  {
    (s[i].status.Queued? && x == s[i]) || (i == current && Returns(s, current, signals) && x == s[i].(status := Queued))
  }

  lemma PicksFirst(s: seq<Thread>, current: int, signals: Signals, k: nat, i: nat, a: seq<Thread>)
    requires current < |s| && s != [] && Scan(s, current, signals, k, a) && Looks(|s|, current, k, i)
    requires a[i].status.Queued? && !Strikes(a[i], signals(i))
    ensures Chosen(s, current, signals, i) && Found(s, current, signals, i, a[i])
  {
  }

  lemma PickedItself(s: seq<Thread>, current: int, signals: Signals, i: nat, x: Thread)
    requires current < |s| && i < |s| && Found(s, current, signals, i, x)
    ensures Signalled(x, signals(i)).(status := Running) == RecordAfter(s, current, signals, i, i)
  {
    assert LookedAt(s, current, i, i) && StatusAfter(s, current, i, i) == Running;
    SignalIgnoresStatus(s[i], x, signals(i));
  }

  lemma SignalIgnoresStatus(a: Thread, b: Thread, signal: Signal)
    requires b == a || b == a.(status := Queued)
    ensures Signalled(b, signal).(status := Running) == Signalled(a, signal).(status := Running)
  {
  }

  lemma PickedOther(s: seq<Thread>, current: int, signals: Signals, k: nat, i: nat, a: seq<Thread>, j: nat)
    requires current < |s| && s != [] && Scan(s, current, signals, k, a) && Looks(|s|, current, k, i)
    requires a[i].status.Queued? && !Strikes(a[i], signals(i)) && j < |s| && j != i
    ensures Yielded(a, current)[j] == RecordAfter(s, current, signals, i, j)
  {
    PicksFirst(s, current, signals, k, i, a);
    assert s[i].status.Queued? ==> AnyQueued(s);
  }

  lemma LooksPicks(s: seq<Thread>, current: int, signals: Signals, k: nat, i: nat, a: seq<Thread>, b: seq<Thread>)
    requires current < |s| && s != [] && Scan(s, current, signals, k, a) && Looks(|s|, current, k, i)
    requires a[i].status.Queued? && !Strikes(a[i], signals(i))
    requires |b| == |s| && b[i] == Signalled(Yielded(a, current)[i], signals(i)).(status := Running)
    requires forall j :: 0 <= j < |s| && j != i ==> b[j] == Yielded(a, current)[j]
    ensures SwitchStep(s, current, signals, i, b)
  {
    PicksFirst(s, current, signals, k, i, a);
    forall j | 0 <= j < |s|
      ensures b[j] == RecordAfter(s, current, signals, i, j)
    {
      if j == i {
        assert Yielded(a, current)[i] == a[i];
        PickedItself(s, current, signals, i, a[i]);
      } else {
        PickedOther(s, current, signals, k, i, a, j);
      }
    }
  }

  lemma ScanEnds(s: seq<Thread>, current: int, signals: Signals, k: nat, a: seq<Thread>)
    requires current < |s| && s != [] && Scan(s, current, signals, k, a) && |s| < k
    ensures SwitchStep(s, current, signals, -1, a)
  {
    assert SeenQueued(s, current, k) == AnyQueued(s);
  }
}

/** Fairness over whole runs of the scheduler. */
module SchedulerRuns {
  import opened Requests
  import opened RoundRobin

  /** A context switch: the ring as schedule() found it, the thread that was running, and the thread it chose. */
  datatype Switch = Switch(ring: seq<Thread>, current: nat, signals: Signals, next: int, after: seq<Thread>)

  /**
   Switches over a process list of `n`. Between two switches threads may block, wake up or die; the thread
   chosen by one is the current thread of the next, and is no longer marked as waiting to run.
   */
  ghost predicate Run(n: nat, run: seq<Switch>) {
    && (forall i :: 0 <= i < |run| ==> Switches(n, run[i]))
    && (forall i :: 0 < i < |run| ==> run[i].current == run[i - 1].next)
  }

  ghost predicate Switches(n: nat, x: Switch) {
    && |x.ring| == n && x.current < n && !x.ring[x.current].status.Queued?
    && SwitchStep(x.ring, x.current, x.signals, x.next, x.after)
  }

  /** The thread waits to run at every switch, and no signal kills it. */
  ghost predicate Waits(n: nat, run: seq<Switch>, t: nat)
    requires Run(n, run) && t < n
  {
    forall i :: 0 <= i < |run| ==> Switches(n, run[i]) && Survivor(run[i].ring, run[i].signals, t)
  }

  /** One switch runs the waiting thread, or brings the scan strictly closer to it. */
  lemma Closer(n: nat, x: Switch, t: nat)
    requires t < n && Switches(n, x) && Survivor(x.ring, x.signals, t)
    ensures 0 <= x.next < n
    ensures x.next != t ==> Offset(n, x.next, t) < Offset(n, x.current, t)
    ensures x.next == t <==> x.after[t].status.Running?
  {
  }

  lemma {:induction false} Approaches(n: nat, run: seq<Switch>, t: nat, i: nat)
    requires t < n && Run(n, run) && Waits(n, run, t) && i < |run|
    requires forall j :: 0 <= j < i ==> run[j].next != t
    ensures Offset(n, run[i].current, t) + i < n
  {
    if i != 0 {
      Approaches(n, run, t, i - 1);
      Closer(n, run[i - 1], t);
    }
  }

  /** A thread that keeps waiting is run within as many switches as there are processes. */
  lemma Fair(n: nat, run: seq<Switch>, t: nat)
    requires t < n && Run(n, run) && Waits(n, run, t) && n <= |run|
    ensures exists i :: 0 <= i < n && run[i].next == t && run[i].after[t].status.Running?
  {
    if forall i :: 0 <= i < n ==> run[i].next != t {
      Approaches(n, run, t, n - 1);
      assert false;
    }
    var i :| 0 <= i < n && run[i].next == t;
    Closer(n, run[i], t);
  }

  /** The current thread, unless it waits itself, is chosen again only when no other ready thread survives. */
  lemma StrictlyAfter(s: seq<Thread>, current: nat, signals: Signals, next: nat, s': seq<Thread>)
    requires current < |s| && !s[current].status.Queued? && SwitchStep(s, current, signals, next, s')
    ensures next == current <==> forall j :: 0 <= j < |s| ==> !Survivor(s, signals, j)
    ensures next != current ==> 0 < Offset(|s|, current, next)
  {
  }
}

module Scheduler {
  import opened Requests
  import opened RoundRobin

  class Ring {
    const threads: array<Thread>

    constructor (threads: array<Thread>)
      ensures this.threads == threads
    {
      this.threads := threads;
    }

    /** signalHandle as far as it decides between life and death */
    method SignalHandle(i: nat, signal: Signal)
      requires i < threads.Length
      modifies threads
      ensures forall j :: 0 <= j < threads.Length && j != i ==> threads[j] == old(threads[j])
      ensures threads[i] == Signalled(old(threads[i]), signal)
    {
      if threads[i].handling || threads[i].pending == 0 {
        return;
      }
      threads[i] := threads[i].(pending := threads[i].pending - 1);
      match signal
      case Ignored =>
      case Fatal => threads[i] := threads[i].(status := Zombie);
      case Caught => threads[i] := threads[i].(handling := true);
    }

    /** One iteration of the scan. */
    method Look(current: int, signals: Signals, i: nat, ghost s: seq<Thread>, ghost k: nat) returns (found: bool)
      requires current < threads.Length && i < threads.Length && |s| == threads.Length
      requires Scan(s, current, signals, k, threads[..]) && Looks(|s|, current, k, i)
      modifies threads
      ensures found ==> SwitchStep(s, current, signals, i, threads[..])
      ensures !found ==> Scan(s, current, signals, k + 1, threads[..])
    {
      ghost var a := threads[..];
      if !threads[i].status.Queued? {
        LooksSkips(s, current, signals, k, i, a);
        return false;
      }
      if 0 <= current && threads[current].status.Running? {
        threads[current] := threads[current].(status := Queued);
      }
      SignalHandle(i, signals(i));
      if !threads[i].status.Queued? {
        LooksKills(s, current, signals, k, i, a, threads[..]);
        return false;
      }
      threads[i] := threads[i].(status := Running);
      LooksPicks(s, current, signals, k, i, a, threads[..]);
      return true;
    }

    /** schedule: `current` is the thread of this CPU or -1; -1 is returned when there is nothing to switch to. */
    method Schedule(current: int, signals: Signals) returns (next: int)
      requires current < threads.Length && 0 < threads.Length
      modifies threads
      ensures SwitchStep(old(threads[..]), current, signals, next, threads[..])
    {
      ghost var s := threads[..];
      var i, rounds := if current < 0 then 0 else current, 0;
      ghost var k := 0;
      while rounds < 2
        invariant 0 <= rounds <= 2 && 0 <= i < |s| && (rounds == 2 ==> i == 0)
        invariant i == Origin(current) + k - rounds * |s|
        invariant Scan(s, current, signals, k, threads[..])
        decreases 2 * |s| - Origin(current) - k
      {
        assert rounds == 1 ==> i == Origin(current) + k - |s|;
        var found := Look(current, signals, i, s, k);
        if found {
          return i;
        }
        i := i + 1;
        k := k + 1;
        if i == threads.Length {
          i := 0;
          rounds := rounds + 1;
        }
      }
      ScanEnds(s, current, signals, k, threads[..]);
      return -1;
    }
  }
}
