/** Monitors with their two queues (thread.c), as far as the threads that initialize classes see them. */
module ClassMonitors {

  import opened Options

  /** A queued thread, and how often it will have entered the monitor when it gets it. */
  datatype Waiter = Waiter(thread: nat, depth: nat)

  /** The owner, the threads that wait for the monitor (monitor_waitq) and for a notification (condvar_waitq). */
  datatype Monitor = Monitor(owner: Option<nat>, depth: nat, entry: seq<Waiter>, waiting: seq<Waiter>) {
    /** OBJECT_HAS_MONITOR: a monitor without owner and without queues is given back. */
    predicate Exists() {
      owner.Some? || entry != [] || waiting != []
    }

    /** The thread would have to wait if it entered. */
    predicate IsForeign(t: nat) {
      owner.Some? && owner != Some(t)
    }

    /** monitorEnter */
    function Enter(t: nat): Monitor {
      if owner.None? then this.(owner := Some(t), depth := 1)
      else if owner == Some(t) then this.(depth := depth + 1)
      else this.(entry := entry + [Waiter(t, 1)])
    }

    /** removeMonitorWait: the thread that has waited longest becomes the owner. */
    function PassOn(): Monitor {
      if entry == [] then this.(owner := None, depth := 0)
      else this.(owner := Some(entry[0].thread), depth := entry[0].depth, entry := entry[1..])
    }

    /** monitorExit, for the owner */
    function Exit(): Monitor {
      if depth <= 1 then PassOn() else this.(depth := depth - 1)
    }

    /** monitorWait, for the owner */
    function Wait(t: nat): Monitor {
      this.(waiting := waiting + [Waiter(t, depth)]).PassOn()
    }

    /** monitorNotify, for the owner */
    function Notify(all: bool): Monitor {
      if waiting == [] then this
      else if all then this.(entry := entry + waiting, waiting := [])
      else this.(entry := entry + [waiting[0]], waiting := waiting[1..])
    }

    /** Wakes everybody up: enter, notify and exit, by a thread that need not wait. */
    function WakeAll(t: nat): Monitor {
      Enter(t).Notify(true).Exit()
    }

    /** interruptThread, for the thread at position i of those that wait for a notification. */
    function Interrupt(i: nat): Monitor
      requires i < |waiting|
    {
      var m := this.(waiting := waiting[..i] + waiting[i + 1..], entry := entry + [waiting[i]]);
      if owner.None? then m.PassOn() else m
    }

    predicate HasEntry(t: nat) {
      exists i :: 0 <= i < |entry| && entry[i].thread == t
    }

    predicate IsWaiting(t: nat) {
      exists i :: 0 <= i < |waiting| && waiting[i].thread == t
    }

    predicate IsQueued(t: nat) {
      HasEntry(t) || IsWaiting(t)
    }

    /** Only monitors in use have threads that wait for them; no thread is queued twice, or while it is the owner. */
    ghost predicate Valid() {
      && (owner.None? ==> entry == [])
      && (owner.Some? ==> depth >= 1 && !IsQueued(owner.value))
      && (forall i, j | 0 <= i < j < |entry| :: entry[i].thread != entry[j].thread)
      && (forall i, j | 0 <= i < j < |waiting| :: waiting[i].thread != waiting[j].thread)
      && (forall i, j | 0 <= i < |entry| && 0 <= j < |waiting| :: entry[i].thread != waiting[j].thread)
      && (forall i | 0 <= i < |entry| :: entry[i].depth >= 1)
      && (forall i | 0 <= i < |waiting| :: waiting[i].depth >= 1)
    }
  }

  const NO_MONITOR := Monitor(None, 0, [], [])

  lemma EnterFacts(m: Monitor, t: nat)
    requires m.Valid() && !m.IsQueued(t)
    ensures var m' := m.Enter(t);
            && m'.Valid() && m'.Exists() && m'.waiting == m.waiting
            && (m.IsForeign(t) ==> m'.HasEntry(t) && m'.owner == m.owner)
            && (!m.IsForeign(t) ==> m'.owner == Some(t) && m'.entry == m.entry)
            && (forall u: nat | u != t :: m'.HasEntry(u) <==> m.HasEntry(u))
  {
    var m' := m.Enter(t);
    if m.IsForeign(t) {
      assert m'.entry[|m.entry|].thread == t;
      forall u: nat | m.HasEntry(u)
        ensures m'.HasEntry(u)
      {
        var i :| 0 <= i < |m.entry| && m.entry[i].thread == u;
        assert m'.entry[i] == m.entry[i];
      }
    }
  }

  lemma PassOnFacts(m: Monitor)
    requires m.(owner := None, entry := []).Valid()
    requires forall i, j | 0 <= i < j < |m.entry| :: m.entry[i].thread != m.entry[j].thread
    requires forall i, j | 0 <= i < |m.entry| && 0 <= j < |m.waiting| :: m.entry[i].thread != m.waiting[j].thread
    requires forall i | 0 <= i < |m.entry| :: m.entry[i].depth >= 1
    ensures var m' := m.PassOn();
            && m'.Valid() && m'.waiting == m.waiting
            && (forall u: nat | m'.owner == Some(u) :: m.HasEntry(u))
            && (forall u: nat :: m'.HasEntry(u) <==> m.HasEntry(u) && m'.owner != Some(u))
  {
    var m' := m.PassOn();
    if m.entry != [] {
      assert m.entry[0].thread == m'.owner.value;
      forall u: nat | m.HasEntry(u) && m'.owner != Some(u)
        ensures m'.HasEntry(u)
      {
        var i :| 0 <= i < |m.entry| && m.entry[i].thread == u;
        assert m'.entry[i - 1] == m.entry[i];
      }
    }
  }

  lemma ExitFacts(m: Monitor)
    requires m.Valid() && m.owner.Some?
    ensures var m' := m.Exit();
            && m'.Valid() && m'.waiting == m.waiting
            && (forall u: nat | m'.owner == Some(u) && m.owner != Some(u) :: m.HasEntry(u))
            && (forall u: nat :: m'.HasEntry(u) <==> m.HasEntry(u) && m'.owner != Some(u))
            && (m'.owner == m.owner || (forall u: nat | m.owner == Some(u) :: !m'.IsQueued(u)))
  {
    if m.depth <= 1 {
      PassOnFacts(m);
    }
  }

  lemma WaitFacts(m: Monitor, t: nat)
    requires m.Valid() && m.owner == Some(t)
    ensures var m' := m.Wait(t);
            && m'.Valid() && m'.IsWaiting(t) && m'.owner != Some(t)
            && (forall u: nat | m'.owner == Some(u) :: m.HasEntry(u))
            && (forall u: nat :: m'.HasEntry(u) <==> m.HasEntry(u) && m'.owner != Some(u))
            && (forall u: nat | u != t :: m'.IsWaiting(u) <==> m.IsWaiting(u))
  {
    var m1 := m.(waiting := m.waiting + [Waiter(t, m.depth)]);
    assert m1.waiting[|m.waiting|].thread == t;
    forall u: nat | m.IsWaiting(u)
      ensures m1.IsWaiting(u)
    {
      var i :| 0 <= i < |m.waiting| && m.waiting[i].thread == u;
      assert m1.waiting[i] == m.waiting[i];
    }
    PassOnFacts(m1);
  }

  lemma NotifyFacts(m: Monitor, all: bool)
    requires m.Valid() && m.owner.Some?
    ensures var m' := m.Notify(all);
            && m'.Valid() && m'.owner == m.owner && m'.depth == m.depth
            && (forall u: nat :: m'.IsQueued(u) <==> m.IsQueued(u))
            && (forall u: nat :: m'.IsWaiting(u) ==> m.IsWaiting(u))
            && (all ==> m'.waiting == [])
  {
    var m' := m.Notify(all);
    forall u: nat | m.IsQueued(u)
      ensures m'.IsQueued(u)
    {
      if i :| 0 <= i < |m.entry| && m.entry[i].thread == u {
        assert m'.entry[i] == m.entry[i];
      } else {
        var i :| 0 <= i < |m.waiting| && m.waiting[i].thread == u;
        if all {
          assert m'.entry[|m.entry| + i] == m.waiting[i];
        } else if i == 0 {
          assert m'.entry[|m.entry|] == m.waiting[0];
        } else {
          assert m'.waiting[i - 1] == m.waiting[i];
        }
      }
    }
  }

  /** Whoever waited for a notification waits for the monitor then, or has it. */
  lemma WakeAllFacts(m: Monitor, t: nat)
    requires m.Valid() && !m.IsQueued(t) && !m.IsForeign(t)
    ensures var m' := m.WakeAll(t);
            && m'.Valid() && m'.waiting == [] && !m'.IsQueued(t)
            && (forall u: nat | m'.owner == Some(u) && u != t :: m.IsQueued(u))
            && (forall u: nat :: m'.IsQueued(u) <==> m.IsQueued(u) && m'.owner != Some(u))
  {
    EnterFacts(m, t);
    var m1 := m.Enter(t);
    NotifyFacts(m1, true);
    var m2 := m1.Notify(true);
    ExitFacts(m2);
    hide Monitor.HasEntry, Monitor.Valid, Monitor.Enter, Monitor.Notify, Monitor.Exit;
    forall u: nat
      ensures m.WakeAll(t).IsQueued(u) <==> m.IsQueued(u) && m.WakeAll(t).owner != Some(u)
    {
      assert m1.IsQueued(u) <==> m.IsQueued(u);
      assert m2.IsQueued(u) <==> m2.HasEntry(u);
    }
  }

  /** The queues after an interrupt, before the monitor is passed on. */
  lemma Requeued(m: Monitor, i: nat)
    requires m.Valid() && i < |m.waiting|
    ensures var t := m.waiting[i].thread;
            var m' := m.(waiting := m.waiting[..i] + m.waiting[i + 1..], entry := m.entry + [m.waiting[i]]);
            && m'.HasEntry(t) && !m'.IsWaiting(t)
            && (forall u: nat | u != t :: m'.IsWaiting(u) <==> m.IsWaiting(u))
            && (forall u: nat | u != t :: m'.HasEntry(u) <==> m.HasEntry(u))
  {
    hide Monitor.PassOn;
    var m' := m.(waiting := m.waiting[..i] + m.waiting[i + 1..], entry := m.entry + [m.waiting[i]]);
    assert m'.entry[|m.entry|] == m.waiting[i];
    forall u: nat | m.HasEntry(u)
      ensures m'.HasEntry(u)
    {
      var k :| 0 <= k < |m.entry| && m.entry[k].thread == u;
      assert m'.entry[k] == m.entry[k];
    }
    forall u: nat | m.IsWaiting(u) && u != m.waiting[i].thread
      ensures m'.IsWaiting(u)
    {
      var k :| 0 <= k < |m.waiting| && m.waiting[k].thread == u;
      assert m'.waiting[if k < i then k else k - 1] == m.waiting[k];
    }
  }

  lemma InterruptFacts(m: Monitor, i: nat)
    requires m.Valid() && i < |m.waiting|
    ensures var t, m' := m.waiting[i].thread, m.Interrupt(i);
            && m'.Valid() && !m'.IsWaiting(t) && (m'.HasEntry(t) <==> m'.owner != Some(t))
            && (forall u: nat | u != t :: m'.IsWaiting(u) <==> m.IsWaiting(u))
            && (forall u: nat | u != t :: m'.HasEntry(u) <==> m.HasEntry(u))
            && (m'.owner == m.owner || m'.owner == Some(t))
  {
    Requeued(m, i);
    hide Monitor.HasEntry, Monitor.IsWaiting;
    var m1 := m.(waiting := m.waiting[..i] + m.waiting[i + 1..], entry := m.entry + [m.waiting[i]]);
    assert m.IsWaiting(m.waiting[i].thread) by {
      WaitsAt(m, i);
    }
    if m.owner.None? {
      PassOnFacts(m1);
    }
  }

  lemma WaitsAt(m: Monitor, i: nat)
    requires i < |m.waiting|
    ensures m.IsWaiting(m.waiting[i].thread)
  {
  }

  /** The same operations in place. */
  class MonitorObject {
    var owner: Option<nat>
    var depth: nat
    var monitorWaitq: seq<Waiter>
    var condvarWaitq: seq<Waiter>

    ghost function Now(): Monitor
      reads this
    {
      Monitor(owner, depth, monitorWaitq, condvarWaitq)
    }

    constructor ()
      ensures Now() == NO_MONITOR
    {
      owner, depth, monitorWaitq, condvarWaitq := None, 0, [], [];
    }

    method AddMonitorWait(waiter: Waiter)
      modifies this
      ensures Now() == (var m := old(Now()).(entry := old(monitorWaitq) + [waiter]);
                        if old(owner).None? then m.PassOn() else m)
    {
      monitorWaitq := monitorWaitq + [waiter];
      if owner == None {
        RemoveMonitorWait();
      }
    }

    method RemoveMonitorWait()
      modifies this
      ensures Now() == old(Now()).PassOn()
    {
      if monitorWaitq != [] {
        owner, depth, monitorWaitq := Some(monitorWaitq[0].thread), monitorWaitq[0].depth, monitorWaitq[1..];
      } else {
        owner, depth := None, 0;
      }
    }

    /** Whether the thread owns the monitor now, or has been queued. */
    method MonitorEnter(t: nat) returns (owns: bool)
      modifies this
      ensures Now() == old(Now()).Enter(t) && owns == !old(Now()).IsForeign(t)
    {
      if owner == None {
        owner, depth := Some(t), 1;
        return true;
      } else if owner == Some(t) {
        depth := depth + 1;
        return true;
      }
      AddMonitorWait(Waiter(t, 1));
      return false;
    }

    /** FALSE is the exception for a thread that is not the owner. */
    method MonitorExit(t: nat) returns (ok: bool)
      requires owner == Some(t) ==> depth >= 1
      modifies this
      ensures ok == (old(owner) == Some(t)) && Now() == if ok then old(Now()).Exit() else old(Now())
    {
      if owner != Some(t) {
        return false;
      }
      depth := depth - 1;
      if depth == 0 {
        RemoveMonitorWait();
      }
      return true;
    }

    method MonitorWait(t: nat) returns (ok: bool)
      modifies this
      ensures ok == (old(owner) == Some(t)) && Now() == if ok then old(Now()).Wait(t) else old(Now())
    {
      if owner != Some(t) {
        return false;
      }
      condvarWaitq := condvarWaitq + [Waiter(t, depth)];
      RemoveMonitorWait();
      return true;
    }

    /** The loop of removeCondvarWait. */
    method MonitorNotify(t: nat, notifyAll: bool) returns (ok: bool)
      modifies this
      ensures ok == (old(owner) == Some(t)) && Now() == if ok then old(Now()).Notify(notifyAll) else old(Now())
    {
      if owner != Some(t) {
        return false;
      }
      ghost var m := Now();
      var first := true;
      while (first || notifyAll) && condvarWaitq != []
        invariant owner == m.owner == Some(t) && depth == m.depth
        invariant notifyAll ==> monitorWaitq + condvarWaitq == m.entry + m.waiting
        invariant !notifyAll && first ==> Now() == m
        invariant !notifyAll && !first ==> m.waiting != [] && Now() == m.Notify(false)
        decreases |condvarWaitq|
      {
        var waiter := condvarWaitq[0];
        condvarWaitq := condvarWaitq[1..];
        AddMonitorWait(waiter);
        first := false;
      }
      if notifyAll {
        assert monitorWaitq == m.entry + m.waiting;
      }
      return true;
    }
  }
}
