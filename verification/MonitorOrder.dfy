/** Threads get a monitor in the order in which they have begun to wait for it, and as deep as they have entered it. */
module MonitorOrder {
  import opened ClassMonitors
  import opened Options

  /** How deep the thread has entered the monitor, or will have when it gets it. */
  ghost predicate HasDepth(m: Monitor, t: nat, depth: nat) {
    (m.owner == Some(t) && m.depth == depth) || Waiter(t, depth) in m.entry || Waiter(t, depth) in m.waiting
  }

  /** The first thread waits for the monitor, and has begun to do so before the second one. */
  ghost predicate IsAhead(m: Monitor, t: nat, u: nat) {
    exists i, j :: 0 <= i < j < |m.entry| && m.entry[i].thread == t && m.entry[j].thread == u
  }

  /** The same for a notification. */
  ghost predicate WaitsAhead(m: Monitor, t: nat, u: nat) {
    exists i, j :: 0 <= i < j < |m.waiting| && m.waiting[i].thread == t && m.waiting[j].thread == u
  }

  lemma PassOnInOrder(m: Monitor, t: nat, u: nat)
    requires IsAhead(m, t, u)
    ensures m.PassOn().owner == Some(t) || IsAhead(m.PassOn(), t, u)
  {
    var m' := m.PassOn();
    var i, j :| 0 <= i < j < |m.entry| && m.entry[i].thread == t && m.entry[j].thread == u;
    if i > 0 {
      assert m'.entry[i - 1].thread == t && m'.entry[j - 1].thread == u;
    }
  }

  lemma PassOnKeepsDepth(m: Monitor, t: nat, depth: nat)
    requires Waiter(t, depth) in m.entry || Waiter(t, depth) in m.waiting
    ensures HasDepth(m.PassOn(), t, depth)
  {
    if Waiter(t, depth) in m.entry {
      var i :| 0 <= i < |m.entry| && m.entry[i] == Waiter(t, depth);
      if i > 0 {
        assert m.PassOn().entry[i - 1] == Waiter(t, depth);
      }
    }
  }

  /** A thread that waits at the end of the queue is behind all others. */
  lemma QueuedLast(m: Monitor, waiter: Waiter, t: nat, u: nat)
    requires IsAhead(m, t, u)
    ensures IsAhead(m.(entry := m.entry + [waiter]), t, u)
  {
    var longer := m.(entry := m.entry + [waiter]);
    var i, j :| 0 <= i < j < |m.entry| && m.entry[i].thread == t && m.entry[j].thread == u;
    assert longer.entry[i].thread == t && longer.entry[j].thread == u;
  }

  /** A thread that enters is behind all that wait already, and changes nothing for them. */
  lemma EnterInOrder(m: Monitor, t: nat, u: nat, v: nat)
    requires m.Valid() && !m.IsQueued(t)
    ensures IsAhead(m, u, v) ==> IsAhead(m.Enter(t), u, v)
    ensures m.IsForeign(t) && m.HasEntry(u) ==> IsAhead(m.Enter(t), u, t)
    ensures WaitsAhead(m, u, v) ==> WaitsAhead(m.Enter(t), u, v)
    ensures forall depth: nat | u != t && HasDepth(m, u, depth) :: HasDepth(m.Enter(t), u, depth)
  {
    var m' := m.Enter(t);
    if IsAhead(m, u, v) {
      QueuedLast(m, Waiter(t, 1), u, v);
    }
    if m.IsForeign(t) && m.HasEntry(u) {
      var i :| 0 <= i < |m.entry| && m.entry[i].thread == u;
      assert m'.entry[i].thread == u && m'.entry[|m.entry|].thread == t;
    }
  }

  /** Nobody is overtaken when the owner leaves the monitor, and the depth of the others stays. */
  lemma ExitInOrder(m: Monitor, t: nat, u: nat)
    requires m.Valid() && m.owner.Some?
    ensures IsAhead(m, t, u) ==> m.Exit().owner == Some(t) || IsAhead(m.Exit(), t, u)
    ensures WaitsAhead(m, t, u) ==> WaitsAhead(m.Exit(), t, u)
    ensures forall depth: nat | m.owner != Some(t) && HasDepth(m, t, depth) :: HasDepth(m.Exit(), t, depth)
  {
    if m.depth <= 1 {
      if IsAhead(m, t, u) {
        PassOnInOrder(m, t, u);
      }
      forall depth: nat | m.owner != Some(t) && HasDepth(m, t, depth)
        ensures HasDepth(m.Exit(), t, depth)
      {
        PassOnKeepsDepth(m, t, depth);
      }
    }
  }

  /** What has been entered is left again. */
  lemma EnterThenExit(m: Monitor, t: nat)
    requires m.Valid() && !m.IsQueued(t) && !m.IsForeign(t)
    ensures m.Enter(t).Exit() == if m.owner.None? then m.(depth := 0) else m
  {
  }

  /** The owner that waits is behind all that wait for a notification already. */
  lemma WaitInOrder(m: Monitor, t: nat, u: nat, v: nat)
    requires m.Valid() && m.owner == Some(t)
    ensures IsAhead(m, u, v) ==> m.Wait(t).owner == Some(u) || IsAhead(m.Wait(t), u, v)
    ensures WaitsAhead(m, u, v) ==> WaitsAhead(m.Wait(t), u, v)
    ensures m.IsWaiting(u) ==> WaitsAhead(m.Wait(t), u, t)
  {
    var m1 := m.(waiting := m.waiting + [Waiter(t, m.depth)]);
    if IsAhead(m, u, v) {
      assert IsAhead(m1, u, v);
      PassOnInOrder(m1, u, v);
    }
    if WaitsAhead(m, u, v) {
      var i, j :| 0 <= i < j < |m.waiting| && m.waiting[i].thread == u && m.waiting[j].thread == v;
      assert m1.PassOn().waiting[i].thread == u && m1.PassOn().waiting[j].thread == v;
    }
    if m.IsWaiting(u) {
      var i :| 0 <= i < |m.waiting| && m.waiting[i].thread == u;
      assert m1.PassOn().waiting[i].thread == u && m1.PassOn().waiting[|m.waiting|].thread == t;
    }
  }

  /** The owner that waits will have its depth again; so will all others. */
  lemma WaitKeepsDepth(m: Monitor, t: nat, u: nat, depth: nat)
    requires m.Valid() && m.owner == Some(t) && HasDepth(m, u, depth)
    ensures HasDepth(m.Wait(t), u, depth)
  {
    var m1 := m.(waiting := m.waiting + [Waiter(t, m.depth)]);
    if m.owner == Some(u) && m.depth == depth {
      assert m1.waiting[|m.waiting|] == Waiter(u, depth);
    } else if Waiter(u, depth) in m.waiting {
      var i :| 0 <= i < |m.waiting| && m.waiting[i] == Waiter(u, depth);
      assert m1.waiting[i] == Waiter(u, depth);
    }
    PassOnKeepsDepth(m1, u, depth);
  }

  /** Of two threads that wait for a notification the first is notified first. */
  lemma NotifyInOrder(m: Monitor, all: bool, t: nat, u: nat)
    requires m.Valid() && m.owner.Some?
    ensures IsAhead(m, t, u) ==> IsAhead(m.Notify(all), t, u)
    ensures m.HasEntry(t) && m.IsWaiting(u) && m.Notify(all).HasEntry(u) ==> IsAhead(m.Notify(all), t, u)
    ensures WaitsAhead(m, t, u) ==>
              || WaitsAhead(m.Notify(all), t, u) || IsAhead(m.Notify(all), t, u)
              || (m.Notify(all).HasEntry(t) && m.Notify(all).IsWaiting(u))
    ensures forall depth: nat | HasDepth(m, t, depth) :: HasDepth(m.Notify(all), t, depth)
  {
    var m' := m.Notify(all);
    if IsAhead(m, t, u) {
      var i, j :| 0 <= i < j < |m.entry| && m.entry[i].thread == t && m.entry[j].thread == u;
      assert m'.entry[i].thread == t && m'.entry[j].thread == u;
    }
    if m.HasEntry(t) && m.IsWaiting(u) && m'.HasEntry(u) {
      BehindTheQueue(m, all, t, u);
    }
    if WaitsAhead(m, t, u) {
      NotifiedInOrder(m, all, t, u);
    }
    forall depth: nat | HasDepth(m, t, depth)
      ensures HasDepth(m', t, depth)
    {
      if Waiter(t, depth) in m.waiting {
        var i :| 0 <= i < |m.waiting| && m.waiting[i] == Waiter(t, depth);
        if all {
          assert m'.entry[|m.entry| + i] == Waiter(t, depth);
        } else if i == 0 {
          assert m'.entry[|m.entry|] == Waiter(t, depth);
        } else {
          assert m'.waiting[i - 1] == Waiter(t, depth);
        }
      }
    }
  }

  /** A notification reaches the thread that has waited longest for it, and no other unless it is for all. */
  lemma NotifyReaches(m: Monitor, all: bool, t: nat)
    requires m.Valid() && m.owner.Some? && m.IsWaiting(t)
    ensures m.Notify(all).HasEntry(t) <==> all || m.waiting[0].thread == t
  {
    var m' := m.Notify(all);
    var k :| 0 <= k < |m.waiting| && m.waiting[k].thread == t;
    if all {
      assert m'.entry[|m.entry| + k].thread == t;
    } else if k == 0 {
      assert m'.entry[|m.entry|].thread == t;
    }
  }

  lemma BehindTheQueue(m: Monitor, all: bool, t: nat, u: nat)
    requires m.Valid() && m.HasEntry(t) && m.IsWaiting(u) && m.Notify(all).HasEntry(u)
    ensures IsAhead(m.Notify(all), t, u)
  {
    var m' := m.Notify(all);
    var i :| 0 <= i < |m.entry| && m.entry[i].thread == t;
    var j :| 0 <= j < |m'.entry| && m'.entry[j].thread == u;
    var k :| 0 <= k < |m.waiting| && m.waiting[k].thread == u;
    assert j >= |m.entry|;
    assert m'.entry[i].thread == t;
  }

  lemma NotifiedInOrder(m: Monitor, all: bool, t: nat, u: nat)
    requires WaitsAhead(m, t, u)
    ensures || WaitsAhead(m.Notify(all), t, u) || IsAhead(m.Notify(all), t, u)
            || (m.Notify(all).HasEntry(t) && m.Notify(all).IsWaiting(u))
  {
    var m' := m.Notify(all);
    var i, j :| 0 <= i < j < |m.waiting| && m.waiting[i].thread == t && m.waiting[j].thread == u;
    if all {
      assert m'.entry[|m.entry| + i].thread == t && m'.entry[|m.entry| + j].thread == u;
    } else if i == 0 {
      assert m'.entry[|m.entry|].thread == t && m'.waiting[j - 1].thread == u;
    } else {
      assert m'.waiting[i - 1].thread == t && m'.waiting[j - 1].thread == u;
    }
  }

  /** An interrupted thread keeps its depth, and overtakes nobody that waits for the monitor. */
  lemma InterruptInOrder(m: Monitor, i: nat, t: nat, u: nat)
    requires m.Valid() && i < |m.waiting|
    ensures IsAhead(m, t, u) ==> IsAhead(m.Interrupt(i), t, u)
    ensures m.HasEntry(t) ==> IsAhead(m.Interrupt(i), t, m.waiting[i].thread)
    ensures forall depth: nat | HasDepth(m, t, depth) :: HasDepth(m.Interrupt(i), t, depth)
  {
    var m1 := m.(waiting := m.waiting[..i] + m.waiting[i + 1..], entry := m.entry + [m.waiting[i]]);
    if IsAhead(m, t, u) {
      QueuedLast(m, m.waiting[i], t, u);
    }
    if m.HasEntry(t) {
      var k :| 0 <= k < |m.entry| && m.entry[k].thread == t;
      assert m1.entry[k].thread == t && m1.entry[|m.entry|] == m.waiting[i];
    }
    forall depth: nat | HasDepth(m, t, depth)
      ensures HasDepth(m.Interrupt(i), t, depth)
    {
      if Waiter(t, depth) in m.waiting {
        var k :| 0 <= k < |m.waiting| && m.waiting[k] == Waiter(t, depth);
        if k == i {
          assert m1.entry[|m.entry|] == Waiter(t, depth);
        } else {
          assert m1.waiting[if k < i then k else k - 1] == Waiter(t, depth);
        }
      }
      if m.owner.None? {
        PassOnKeepsDepth(m1, t, depth);
      }
    }
  }
}
