/** Class initialization gives back the class monitors that it has entered, as deep as it has found them. */
module MonitorBalance {
  import opened ClassInitialization
  import opened ClassInitializationSafety
  import opened ClassMonitors
  import opened ClassWakeups
  import opened ClassWakeupSafety
  import opened MonitorOrder
  import opened Options

  /** The thread has entered the monitor n times; if it waits, it will have when it gets the monitor. */
  ghost predicate Holds(m: Monitor, t: nat, n: nat) {
    if n == 0 then m.owner != Some(t) && !m.IsQueued(t) else HasDepth(m, t, n)
  }

  lemma EnterHolds(m: Monitor, t: nat, n: nat)
    requires m.Valid() && !m.IsQueued(t) && Holds(m, t, n)
    ensures m.Enter(t).Valid() && Holds(m.Enter(t), t, n + 1)
    ensures !m.IsForeign(t) ==> m.Enter(t).owner == Some(t) && !m.Enter(t).IsQueued(t)
  {
    EvolvesByEntering(m, t);
    NotQueued(m, t, n);
    if m.IsForeign(t) {
      assert m.Enter(t).entry[|m.entry|] == Waiter(t, 1);
    }
  }

  lemma NotQueued(m: Monitor, t: nat, n: nat)
    requires !m.IsQueued(t)
    ensures Holds(m, t, n) <==> if n == 0 then m.owner != Some(t) else m.owner == Some(t) && m.depth == n
  {
  }

  lemma ExitHolds(m: Monitor, t: nat, n: nat)
    requires m.Valid() && m.owner == Some(t) && Holds(m, t, n + 1)
    ensures m.Exit().Valid() && !m.Exit().IsQueued(t) && Holds(m.Exit(), t, n)
  {
    hide Monitor.HasEntry, Monitor.IsWaiting;
    OwnerIsNotQueued(m, t);
    NotQueued(m, t, n + 1);
    EvolvesByLeaving(m, t);
    NotQueued(m.Exit(), t, n);
    if n == 0 {
      PassOnFacts(m);
    }
  }

  lemma WaitHolds(m: Monitor, t: nat, n: nat)
    requires m.Valid() && m.owner == Some(t) && Holds(m, t, n)
    ensures Holds(m.Wait(t), t, n)
  {
    WaitKeepsDepth(m, t, t, n);
  }

  lemma NotifyHolds(m: Monitor, t: nat, all: bool, n: nat)
    requires m.Valid() && m.owner == Some(t) && Holds(m, t, n)
    ensures m.Notify(all).Valid() && m.Notify(all).owner == Some(t) && Holds(m.Notify(all), t, n)
  {
    EvolvesByNotifying(m, t, all);
    NotifyInOrder(m, all, t, t);
  }

  lemma WakeAllHolds(m: Monitor, t: nat, n: nat)
    requires m.Valid() && !m.IsQueued(t) && !m.IsForeign(t) && Holds(m, t, n)
    ensures m.WakeAll(t).Valid() && !m.WakeAll(t).IsQueued(t) && Holds(m.WakeAll(t), t, n)
  {
    hide Holds, Monitor.Enter, Monitor.Notify, Monitor.Exit, Monitor.IsQueued, Monitor.Valid;
    EnterHolds(m, t, n);
    NotifyHolds(m.Enter(t), t, true, n + 1);
    ExitHolds(m.Enter(t).Notify(true), t, n);
  }

  /** Steps 2 and 6 are those before which the call has entered the monitor, or has begun to wait for it. */
  predicate IsInside(step: nat) {
    step == 2 || step == 6
  }

  function Inside(step: nat): nat {
    if IsInside(step) then 1 else 0
  }

  lemma FinishingHolds(m: Monitor, t: nat, n: nat)
    requires m.Valid() && !m.IsQueued(t) && Holds(m, t, n)
    ensures Holds(Finishing(m, t).monitor, t, n + if Finishing(m, t).exit == Awaited then 1 else 0)
  {
    hide Holds, Monitor.IsQueued, Monitor.Valid;
    if m.IsForeign(t) {
      EnterHolds(m, t, n);
    } else {
      WakeAllHolds(m, t, n);
    }
  }

  lemma MarkingHolds(w: Classes, s: State, t: nat, c: nat, m: Monitor, haveMonitor: bool, n: nat)
    requires s.Shaped(w) && c < |s.status| && m.Valid() && !m.IsQueued(t)
    requires (haveMonitor ==> m.owner == Some(t)) && Holds(m, t, if haveMonitor then n + 1 else n)
    ensures var use := Marking(w, s, t, c, m, haveMonitor);
            Holds(use.monitor, t, n + if use.exit == Awaited then 1 else 0)
  {
    hide Holds, Monitor.IsQueued, Monitor.Valid, Finishing;
    var released := if haveMonitor then m.Exit() else m;
    if haveMonitor {
      ExitHolds(m, t, n);
    }
    FinishingHolds(released, t, n);
  }

  lemma EnteredHolds(w: Classes, s: State, t: nat, c: nat, m: Monitor, n: nat)
    requires s.Shaped(w) && c < |s.status| && m.Valid() && !m.IsQueued(t) && m.owner == Some(t) && Holds(m, t, n + 1)
    ensures var use := Entered(w, s, t, c, m);
            && use.enter == Obtained
            && Holds(use.monitor, t, n + if Waits(s, t, c) || use.exit == Awaited then 1 else 0)
  {
    hide Holds, Monitor.IsQueued, Monitor.Valid, Marking;
    if Waits(s, t, c) {
      WaitHolds(m, t, n + 1);
    } else {
      MarkingHolds(w, s, t, c, m, true, n);
    }
  }

  /** Another thread is initializing the class. */
  predicate Waits(s: State, t: nat, c: nat) {
    c < |s.initThread| && s.initThread[c].Some? && s.initThread[c] != Some(t)
  }

  /** The call goes on later from step 2 or 6. */
  predicate Returns(s: State, t: nat, c: nat, step: nat, use: Use) {
    (step <= 2 && (use.enter == Awaited || Waits(s, t, c))) || use.exit == Awaited
  }

  lemma UsingHolds(w: Classes, s: State, t: nat, c: nat, step: nat, m: Monitor, n: nat)
    requires s.Shaped(w) && c < |s.status| && m.Valid() && !m.IsQueued(t) && step in {1, 2, 4, 5, 6}
    requires (step in {2, 6} ==> m.owner == Some(t)) && Holds(m, t, n + Inside(step))
    ensures var use := Using(w, s, t, c, step, m);
            Holds(use.monitor, t, n + if Returns(s, t, c, step, use) then 1 else 0)
  {
    hide Holds, Monitor.IsQueued, Monitor.Valid, Marking, Finishing, Entered;
    if step == 1 {
      MarkingHolds(w, s, t, c, m, false, n);
      EnterHolds(m, t, n);
      if !m.IsForeign(t) {
        EnteredHolds(w, s, t, c, m.Enter(t), n);
      }
      NotEntered(w, s, t, c, m);
    } else if step == 2 {
      EnteredHolds(w, s, t, c, m, n);
    } else if step == 6 {
      NotifyHolds(m, t, true, n + 1);
      ExitHolds(m.Notify(true), t, n);
    } else {
      FinishingHolds(m, t, n);
    }
  }

  lemma NotEntered(w: Classes, s: State, t: nat, c: nat, m: Monitor)
    requires s.Shaped(w) && c < |s.status|
    ensures Marking(w, s, t, c, m, false).enter == Free
  {
  }

  /** Locks that the monitor of the class can tell. */
  predicate CanUse(w: Classes, s: State, t: nat, c: nat, step: nat, use: Use)
    requires s.Shaped(w) && c < |s.status|
  {
    && (step == 1 && use.enter == Free ==> !Waits(s, t, c)) && (step == 2 ==> use.enter != Awaited)
    && (use.exit == Awaited ==>
          || step == 5 || (step == 4 && !w.hasClinit[c])
          || (step <= 2 && use.enter != Awaited && !Waits(s, t, c) && EndsAtOnce(w, s, t, c)))
  }

  /** A class that is marked now and has nothing to wait for or to run. */
  predicate EndsAtOnce(w: Classes, s: State, t: nat, c: nat)
    requires s.Shaped(w) && c < |s.status|
  {
    && s.initThread[c] != Some(t) && s.status[c] !in {Ready, Error} && !w.hasClinit[c]
    && (NeededSuper(w, c).Some? ==> s.status[NeededSuper(w, c).value] == Ready)
  }

  lemma UsingCanUse(w: Classes, s: State, t: nat, c: nat, step: nat, m: Monitor)
    requires s.Shaped(w) && c < |s.status| && step in {1, 2, 4, 5, 6}
    ensures CanUse(w, s, t, c, step, Using(w, s, t, c, step, m))
  {
    hide Monitor.WakeAll, Monitor.Enter, Monitor.Exit, Monitor.Wait, Monitor.Notify, Monitor.Exists, Monitor.IsForeign;
  }

  /** Where the call stands afterwards. */
  lemma StepAfter(w: Classes, s: State, t: nat, use: Use, verifies: bool)
    requires Inv(w, s) && t < |s.stacks| && s.stacks[t] != [] && Top(s.stacks[t]).Init?
    requires Top(s.stacks[t]).clazz < |s.status| && CanUse(w, s, t, Top(s.stacks[t]).clazz, Top(s.stacks[t]).step, use)
    ensures var top, out := Top(s.stacks[t]), RunClinit(w, s, t, use.enter, use.exit, verifies);
            && |out.s.stacks| == |s.stacks|
            && (IsInside(ResumesAt(out.s, t)) <==> Returns(s, t, top.clazz, top.step, use))
  {
    var top := Top(s.stacks[t]);
    assert FrameOk(w, top);
    StackPop(w, s.stacks[t]);
    hide OwnersOk, StartedOk, TopDone;
  }

  /**
   * Whatever a call of runClinit does at one step: if it goes on later from step 2 or 6 it has entered the monitor of
   * its class once more than the thread had without it, and otherwise it has given the monitor back.
   */
  lemma GivesBack(w: Classes, x: System, t: nat, verifies: bool, n: nat)
    requires Inv(w, x.s) && |x.monitors| == |x.s.status| && t < |x.s.stacks| && x.s.stacks[t] != []
    requires Top(x.s.stacks[t]).Init? && Top(x.s.stacks[t]).clazz < |x.monitors|
    requires var top := Top(x.s.stacks[t]); var m := x.monitors[top.clazz];
             && m.Valid() && !m.IsQueued(t) && (IsInside(top.step) ==> m.owner == Some(t))
             && Holds(m, t, n + Inside(top.step))
    ensures var use := UseOf(w, x, t); var out := RunClinit(w, x.s, t, use.enter, use.exit, verifies);
            t < |out.s.stacks| && Holds(use.monitor, t, n + Inside(ResumesAt(out.s, t)))
  {
    hide Holds, Monitor.IsQueued, Monitor.Valid, RunClinit, Using, CanUse, StackOk, OwnersOk, StartedOk, TopDone,
      Returns;
    var s, top := x.s, Top(x.s.stacks[t]);
    assert FrameOk(w, top);
    UsingCanUse(w, s, t, top.clazz, top.step, x.monitors[top.clazz]);
    UsingHolds(w, s, t, top.clazz, top.step, x.monitors[top.clazz], n);
    StepAfter(w, s, t, UseOf(w, x, t), verifies);
  }
}
