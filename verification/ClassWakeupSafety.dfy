/** Who is woken up, and when somebody is forgotten: the queues of class monitors in every interleaving. */
module ClassWakeupSafety {

  import opened ClassInitialization
  import opened ClassInitializationSafety
  import opened ClassMonitors
  import opened ClassWakeups
  import opened Options

  /** The thread stands at this step of its topmost call of runClinit. */
  predicate IsAt(s: State, u: nat, c: nat, step: nat) {
    u < |s.stacks| && s.stacks[u] != [] && Top(s.stacks[u]) == Init(c, step)
  }

  /** What a thread may do to another one: move it on in the queues, as far as to the monitor. */
  ghost predicate KeepsOther(m: Monitor, m': Monitor, u: nat) {
    && (m'.IsQueued(u) ==> m.IsQueued(u)) && (m'.IsWaiting(u) ==> m.IsWaiting(u))
    && (m.IsQueued(u) ==> m'.IsQueued(u) || m'.owner == Some(u))
    && (m.owner == Some(u) ==> m'.owner == Some(u))
  }

  ghost predicate Evolves(m: Monitor, m': Monitor, t: nat) {
    m'.Valid() && forall u: nat | u != t :: KeepsOther(m, m', u)
  }

  lemma EvolvesTwice(m: Monitor, m': Monitor, m'': Monitor, t: nat)
    requires Evolves(m, m', t) && Evolves(m', m'', t)
    ensures Evolves(m, m'', t)
  {
    hide Monitor.IsQueued, Monitor.IsWaiting, Monitor.Valid;
    forall u: nat | u != t
      ensures KeepsOther(m, m'', u)
    {
      assert KeepsOther(m, m', u) && KeepsOther(m', m'', u);
    }
  }

  lemma EvolvesByEntering(m: Monitor, t: nat)
    requires m.Valid() && !m.IsQueued(t)
    ensures Evolves(m, m.Enter(t), t) && m.Enter(t).waiting == m.waiting && m.Enter(t).Exists()
    ensures m.IsForeign(t) ==> m.Enter(t).HasEntry(t) && !m.Enter(t).IsWaiting(t)
    ensures !m.IsForeign(t) ==> m.Enter(t).owner == Some(t) && !m.Enter(t).IsQueued(t)
  {
    EnterFacts(m, t);
    hide Monitor.HasEntry, Monitor.Valid, Monitor.Enter;
    OwnerIsNotQueued(m.Enter(t), t);
  }

  lemma OwnerIsNotQueued(m: Monitor, t: nat)
    ensures m.Valid() && m.owner == Some(t) ==> !m.IsQueued(t)
  {
  }

  lemma EvolvesByLeaving(m: Monitor, t: nat)
    requires m.Valid() && m.owner == Some(t)
    ensures Evolves(m, m.Exit(), t) && m.Exit().waiting == m.waiting && !m.Exit().IsQueued(t)
  {
    ExitFacts(m);
    OwnerIsNotQueued(m, t);
    hide Monitor.HasEntry, Monitor.Valid, Monitor.Exit;
    OwnerIsNotQueued(m.Exit(), t);
  }

  lemma EvolvesByWaiting(m: Monitor, t: nat)
    requires m.Valid() && m.owner == Some(t)
    ensures Evolves(m, m.Wait(t), t) && m.Wait(t).IsWaiting(t)
  {
    WaitFacts(m, t);
    hide Monitor.HasEntry, Monitor.IsWaiting, Monitor.Valid, Monitor.Wait;
  }

  lemma EvolvesByNotifying(m: Monitor, t: nat, all: bool)
    requires m.Valid() && m.owner == Some(t)
    ensures Evolves(m, m.Notify(all), t) && m.Notify(all).owner == Some(t) && (all ==> m.Notify(all).waiting == [])
    ensures !m.Notify(all).IsQueued(t)
  {
    NotifyFacts(m, all);
    OwnerIsNotQueued(m, t);
    hide Monitor.HasEntry, Monitor.IsWaiting, Monitor.Valid, Monitor.Notify;
  }

  lemma EvolvesByWaking(m: Monitor, t: nat)
    requires m.Valid() && !m.IsQueued(t) && !m.IsForeign(t)
    ensures Evolves(m, m.WakeAll(t), t) && m.WakeAll(t).waiting == [] && !m.WakeAll(t).IsQueued(t)
  {
    EvolvesByEntering(m, t);
    EvolvesByNotifying(m.Enter(t), t, true);
    EvolvesByLeaving(m.Enter(t).Notify(true), t);
    hide Evolves, Monitor.IsQueued, Monitor.Valid, Monitor.Enter, Monitor.Notify, Monitor.Exit;
    EvolvesTwice(m, m.Enter(t), m.Enter(t).Notify(true), t);
    EvolvesTwice(m, m.Enter(t).Notify(true), m.WakeAll(t), t);
  }

  lemma EvolvesItself(m: Monitor, t: nat)
    requires m.Valid()
    ensures Evolves(m, m, t)
  {
  }

  /** A thread has used the monitor of class c: it may have been queued for step 2 or 6, and woken up others. */
  ghost predicate Used(m: Monitor, m': Monitor, t: nat, resumesAt: nat) {
    && Evolves(m, m', t)
    && (resumesAt == 0 ==> !m'.IsQueued(t)) && (resumesAt == 2 ==> m'.IsQueued(t))
    && (resumesAt == 6 ==> m'.IsQueued(t) && !m'.IsWaiting(t))
  }

  lemma FinishingUse(m: Monitor, t: nat)
    requires m.Valid() && !m.IsQueued(t)
    ensures var use := Finishing(m, t);
            && Used(m, use.monitor, t, if use.exit == Awaited then 6 else 0)
            && (use.exit != Awaited ==> use.monitor.waiting == [])
            && (use.exit == Awaited ==> use.monitor.waiting == m.waiting)
  {
    if !m.Exists() {
      EvolvesItself(m, t);
    } else if m.IsForeign(t) {
      EvolvesByEntering(m, t);
    } else {
      EvolvesByWaking(m, t);
    }
  }

  /** The step for which the thread has been queued: 2, 6, or none. */
  function ResumesAt(s: State, t: nat): nat
    requires t < |s.stacks|
  {
    if s.stacks[t] != [] && Top(s.stacks[t]).Init? && Top(s.stacks[t]).step in {2, 6} then Top(s.stacks[t]).step else 0
  }

  /** What a call for class c by thread t has done, from the class monitor m to m'. */
  ghost predicate HasUsed(s: State, s': State, t: nat, c: nat, m: Monitor, m': Monitor)
    requires t < |s.stacks|
  {
    && |s'.stacks| == |s.stacks| && |s'.initThread| == |s.initThread| && c < |s.initThread|
    && |s'.status| == |s.status|
    && (forall u | 0 <= u < |s.stacks| && u != t :: s'.stacks[u] == s.stacks[u])
    && (forall d | 0 <= d < |s.initThread| && d != c :: s'.initThread[d] == s.initThread[d])
    && Used(m, m', t, ResumesAt(s', t))
    && (ResumesAt(s', t) != 0 ==> Top(s'.stacks[t]).clazz == c)
    && (ResumesAt(s', t) == 2 && m'.IsWaiting(t) ==> s'.initThread[c].Some?)
    && (s'.initThread[c].None? ==> s.initThread[c].None? || m'.waiting == [])
  }

  /** Below the topmost frame all calls of runClinit have handed over to other code. */
  lemma BelowIsQuiet(w: Classes, stack: seq<Frame>)
    requires w.Valid() && StackOk(w, stack) && stack != []
    ensures forall i | 0 <= i < |stack| - 1 && stack[i].Init? :: stack[i].step in {4, 5}
  {
    forall i | 0 <= i < |stack| - 1 && stack[i].Init?
      ensures stack[i].step in {4, 5}
    {
      assert Link(w, stack[i], stack[i + 1]);
    }
  }

  lemma PopResumes(w: Classes, s: State, t: nat)
    requires w.Valid() && t < |s.stacks| && s.stacks[t] != [] && StackOk(w, s.stacks[t])
    ensures ResumesAt(s.Pop(t), t) == 0
  {
    hide StackOk;
    BelowIsQuiet(w, s.stacks[t]);
  }

  lemma FinishUses(w: Classes, s: State, t: nat, c: nat, m: Monitor)
    requires s.Shaped(w) && t < |s.stacks| && c < |s.status| && s.stacks[t] != [] && StackOk(w, s.stacks[t])
    requires m.Valid() && !m.IsQueued(t)
    ensures HasUsed(s, Finish(w, s, t, c, Finishing(m, t).exit), t, c, m, Finishing(m, t).monitor)
  {
    hide StackOk, Used, Monitor.Valid, Monitor.IsQueued, Monitor.IsWaiting, Finishing;
    FinishingUse(m, t);
    var s' := Finish(w, s, t, c, Finishing(m, t).exit);
    if Finishing(m, t).exit == Awaited {
      assert ResumesAt(s', t) == 6;
    } else {
      PopResumes(w, s.(initThread := s.initThread[c := None], status := s.status[c := Ready]), t);
    }
  }

  lemma RunMethodUses(w: Classes, s: State, t: nat, c: nat, m: Monitor)
    requires s.Shaped(w) && t < |s.stacks| && c < |s.status| && s.stacks[t] != [] && StackOk(w, s.stacks[t])
    requires m.Valid() && !m.IsQueued(t)
    ensures HasUsed(s, RunMethod(w, s, t, c, RunningMethod(w, c, m, t).exit), t, c, m,
                    RunningMethod(w, c, m, t).monitor)
  {
    hide StackOk, Evolves, Monitor.Valid, Monitor.IsQueued, Monitor.IsWaiting, Finishing, Finish;
    if w.hasClinit[c] {
      EvolvesItself(m, t);
    } else {
      FinishUses(w, s, t, c, m);
    }
  }

  /** A use that follows another one of the same thread, which was not queued in between. */
  lemma UsedAfter(s: State, s1: State, s': State, t: nat, c: nat, m: Monitor, m1: Monitor, m': Monitor)
    requires t < |s.stacks| == |s1.stacks| && HasUsed(s1, s', t, c, m1, m') && Evolves(m, m1, t)
    requires |s1.initThread| == |s.initThread| && |s1.status| == |s.status|
    requires forall u | 0 <= u < |s.stacks| && u != t :: s1.stacks[u] == s.stacks[u]
    requires forall d | 0 <= d < |s.initThread| && d != c :: s1.initThread[d] == s.initThread[d]
    requires s1.initThread[c].None? ==> s.initThread[c].None?
    ensures HasUsed(s, s', t, c, m, m')
  {
    hide Monitor.IsQueued, Monitor.IsWaiting, Evolves;
    EvolvesTwice(m, m1, m', t);
  }

  lemma MarkUses(w: Classes, s: State, t: nat, c: nat, m: Monitor, haveMonitor: bool, verifies: bool)
    requires s.Shaped(w) && t < |s.stacks| && c < |s.status| && s.stacks[t] != [] && StackOk(w, s.stacks[t])
    requires m.Valid() && !m.IsQueued(t) && (haveMonitor ==> m.owner == Some(t))
    ensures var use := Marking(w, s, t, c, m, haveMonitor);
            HasUsed(s, MarkClass(w, s, t, c, use.exit, verifies).s, t, c, m, use.monitor)
  {
    hide StackOk, Evolves, Monitor.Valid, Monitor.IsQueued, Monitor.IsWaiting, Finishing, Finish, Monitor.Exit;
    var released := if haveMonitor then m.Exit() else m;
    if haveMonitor {
      EvolvesByLeaving(m, t);
    } else {
      EvolvesItself(m, t);
    }
    EvolvedIsValid(m, released, t);
    if s.initThread[c] == Some(t) || s.status[c] in {Ready, Error} {
      PopResumes(w, s, t);
    } else {
      var taken := s.(initThread := s.initThread[c := Some(t)]);
      assert taken.Shaped(w);
      var super := NeededSuper(w, c);
      if super.Some? && s.status[super.value] != Ready {
        SuperTop(w, taken, t, c, super.value, verifies);
      } else {
        var use := RunningMethod(w, c, released, t);
        RunMethodUses(w, taken, t, c, released);
        UsedAfter(s, taken, RunMethod(w, taken, t, c, use.exit), t, c, m, released, use.monitor);
      }
    }
  }

  lemma EvolvedIsValid(m: Monitor, m': Monitor, t: nat)
    requires Evolves(m, m', t)
    ensures m'.Valid()
  {
  }

  /** The superclass is being initialized, or has failed. */
  lemma SuperTop(w: Classes, s: State, t: nat, c: nat, super: nat, verifies: bool)
    requires s.Shaped(w) && t < |s.stacks| && c < |s.status| && super < |s.status| && s.stacks[t] != []
    ensures s.Resume(t, c, 4).Shaped(w)
    ensures var s' := InitializeClass(w, s.Resume(t, c, 4), t, super, verifies).s;
            && |s'.stacks| == |s.stacks| && s'.initThread == s.initThread && |s'.status| == |s.status|
            && ResumesAt(s', t) == 0
            && (forall u | 0 <= u < |s.stacks| && u != t :: s'.stacks[u] == s.stacks[u])
  {
    ResumeShaped(w, s, t, c, 4);
  }

  lemma EnteredUses(w: Classes, s: State, t: nat, c: nat, m: Monitor, verifies: bool)
    requires s.Shaped(w) && t < |s.stacks| && c < |s.status| && s.stacks[t] != [] && StackOk(w, s.stacks[t])
    requires m.Valid() && m.owner == Some(t)
    ensures var use := Entered(w, s, t, c, m);
            var s' := if s.initThread[c].Some? && s.initThread[c] != Some(t) then s.Resume(t, c, 2)
                      else MarkClass(w, s, t, c, use.exit, verifies).s;
            HasUsed(s, s', t, c, m, use.monitor)
  {
    hide StackOk, Evolves, Monitor.Valid, Monitor.HasEntry, Monitor.IsWaiting, MarkClass, Marking, Monitor.Wait;
    OwnerIsNotQueued(m, t);
    if s.initThread[c].Some? && s.initThread[c] != Some(t) {
      EvolvesByWaiting(m, t);
      assert ResumesAt(s.Resume(t, c, 2), t) == 2;
    } else {
      MarkUses(w, s, t, c, m, true, verifies);
    }
  }

  lemma LocksFound(w: Classes, s: State, t: nat, c: nat, m: Monitor)
    requires s.Shaped(w) && c < |s.status|
    ensures Marking(w, s, t, c, m, false).enter == Free && Entered(w, s, t, c, m).enter == Obtained
  {
  }

  /** One call of runClinit. */
  lemma RunUses(w: Classes, s: State, t: nat, verifies: bool, m: Monitor)
    requires Inv(w, s) && t < |s.stacks| && s.stacks[t] != [] && Top(s.stacks[t]).Init?
    requires m.Valid() && !m.IsQueued(t) && (ResumesAt(s, t) != 0 ==> m.owner == Some(t))
    ensures var top := Top(s.stacks[t]);
            && top.clazz < |s.status|
            && var use := Using(w, s, t, top.clazz, top.step, m);
            HasUsed(s, RunClinit(w, s, t, use.enter, use.exit, verifies).s, t, top.clazz, m, use.monitor)
  {
    hide StackOk, Evolves, Monitor.Valid, Monitor.IsQueued, MarkClass, Marking, Entered, Monitor.Enter,
      Finishing, RunningMethod, Finish, RunMethod, Monitor.Exit, Monitor.Notify, OwnersOk, StartedOk;
    var top := Top(s.stacks[t]);
    assert FrameOk(w, top);
    var c := top.clazz;
    LocksFound(w, s, t, c, m);
    LocksFound(w, s, t, c, m.Enter(t));
    if top.step == 1 {
      if !m.Exists() && s.initThread[c] == None {
        MarkUses(w, s, t, c, m, false, verifies);
      } else {
        EvolvesByEntering(m, t);
        if m.IsForeign(t) {
          AwaitsEntry(w, s, t, c, 2, m);
        } else {
          EvolvedIsValid(m, m.Enter(t), t);
          EnteredUses(w, s, t, c, m.Enter(t), verifies);
          var use := Entered(w, s, t, c, m.Enter(t));
          UsedAfter(s, s, RunClinit(w, s, t, use.enter, use.exit, verifies).s, t, c, m, m.Enter(t), use.monitor);
        }
      }
    } else if top.step == 2 {
      EnteredUses(w, s, t, c, m, verifies);
    } else if top.step == 4 {
      RunMethodUses(w, s, t, c, m);
    } else if top.step == 5 {
      FinishUses(w, s, t, c, m);
    } else {
      UnmarkUses(w, s, t, c, m);
    }
  }

  lemma AwaitsEntry(w: Classes, s: State, t: nat, c: nat, step: nat, m: Monitor)
    requires s.Shaped(w) && t < |s.stacks| && s.stacks[t] != [] && c < |s.status|
    requires m.Valid() && !m.IsQueued(t) && m.IsForeign(t) && step in {2, 6}
    ensures HasUsed(s, s.Resume(t, c, step), t, c, m, m.Enter(t))
  {
    EvolvesByEntering(m, t);
    hide Evolves, Monitor.Valid, Monitor.Enter, Monitor.HasEntry;
    assert ResumesAt(s.Resume(t, c, step), t) == step;
  }

  lemma UnmarkUses(w: Classes, s: State, t: nat, c: nat, m: Monitor)
    requires s.Shaped(w) && t < |s.stacks| && s.stacks[t] != [] && c < |s.status| && StackOk(w, s.stacks[t])
    requires m.Valid() && m.owner == Some(t)
    ensures HasUsed(s, Unmark(w, s, t, c), t, c, m, m.Notify(true).Exit())
  {
    hide StackOk, Evolves, Monitor.Valid, Monitor.Notify, Monitor.Exit, Monitor.IsQueued, Monitor.IsWaiting;
    EvolvesByNotifying(m, t, true);
    EvolvedIsValid(m, m.Notify(true), t);
    EvolvesByLeaving(m.Notify(true), t);
    EvolvesTwice(m, m.Notify(true), m.Notify(true).Exit(), t);
    PopResumes(w, s.(initThread := s.initThread[c := None], status := s.status[c := Ready]), t);
  }

  /** The thread is queued at one monitor at most; in a call of runClinit, at that of the class, if it resumes there. */
  ghost predicate ThreadOk(s: State, monitors: seq<Monitor>, interrupted: set<nat>, u: nat) {
    && (forall c, d | 0 <= c < d < |monitors| :: !(monitors[c].IsQueued(u) && monitors[d].IsQueued(u)))
    && (u < |s.stacks| && s.stacks[u] != [] && Top(s.stacks[u]).Init? ==>
          CallOk(Top(s.stacks[u]), monitors, u in interrupted, u))
  }

  ghost predicate CallOk(top: Frame, monitors: seq<Monitor>, interrupted: bool, u: nat)
    requires top.Init?
  {
    && (forall c | 0 <= c < |monitors| && monitors[c].IsQueued(u) ::
          top.clazz == c && top.step in {2, 6} && (monitors[c].IsWaiting(u) ==> top.step == 2))
    && (top.step in {2, 6} ==>
          top.clazz < |monitors| && (monitors[top.clazz].IsQueued(u) || monitors[top.clazz].owner == Some(u)))
    && (interrupted ==> top.step == 2)
  }

  ghost predicate AllValid(monitors: seq<Monitor>) {
    forall c | 0 <= c < |monitors| :: monitors[c].Valid()
  }

  ghost predicate Orderly(x: System) {
    && |x.monitors| == |x.s.status| && AllValid(x.monitors)
    && forall u: nat :: ThreadOk(x.s, x.monitors, x.interrupted, u)
  }

  ghost predicate AllEvolve(monitors: seq<Monitor>, monitors': seq<Monitor>, t: nat) {
    |monitors'| == |monitors| && forall c | 0 <= c < |monitors| :: Evolves(monitors[c], monitors'[c], t)
  }

  lemma OneEvolves(monitors: seq<Monitor>, c: nat, m: Monitor, t: nat)
    requires AllValid(monitors) && c < |monitors| && Evolves(monitors[c], m, t)
    ensures AllEvolve(monitors, monitors[c := m], t) && AllValid(monitors[c := m])
    ensures !IsBlocked(monitors, t) && !m.IsQueued(t) ==> !IsBlocked(monitors[c := m], t)
  {
    hide Evolves, Monitor.Valid, Monitor.IsQueued;
    forall d | 0 <= d < |monitors|
      ensures Evolves(monitors[d], monitors[c := m][d], t) && monitors[c := m][d].Valid()
    {
      if d == c {
        EvolvedIsValid(monitors[c], m, t);
      } else {
        EvolvesItself(monitors[d], t);
      }
    }
  }

  lemma AllEvolveTwice(a: seq<Monitor>, b: seq<Monitor>, c: seq<Monitor>, t: nat)
    requires AllEvolve(a, b, t) && AllEvolve(b, c, t)
    ensures AllEvolve(a, c, t)
  {
    hide Evolves;
    forall i | 0 <= i < |a|
      ensures Evolves(a[i], c[i], t)
    {
      EvolvesTwice(a[i], b[i], c[i], t);
    }
  }

  lemma AllEvolveThemselves(monitors: seq<Monitor>, t: nat)
    requires AllValid(monitors)
    ensures AllEvolve(monitors, monitors, t)
  {
    hide Evolves, Monitor.Valid;
    forall c | 0 <= c < |monitors|
      ensures Evolves(monitors[c], monitors[c], t)
    {
      EvolvesItself(monitors[c], t);
    }
  }

  lemma AfterFrameEvolves(monitors: seq<Monitor>, top: Frame, t: nat, release: Option<nat>)
    requires AllValid(monitors) && !IsBlocked(monitors, t)
    ensures var monitors' := AfterFrame(monitors, top, t, release);
            AllEvolve(monitors, monitors', t) && AllValid(monitors') && !IsBlocked(monitors', t)
  {
    hide Evolves, AllEvolve, Monitor.IsQueued, Monitor.WakeAll, Monitor.Exit, Monitor.Valid;
    AllEvolveThemselves(monitors, t);
    if top.Init? {
      if top.step in {1, 4, 5} && top.clazz < |monitors| && monitors[top.clazz].Exists()
         && !monitors[top.clazz].IsForeign(t) {
        EvolvesByWaking(monitors[top.clazz], t);
        OneEvolves(monitors, top.clazz, monitors[top.clazz].WakeAll(t), t);
      }
    } else if release.Some? && release.value < |monitors| && monitors[release.value].owner == Some(t) {
      EvolvesByLeaving(monitors[release.value], t);
      OneEvolves(monitors, release.value, monitors[release.value].Exit(), t);
    }
  }

  lemma {:induction false} UnwoundEvolves(stack: seq<Frame>, monitors: seq<Monitor>, t: nat, keep: nat,
                                          releases: map<nat, nat>)
    requires AllValid(monitors) && !IsBlocked(monitors, t)
    ensures var monitors' := Unwound(stack, monitors, t, keep, releases);
            AllEvolve(monitors, monitors', t) && AllValid(monitors') && !IsBlocked(monitors', t)
    decreases |stack|
  {
    hide AllEvolve, AllValid, IsBlocked, AfterFrame;
    if |stack| <= keep {
      AllEvolveThemselves(monitors, t);
    } else {
      var n := |stack| - 1;
      var next := AfterFrame(monitors, stack[n], t, ReleaseOf(releases, n));
      AfterFrameEvolves(monitors, stack[n], t, ReleaseOf(releases, n));
      UnwoundEvolves(stack[..n], next, t, keep, releases);
      AllEvolveTwice(monitors, next, Unwound(stack, monitors, t, keep, releases), t);
    }
  }

  /** Unwinding touches one stack; it can only take away initializing threads. */
  lemma {:induction false} UnwindShape(w: Classes, s: State, t: nat, keep: nat)
    requires s.Shaped(w) && t < |s.stacks|
    ensures var s' := Unwind(w, s, t, keep);
            && |s'.stacks| == |s.stacks| && |s'.initThread| == |s.initThread| && |s'.status| == |s.status|
            && (forall u | 0 <= u < |s.stacks| && u != t :: s'.stacks[u] == s.stacks[u])
            && s'.stacks[t] == (if keep < |s.stacks[t]| then s.stacks[t][..keep] else s.stacks[t])
            && (forall c | 0 <= c < |s.initThread| :: s'.initThread[c] == s.initThread[c] || s'.initThread[c] == None)
    decreases |s.stacks[t]|
  {
    if keep < |s.stacks[t]| {
      var top := Top(s.stacks[t]);
      assert FrameOk(w, top);
      var handled := if top.Init? then RunClinitException(w, s, top) else s;
      assert handled.Shaped(w);
      PopShaped(w, handled, t);
      UnwindShape(w, handled.Pop(t), t, keep);
    }
  }

  /** Other threads stay in order. */
  lemma OtherOk(x: System, x': System, t: nat, u: nat)
    requires ThreadOk(x.s, x.monitors, x.interrupted, u) && u != t && AllEvolve(x.monitors, x'.monitors, t)
    requires |x'.s.stacks| == |x.s.stacks| && (u < |x.s.stacks| ==> x'.s.stacks[u] == x.s.stacks[u])
    requires u in x'.interrupted ==> u in x.interrupted
    ensures ThreadOk(x'.s, x'.monitors, x'.interrupted, u)
  {
    hide Monitor.IsQueued, Monitor.IsWaiting, Monitor.Valid;
    assert forall c | 0 <= c < |x.monitors| :: KeepsOther(x.monitors[c], x'.monitors[c], u);
  }

  /** A thread that has not been queued is in order if it does not stand at one of the steps for queued threads. */
  lemma FreeOk(x: System, t: nat)
    requires !IsBlocked(x.monitors, t) && t !in x.interrupted && t < |x.s.stacks| && ResumesAt(x.s, t) == 0
    ensures ThreadOk(x.s, x.monitors, x.interrupted, t)
  {
    hide Monitor.IsQueued, Monitor.IsWaiting;
  }

  lemma FreeOrderly(x: System, x': System, t: nat)
    requires Orderly(x) && AllEvolve(x.monitors, x'.monitors, t) && t < |x.s.stacks| == |x'.s.stacks|
    requires |x'.monitors| == |x'.s.status|
    requires forall u | 0 <= u < |x.s.stacks| && u != t :: x'.s.stacks[u] == x.s.stacks[u]
    requires x'.interrupted == x.interrupted - {t}
    requires !IsBlocked(x'.monitors, t) && ResumesAt(x'.s, t) == 0
    ensures Orderly(x')
  {
    hide IsBlocked, ThreadOk, Evolves, Monitor.Valid;
    FreeOk(x', t);
    forall u: nat
      ensures ThreadOk(x'.s, x'.monitors, x'.interrupted, u)
    {
      if u != t {
        OtherOk(x, x', t, u);
      }
    }
    forall c | 0 <= c < |x.monitors|
      ensures x'.monitors[c].Valid()
    {
      EvolvedIsValid(x.monitors[c], x'.monitors[c], t);
    }
  }

  /** After unwinding the topmost frame, if there is one, runs code. */
  lemma UnwoundResumes(w: Classes, s: State, t: nat, keep: nat)
    requires s.Shaped(w) && t < |s.stacks| && Catches(s.stacks[t], keep)
    ensures |Unwind(w, s, t, keep).stacks| == |s.stacks| && ResumesAt(Unwind(w, s, t, keep), t) == 0
  {
    UnwindShape(w, s, t, keep);
    hide Unwind;
  }

  /** A step that leaves the thread running, or ends with an exception. */
  lemma SettledOrderly(w: Classes, x: System, out: Outcome, monitors: seq<Monitor>, t: nat, keep: nat,
                       releases: map<nat, nat>)
    requires Orderly(x) && x.s.Shaped(w) && out.s.Shaped(w) && t < |x.s.stacks| == |out.s.stacks|
    requires AllEvolve(x.monitors, monitors, t) && AllValid(monitors) && !IsBlocked(monitors, t)
    requires forall u | 0 <= u < |x.s.stacks| && u != t :: out.s.stacks[u] == x.s.stacks[u]
    requires if out.raised then Catches(out.s.stacks[t], keep) else ResumesAt(out.s, t) == 0
    ensures Orderly(Settled(w, x, out, monitors, t, keep, releases).(interrupted := x.interrupted - {t}))
  {
    hide AllEvolve, AllValid, IsBlocked, ThreadOk, Unwound;
    var x' := Settled(w, x, out, monitors, t, keep, releases).(interrupted := x.interrupted - {t});
    if out.raised {
      UnwindShape(w, out.s, t, keep);
      UnwoundResumes(w, out.s, t, keep);
      UnwoundEvolves(out.s.stacks[t], monitors, t, keep, releases);
      UnwoundLength(out.s.stacks[t], monitors, t, keep, releases);
      AllEvolveTwice(x.monitors, monitors, x'.monitors, t);
    }
    EvolveLength(x.monitors, monitors, t);
    FreeOrderly(x, x', t);
  }

  lemma EvolveLength(monitors: seq<Monitor>, monitors': seq<Monitor>, t: nat)
    requires AllEvolve(monitors, monitors', t)
    ensures |monitors'| == |monitors|
  {
  }

  lemma TouchOrderly(w: Classes, x: System, t: nat, c: nat, verifies: bool, keep: nat, releases: map<nat, nat>)
    requires Orderly(x) && x.s.Shaped(w) && t < |x.s.stacks| && c < |x.s.status| && RunsCode(x.s.stacks[t])
    requires Catches(x.s.stacks[t], keep) && !IsBlocked(x.monitors, t)
    ensures InitializeClass(w, x.s, t, c, verifies).s.Shaped(w)
    ensures Orderly(Settled(w, x, InitializeClass(w, x.s, t, c, verifies), x.monitors, t, keep, releases)
                    .(interrupted := x.interrupted - {t}))
  {
    InitializeClassShaped(w, x.s, t, c, verifies);
    var out := InitializeClass(w, x.s, t, c, verifies);
    assert out.raised ==> out.s.stacks == x.s.stacks;
    assert !out.raised ==> ResumesAt(out.s, t) == 0;
    assert |x.monitors| == |x.s.status| && AllValid(x.monitors);
    hide AllEvolve, AllValid, IsBlocked, ThreadOk, Unwound, Unwind, InitializeClass;
    AllEvolveThemselves(x.monitors, t);
    TouchOthers(w, x.s, t, c, verifies);
    SettledOrderly(w, x, out, x.monitors, t, keep, releases);
  }

  lemma TouchOthers(w: Classes, s: State, t: nat, c: nat, verifies: bool)
    requires s.Shaped(w) && t < |s.stacks| && c < |s.status|
    ensures var s' := InitializeClass(w, s, t, c, verifies).s;
            && |s'.stacks| == |s.stacks| && |s'.status| == |s.status| && s'.initThread == s.initThread
            && (forall u | 0 <= u < |s.stacks| && u != t :: s'.stacks[u] == s.stacks[u])
  {
  }

  /** A thread that has been queued by a call of runClinit, and the others. */
  lemma QueuedOrderly(x: System, s': State, c: nat, m: Monitor, t: nat)
    requires Orderly(x) && t < |x.s.stacks| && c < |x.monitors| && HasUsed(x.s, s', t, c, x.monitors[c], m)
    requires !IsBlocked(x.monitors, t) && t !in x.interrupted && ResumesAt(s', t) != 0
    ensures Orderly(x.(s := s', monitors := x.monitors[c := m]))
  {
    hide Evolves, AllEvolve, Monitor.Valid, Monitor.IsQueued, Monitor.IsWaiting, IsBlocked;
    var x' := x.(s := s', monitors := x.monitors[c := m]);
    OneEvolves(x.monitors, c, m, t);
    forall u: nat
      ensures ThreadOk(x'.s, x'.monitors, x'.interrupted, u)
    {
      if u != t {
        OtherOk(x, x', t, u);
      } else {
        QueuedOk(x, s', c, m, t);
      }
    }
  }

  lemma QueuedOk(x: System, s': State, c: nat, m: Monitor, t: nat)
    requires t < |x.s.stacks| && c < |x.monitors| && HasUsed(x.s, s', t, c, x.monitors[c], m)
    requires !IsBlocked(x.monitors, t) && t !in x.interrupted && ResumesAt(s', t) != 0
    ensures ThreadOk(s', x.monitors[c := m], x.interrupted, t)
  {
    hide Evolves, Monitor.Valid, Monitor.IsQueued, Monitor.IsWaiting;
  }

  /** The owner of the monitor goes on with steps 2 and 6. */
  lemma OwnsAtStep(x: System, t: nat)
    requires Orderly(x) && t < |x.s.stacks| && !IsBlocked(x.monitors, t) && ResumesAt(x.s, t) != 0
    ensures var c := Top(x.s.stacks[t]).clazz; c < |x.monitors| && x.monitors[c].owner == Some(t)
  {
    assert ThreadOk(x.s, x.monitors, x.interrupted, t);
  }

  lemma GoOnOrderly(w: Classes, x: System, t: nat, verifies: bool, keep: nat, releases: map<nat, nat>)
    requires Orderly(x) && Inv(w, x.s) && t < |x.s.stacks| && x.s.stacks[t] != [] && Top(x.s.stacks[t]).Init?
    requires Catches(x.s.stacks[t], keep) && !IsBlocked(x.monitors, t) && t !in x.interrupted
    ensures CanAct(w, x, GoOn(t, verifies, keep, releases))
    ensures Orderly(After(w, x, GoOn(t, verifies, keep, releases)))
  {
    hide Evolves, AllEvolve, AllValid, ThreadOk, Unwound, Unwind, Using, StackOk, TopDone, OwnersOk, StartedOk,
      Monitor.Valid, Monitor.IsQueued, Monitor.IsWaiting;
    var use := UseOf(w, x, t);
    var top := Top(x.s.stacks[t]);
    assert FrameOk(w, top);
    if ResumesAt(x.s, t) != 0 {
      OwnsAtStep(x, t);
    }
    ValidAt(x.monitors, top.clazz);
    RunUses(w, x.s, t, verifies, x.monitors[top.clazz]);
    var out := RunClinit(w, x.s, t, use.enter, use.exit, verifies);
    RunClinitKeeps(w, x.s, t, use.enter, use.exit, verifies);
    RunClinitShaped(w, x.s, t, use.enter, use.exit, verifies);
    var monitors := x.monitors[top.clazz := use.monitor];
    hide RunClinit, UseOf;
    if ResumesAt(out.s, t) != 0 {
      assert !out.raised;
      QueuedOrderly(x, out.s, top.clazz, use.monitor, t);
    } else {
      OneEvolves(x.monitors, top.clazz, use.monitor, t);
      if out.raised {
        CatchesBelow(x.s.stacks[t], out.s.stacks[t], keep);
      }
      SettledOrderly(w, x, out, monitors, t, keep, releases);
      assert x.interrupted - {t} == x.interrupted;
    }
  }

  lemma ValidAt(monitors: seq<Monitor>, c: nat)
    requires AllValid(monitors) && c < |monitors|
    ensures monitors[c].Valid()
  {
  }

  /** What a program does with a monitor. */
  lemma ProgramOrderly(x: System, c: nat, m: Monitor, t: nat)
    requires Orderly(x) && t < |x.s.stacks| && c < |x.monitors| && Evolves(x.monitors[c], m, t)
    requires !IsBlocked(x.monitors, t) && RunsCode(x.s.stacks[t])
    ensures Orderly(WithMonitor(x, c, m))
  {
    hide Evolves, AllEvolve, Monitor.Valid, Monitor.IsQueued, Monitor.IsWaiting, CallOk;
    var x' := WithMonitor(x, c, m);
    OneEvolves(x.monitors, c, m, t);
    forall u: nat
      ensures ThreadOk(x'.s, x'.monitors, x'.interrupted, u)
    {
      if u != t {
        OtherOk(x, x', t, u);
      }
    }
  }

  lemma EvolvesByInterrupting(m: Monitor, i: nat)
    requires m.Valid() && i < |m.waiting|
    ensures var t, m' := m.waiting[i].thread, m.Interrupt(i);
            && Evolves(m, m', t) && m.IsWaiting(t) && !m'.IsWaiting(t) && (m'.HasEntry(t) || m'.owner == Some(t))
  {
    InterruptFacts(m, i);
    WaitsAt(m, i);
    assert m.Interrupt(i).owner == m.owner || m.owner.None?;
    hide Monitor.Valid, Monitor.HasEntry, Monitor.IsWaiting;
  }

  /** An interrupt moves a thread from one queue to the other, or makes it the owner. */
  lemma InterruptOrderly(x: System, c: nat, i: nat)
    requires Orderly(x) && c < |x.monitors| && i < |x.monitors[c].waiting|
    ensures var t := x.monitors[c].waiting[i].thread;
            Orderly(WithMonitor(x, c, x.monitors[c].Interrupt(i)).(interrupted := x.interrupted + {t}))
  {
    var m, t := x.monitors[c], x.monitors[c].waiting[i].thread;
    ValidAt(x.monitors, c);
    EvolvesByInterrupting(m, i);
    hide Evolves, Monitor.Valid, Monitor.HasEntry, Monitor.IsWaiting, Monitor.Interrupt;
    var m' := m.Interrupt(i);
    var x' := WithMonitor(x, c, m').(interrupted := x.interrupted + {t});
    OneEvolves(x.monitors, c, m', t);
    forall u: nat
      ensures ThreadOk(x'.s, x'.monitors, x'.interrupted, u)
    {
      if u != t {
        OtherOk(x, x', t, u);
      } else {
        assert ThreadOk(x.s, x.monitors, x.interrupted, t) && m.IsQueued(t);
      }
    }
  }

  /** The invariant of the system. */
  ghost predicate Sound(w: Classes, x: System) {
    Inv(w, x.s) && Orderly(x)
  }

  /** An interrupted thread that was waiting in a call of runClinit goes on. */
  predicate MeetsInterrupt(x: System, a: Action) {
    a.GoOn? && a.thread in x.interrupted
  }

  /** Every other action keeps the invariant. */
  lemma AfterKeeps(w: Classes, x: System, a: Action)
    requires Sound(w, x) && CanAct(w, x, a) && !MeetsInterrupt(x, a)
    ensures Sound(w, After(w, x, a))
  {
    AfterOrderly(w, x, a);
    AfterRefinesNext(w, x, a);
    hide Inv, Orderly, After, CanAct, Next;
    if EventOf(w, x, a).Some? {
      NextKeeps(w, x.s, EventOf(w, x, a).value);
    }
  }

  lemma AfterOrderly(w: Classes, x: System, a: Action)
    requires Sound(w, x) && CanAct(w, x, a) && !MeetsInterrupt(x, a)
    ensures Orderly(After(w, x, a))
  {
    hide Evolves, AllEvolve, AllValid, ThreadOk, Unwound, Unwind, Using, StackOk, TopDone, OwnersOk, StartedOk,
      Monitor.Valid, Monitor.IsQueued, Monitor.IsWaiting, Monitor.Enter, Monitor.Exit, Monitor.Wait, Monitor.Notify,
      Monitor.Interrupt, InitializeClass, RunClinit;
    var t := a.thread;
    assert t !in x.interrupted ==> x.interrupted - {t} == x.interrupted;
    match a {
      case TouchClass(_, c, verifies, keep, releases) =>
        TouchOrderly(w, x, t, c, verifies, keep, releases);
      case GoOn(_, verifies, keep, releases) =>
        GoOnOrderly(w, x, t, verifies, keep, releases);
      case CallMethod(_) =>
        SettledProgram(w, x, x.s.Push(t, Code), t);
      case ReturnFrom(_) =>
        PopResumes(w, x.s, t);
        SettledProgram(w, x, x.s.Pop(t), t);
      case Raise(_, keep, releases) =>
        AllEvolveThemselves(x.monitors, t);
        SettledOrderly(w, x, Outcome(x.s, true), x.monitors, t, keep, releases);
      case Interrupt(_, c, i) =>
        InterruptOrderly(x, c, i);
      case _ =>
        ProgramUses(w, x, a);
    }
  }

  /** The stack of a thread has changed, and no monitor. */
  lemma SettledProgram(w: Classes, x: System, s': State, t: nat)
    requires Orderly(x) && t < |x.s.stacks| == |s'.stacks| && |s'.status| == |x.s.status| && !IsBlocked(x.monitors, t)
    requires forall u | 0 <= u < |x.s.stacks| && u != t :: s'.stacks[u] == x.s.stacks[u]
    requires ResumesAt(s', t) == 0 && t !in x.interrupted
    ensures Orderly(x.(s := s'))
  {
    hide AllEvolve, IsBlocked, ThreadOk;
    AllEvolveThemselves(x.monitors, t);
    assert x.interrupted - {t} == x.interrupted;
    FreeOrderly(x, x.(s := s'), t);
  }

  lemma ProgramUses(w: Classes, x: System, a: Action)
    requires Sound(w, x) && CanAct(w, x, a)
    requires a.EnterMonitor? || a.ExitMonitor? || a.WaitOn? || a.NotifyOn?
    ensures Orderly(After(w, x, a))
  {
    hide Evolves, AllEvolve, ThreadOk, Monitor.Valid, Monitor.IsQueued, Monitor.Enter, Monitor.Exit, Monitor.Wait,
      Monitor.Notify, StackOk, TopDone, OwnersOk, StartedOk;
    var t, c := a.thread, a.clazz;
    var m := x.monitors[c];
    match a {
      case EnterMonitor(_, _) => EvolvesByEntering(m, t);
      case ExitMonitor(_, _) => EvolvesByLeaving(m, t);
      case WaitOn(_, _) => EvolvesByWaiting(m, t);
      case NotifyOn(_, _, all) => EvolvesByNotifying(m, t, all);
    }
    ProgramOrderly(x, c, After(w, x, a).monitors[c], t);
  }
}
