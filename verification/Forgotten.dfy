/**
 * Lost wake-ups in class initialization (class.c): a thread that waits for the end of an initialization is forgotten
 * exactly if the initialization fails while a third thread has the monitor of the class.
 */
module Forgotten {

  import opened ClassInitialization
  import opened ClassInitializationSafety
  import opened ClassMonitors
  import opened ClassWakeups
  import opened ClassWakeupSafety
  import opened Options

  /** The thread waits for a notification in step 2 of a call for class c. */
  predicate WaitsFor(s: State, monitors: seq<Monitor>, u: nat, c: nat) {
    c < |monitors| && monitors[c].IsWaiting(u) && IsAt(s, u, c, 2)
  }

  /** Whoever waits for the end of an initialization waits while there is one. */
  ghost predicate NobodyIsForgotten(s: State, monitors: seq<Monitor>) {
    forall u: nat, c: nat | WaitsFor(s, monitors, u, c) :: c < |s.initThread| && s.initThread[c].Some?
  }

  /** The exception leaves a call for a class whose monitor another thread has, while somebody waits. */
  ghost predicate IsUnheard(s: State, monitors: seq<Monitor>, top: Frame, t: nat) {
    && top.Init? && top.step in {1, 4, 5} && top.clazz < |monitors| && monitors[top.clazz].IsForeign(t)
    && exists u: nat :: u != t && WaitsFor(s, monitors, u, top.clazz)
  }

  /** One of the frames that the exception unwinds is left in this way. */
  ghost predicate UnwindsUnheard(s: State, stack: seq<Frame>, monitors: seq<Monitor>, t: nat, keep: nat,
                                 releases: map<nat, nat>)
  {
    keep < |stack|
    && var n := |stack| - 1;
       IsUnheard(s, monitors, stack[n], t)
       || UnwindsUnheard(s, stack[..n], AfterFrame(monitors, stack[n], t, ReleaseOf(releases, n)), t, keep, releases)
  }

  /** Calls of runClinit that have handed over to other code. */
  ghost predicate IsQuiet(stack: seq<Frame>) {
    forall i | 0 <= i < |stack| && stack[i].Init? :: stack[i].step in {4, 5}
  }

  lemma SameWaiters(s: State, s': State, monitors: seq<Monitor>, t: nat, u: nat, c: nat)
    requires |s'.stacks| == |s.stacks| && u != t && (u < |s.stacks| ==> s'.stacks[u] == s.stacks[u])
    ensures WaitsFor(s', monitors, u, c) <==> WaitsFor(s, monitors, u, c)
  {
  }

  /** A monitor that another thread has is left alone, whatever is unwound. */
  lemma {:induction false} ForeignStays(stack: seq<Frame>, monitors: seq<Monitor>, t: nat, keep: nat,
                                        releases: map<nat, nat>, c: nat)
    requires c < |monitors| && monitors[c].IsForeign(t)
    ensures var monitors' := Unwound(stack, monitors, t, keep, releases);
            c < |monitors'| && monitors'[c] == monitors[c]
    decreases |stack|
  {
    if keep < |stack| {
      var n := |stack| - 1;
      ForeignStays(stack[..n], AfterFrame(monitors, stack[n], t, ReleaseOf(releases, n)), t, keep, releases, c);
    }
  }

  /** Whom an exception has forgotten stays forgotten until it is caught. */
  lemma StaysForgotten(w: Classes, s: State, monitors: seq<Monitor>, t: nat, keep: nat, releases: map<nat, nat>,
                       u: nat, c: nat)
    requires s.Shaped(w) && t < |s.stacks| && u != t && WaitsFor(s, monitors, u, c) && monitors[c].IsForeign(t)
    requires c < |s.initThread| ==> s.initThread[c].None?
    ensures !NobodyIsForgotten(Unwind(w, s, t, keep), Unwound(s.stacks[t], monitors, t, keep, releases))
  {
    UnwindShape(w, s, t, keep);
    ForeignStays(s.stacks[t], monitors, t, keep, releases, c);
    var s', monitors' := Unwind(w, s, t, keep), Unwound(s.stacks[t], monitors, t, keep, releases);
    hide Unwind, Unwound;
    assert WaitsFor(s', monitors', u, c);
  }

  /** The monitors after a frame: the waiting threads of other classes are the same. */
  lemma WaitersAfterFrame(monitors: seq<Monitor>, top: Frame, t: nat, release: Option<nat>, c: nat)
    requires AllValid(monitors) && !IsBlocked(monitors, t) && c < |monitors|
    ensures var monitors' := AfterFrame(monitors, top, t, release);
            && |monitors'| == |monitors|
            && (monitors'[c].waiting == monitors[c].waiting || monitors'[c].waiting == [])
            && (top.Init? && top.step in {1, 4, 5} && top.clazz == c && !monitors[c].IsForeign(t) ==>
                  monitors'[c].waiting == [])
  {
    hide Monitor.WakeAll, Monitor.Exit, Monitor.IsQueued, Monitor.Valid;
    if top.Init? {
      if c == top.clazz && !monitors[c].IsForeign(t) {
        EvolvesByWaking(monitors[c], t);
      }
    } else if release == Some(c) && monitors[c].owner == Some(t) {
      EvolvesByLeaving(monitors[c], t);
    }
  }

  /** The state after an exception has left the topmost frame of a thread. */
  function BelowFrame(s: State, t: nat): State
    requires t < |s.stacks| && s.stacks[t] != [] && (Top(s.stacks[t]).Init? ==> Top(s.stacks[t]).clazz < |s.status|)
    requires |s.status| == |s.initThread|
  {
    var top := Top(s.stacks[t]);
    (if top.Init? then s.(status := s.status[top.clazz := Error], initThread := s.initThread[top.clazz := None]) else s)
    .Pop(t)
  }

  lemma BelowFrameFacts(w: Classes, s: State, t: nat)
    requires s.Shaped(w) && t < |s.stacks| && s.stacks[t] != [] && IsQuiet(s.stacks[t])
    ensures var top, n := Top(s.stacks[t]), |s.stacks[t]| - 1;
            && (top.Init? ==> top.clazz < |s.status| && top.step in {4, 5})
            && var s1 := BelowFrame(s, t);
            && s1.Shaped(w) && |s1.stacks| == |s.stacks| && |s1.status| == |s.status|
            && s1.stacks[t] == s.stacks[t][..n] && IsQuiet(s1.stacks[t])
            && (forall u | 0 <= u < |s.stacks| && u != t :: s1.stacks[u] == s.stacks[u])
            && s1.initThread == (if top.Init? then s.initThread[top.clazz := None] else s.initThread)
            && forall keep: nat | keep < |s.stacks[t]| :: Unwind(w, s, t, keep) == Unwind(w, s1, t, keep)
  {
    var top := Top(s.stacks[t]);
    assert FrameOk(w, top);
    var handled := if top.Init? then s.(status := s.status[top.clazz := Error],
                                         initThread := s.initThread[top.clazz := None]) else s;
    assert handled.Shaped(w);
    PopShaped(w, handled, t);
  }

  /** The frame is left, and nobody has been forgotten by that. */
  lemma FrameForgets(w: Classes, s: State, s1: State, monitors: seq<Monitor>, t: nat, release: Option<nat>)
    requires s.Shaped(w) && t < |s.stacks| && s.stacks[t] != [] && NobodyIsForgotten(s, monitors)
    requires |monitors| == |s.status| && AllValid(monitors) && !IsBlocked(monitors, t)
    requires |s1.stacks| == |s.stacks| && forall u | 0 <= u < |s.stacks| && u != t :: s1.stacks[u] == s.stacks[u]
    requires var top := Top(s.stacks[t]);
             && (top.Init? ==> top.clazz < |s.initThread| && top.step in {4, 5})
             && s1.initThread == if top.Init? then s.initThread[top.clazz := None] else s.initThread
    requires !IsUnheard(s, monitors, Top(s.stacks[t]), t)
    ensures NobodyIsForgotten(s1, AfterFrame(monitors, Top(s.stacks[t]), t, release))
  {
    var top := Top(s.stacks[t]);
    var monitors' := AfterFrame(monitors, top, t, release);
    AfterFrameEvolves(monitors, top, t, release);
    hide AfterFrame, AllEvolve, AllValid;
    forall u: nat, c: nat | WaitsFor(s1, monitors', u, c)
      ensures c < |s1.initThread| && s1.initThread[c].Some?
    {
      assert monitors'[c].IsQueued(u) && u != t;
      AfterFrameLength(monitors, top, t, release);
      WaitersAfterFrame(monitors, top, t, release, c);
      assert WaitsFor(s, monitors, u, c) by {
        SameWaiters(s, s1, monitors, t, u, c);
      }
    }
  }

  /** An exception forgets somebody exactly if it leaves a call in the way above. */
  lemma {:induction false} UnwindForgetsIff(w: Classes, s: State, monitors: seq<Monitor>, t: nat, keep: nat,
                                            releases: map<nat, nat>)
    requires s.Shaped(w) && t < |s.stacks| && IsQuiet(s.stacks[t]) && NobodyIsForgotten(s, monitors)
    requires |monitors| == |s.status| && AllValid(monitors) && !IsBlocked(monitors, t)
    ensures NobodyIsForgotten(Unwind(w, s, t, keep), Unwound(s.stacks[t], monitors, t, keep, releases))
            <==> !UnwindsUnheard(s, s.stacks[t], monitors, t, keep, releases)
    decreases |s.stacks[t]|
  {
    if keep < |s.stacks[t]| {
      hide AllValid, AllEvolve, IsBlocked, AfterFrame, IsUnheard, NobodyIsForgotten, BelowFrame, IsQuiet;
      var n, top := |s.stacks[t]| - 1, Top(s.stacks[t]);
      BelowFrameFacts(w, s, t);
      var s1, next := BelowFrame(s, t), AfterFrame(monitors, top, t, ReleaseOf(releases, n));
      AfterFrameEvolves(monitors, top, t, ReleaseOf(releases, n));
      AfterFrameLength(monitors, top, t, ReleaseOf(releases, n));
      if IsUnheard(s, monitors, top, t) {
        UnheardForgets(w, s, s1, monitors, t, keep, releases);
      } else {
        FrameForgets(w, s, s1, monitors, t, ReleaseOf(releases, n));
        UnwindForgetsIff(w, s1, next, t, keep, releases);
        SameUnheard(s, s1, s.stacks[t][..n], next, t, keep, releases);
      }
    }
  }

  lemma UnheardForgets(w: Classes, s: State, s1: State, monitors: seq<Monitor>, t: nat, keep: nat,
                       releases: map<nat, nat>)
    requires s.Shaped(w) && t < |s.stacks| && s.stacks[t] != [] && s1.Shaped(w)
    requires |s1.stacks| == |s.stacks| && forall u | 0 <= u < |s.stacks| && u != t :: s1.stacks[u] == s.stacks[u]
    requires s1.stacks[t] == s.stacks[t][..|s.stacks[t]| - 1]
    requires IsUnheard(s, monitors, Top(s.stacks[t]), t)
    requires var c := Top(s.stacks[t]).clazz; c < |s.initThread| && s1.initThread == s.initThread[c := None]
    ensures var n := |s.stacks[t]| - 1;
            var next := AfterFrame(monitors, Top(s.stacks[t]), t, ReleaseOf(releases, n));
            !NobodyIsForgotten(Unwind(w, s1, t, keep), Unwound(s1.stacks[t], next, t, keep, releases))
  {
    hide NobodyIsForgotten, Unwind, Unwound;
    var n, top := |s.stacks[t]| - 1, Top(s.stacks[t]);
    var u: nat :| u != t && WaitsFor(s, monitors, u, top.clazz);
    SameWaiters(s, s1, monitors, t, u, top.clazz);
    StaysForgotten(w, s1, AfterFrame(monitors, top, t, ReleaseOf(releases, n)), t, keep, releases, u, top.clazz);
  }

  /** Only the stacks of other threads matter. */
  lemma {:induction false} SameUnheard(s: State, s1: State, stack: seq<Frame>, monitors: seq<Monitor>, t: nat,
                                       keep: nat, releases: map<nat, nat>)
    requires |s1.stacks| == |s.stacks| && forall u | 0 <= u < |s.stacks| && u != t :: s1.stacks[u] == s.stacks[u]
    ensures UnwindsUnheard(s, stack, monitors, t, keep, releases)
            <==> UnwindsUnheard(s1, stack, monitors, t, keep, releases)
    decreases |stack|
  {
    if keep < |stack| {
      var n := |stack| - 1;
      SameUnheardFrame(s, s1, stack[n], monitors, t);
      hide AfterFrame, IsUnheard;
      SameUnheard(s, s1, stack[..n], AfterFrame(monitors, stack[n], t, ReleaseOf(releases, n)), t, keep, releases);
    }
  }

  lemma SameUnheardFrame(s: State, s1: State, top: Frame, monitors: seq<Monitor>, t: nat)
    requires |s1.stacks| == |s.stacks| && forall u | 0 <= u < |s.stacks| && u != t :: s1.stacks[u] == s.stacks[u]
    ensures IsUnheard(s, monitors, top, t) <==> IsUnheard(s1, monitors, top, t)
  {
    if top.Init? {
      forall u: nat | u != t
        ensures WaitsFor(s, monitors, u, top.clazz) <==> WaitsFor(s1, monitors, u, top.clazz)
      {
        SameWaiters(s, s1, monitors, t, u, top.clazz);
      }
    }
  }

  /** A use of monitors that ends an initialization only when nobody waits for it. */
  lemma ForgetsNobody(s: State, s': State, monitors: seq<Monitor>, monitors': seq<Monitor>, t: nat)
    requires NobodyIsForgotten(s, monitors) && AllEvolve(monitors, monitors', t)
    requires |s'.stacks| == |s.stacks| && |s'.initThread| == |s.initThread| == |monitors|
    requires forall u | 0 <= u < |s.stacks| && u != t :: s'.stacks[u] == s.stacks[u]
    requires forall c | 0 <= c < |monitors| && s'.initThread[c].None? ::
               s.initThread[c].None? || monitors'[c].waiting == []
    requires forall c: nat | WaitsFor(s', monitors', t, c) :: c < |s.initThread| && s'.initThread[c].Some?
    ensures NobodyIsForgotten(s', monitors')
  {
    forall u: nat, c: nat | WaitsFor(s', monitors', u, c)
      ensures c < |s'.initThread| && s'.initThread[c].Some?
    {
      if u != t {
        assert KeepsOther(monitors[c], monitors'[c], u) && WaitsFor(s, monitors, u, c);
      }
    }
  }

  /** A call of runClinit forgets nobody by itself. */
  lemma UseForgetsNobody(x: System, s': State, c: nat, m: Monitor, t: nat)
    requires Orderly(x) && |x.s.initThread| == |x.s.status| && NobodyIsForgotten(x.s, x.monitors)
    requires t < |x.s.stacks| && c < |x.monitors| && HasUsed(x.s, s', t, c, x.monitors[c], m)
    requires !IsBlocked(x.monitors, t)
    ensures NobodyIsForgotten(s', x.monitors[c := m])
  {
    hide NobodyIsForgotten, AllEvolve, Evolves, ThreadOk;
    OneEvolves(x.monitors, c, m, t);
    NotWaiting(x.s, s', x.monitors, t);
    assert forall d: nat | d != c :: WaitsFor(s', x.monitors[c := m], t, d) ==> WaitsFor(s', x.monitors, t, d);
    forall d: nat | WaitsFor(s', x.monitors[c := m], t, d)
      ensures d < |x.s.initThread| && s'.initThread[d].Some?
    {
    }
    ForgetsNobody(x.s, s', x.monitors, x.monitors[c := m], t);
  }

  /** The outcome of the step before its exception, if there is one. */
  function OutcomeOf(w: Classes, x: System, a: Action): Outcome
    requires x.s.Shaped(w) && |x.monitors| == |x.s.status| && CanAct(w, x, a)
  {
    match a
    case TouchClass(t, c, verifies, _, _) => InitializeClass(w, x.s, t, c, verifies)
    case GoOn(t, verifies, _, _) =>
      if t in x.interrupted then Outcome(x.s, true)
      else RunClinit(w, x.s, t, UseOf(w, x, t).enter, UseOf(w, x, t).exit, verifies)
    case _ => Outcome(x.s, a.Raise?)
  }

  function MonitorsOf(w: Classes, x: System, a: Action): seq<Monitor>
    requires x.s.Shaped(w) && |x.monitors| == |x.s.status| && CanAct(w, x, a)
  {
    if a.GoOn? && a.thread !in x.interrupted then
      assert FrameOk(w, Top(x.s.stacks[a.thread]));
      x.monitors[Top(x.s.stacks[a.thread]).clazz := UseOf(w, x, a.thread).monitor]
    else x.monitors
  }

  /** The action raises an exception that leaves a call whose class monitor another thread has, while somebody waits. */
  ghost predicate FailsUnheard(w: Classes, x: System, a: Action)
    requires x.s.Shaped(w) && |x.monitors| == |x.s.status| && CanAct(w, x, a)
  {
    && (a.TouchClass? || a.GoOn? || a.Raise?) && OutcomeOf(w, x, a).raised
    && a.thread < |OutcomeOf(w, x, a).s.stacks|
    && UnwindsUnheard(OutcomeOf(w, x, a).s, OutcomeOf(w, x, a).s.stacks[a.thread], MonitorsOf(w, x, a), a.thread,
                      a.keep, a.releases)
  }

  lemma CodeIsQuiet(w: Classes, s: State, t: nat)
    requires Inv(w, s) && t < |s.stacks| && RunsCode(s.stacks[t])
    ensures IsQuiet(s.stacks[t])
  {
    hide StackOk, TopDone, OwnersOk, StartedOk;
    BelowIsQuiet(w, s.stacks[t]);
  }

  lemma RaiseForgetsIff(w: Classes, x: System, a: Action)
    requires Sound(w, x) && CanAct(w, x, a) && a.Raise? && NobodyIsForgotten(x.s, x.monitors)
    ensures var x' := After(w, x, a); NobodyIsForgotten(x'.s, x'.monitors) <==> !FailsUnheard(w, x, a)
  {
    hide StackOk, TopDone, OwnersOk, StartedOk, ThreadOk, AllValid, IsBlocked, NobodyIsForgotten, Unwind, Unwound,
      UnwindsUnheard;
    CodeIsQuiet(w, x.s, a.thread);
    UnwindForgetsIff(w, x.s, x.monitors, a.thread, a.keep, a.releases);
  }

  lemma TouchForgetsIff(w: Classes, x: System, a: Action)
    requires Sound(w, x) && CanAct(w, x, a) && a.TouchClass? && NobodyIsForgotten(x.s, x.monitors)
    ensures var x' := After(w, x, a); NobodyIsForgotten(x'.s, x'.monitors) <==> !FailsUnheard(w, x, a)
  {
    hide StackOk, TopDone, OwnersOk, StartedOk, ThreadOk, AllValid, AllEvolve, NobodyIsForgotten, Unwind, Unwound,
      UnwindsUnheard, Monitor.IsQueued, Monitor.IsWaiting;
    var t, c := a.thread, a.clazz;
    CodeIsQuiet(w, x.s, t);
    InitializeClassShaped(w, x.s, t, c, a.verifies);
    TouchOthers(w, x.s, t, c, a.verifies);
    var out := InitializeClass(w, x.s, t, c, a.verifies);
    assert out.raised ==> out.s.stacks == x.s.stacks;
    AllEvolveThemselves(x.monitors, t);
    NotWaiting(x.s, out.s, x.monitors, t);
    ForgetsNobody(x.s, out.s, x.monitors, x.monitors, t);
    if out.raised {
      UnwindForgetsIff(w, out.s, x.monitors, t, a.keep, a.releases);
    }
  }

  lemma NotWaiting(s: State, s': State, monitors: seq<Monitor>, t: nat)
    requires !IsBlocked(monitors, t)
    ensures forall c: nat :: !WaitsFor(s', monitors, t, c)
  {
    forall c: nat
      ensures !WaitsFor(s', monitors, t, c)
    {
      if c < |monitors| {
        assert !monitors[c].IsQueued(t);
      }
    }
  }

  lemma GoOnForgetsIff(w: Classes, x: System, a: Action)
    requires Sound(w, x) && CanAct(w, x, a) && a.GoOn? && !MeetsInterrupt(x, a) && NobodyIsForgotten(x.s, x.monitors)
    ensures var x' := After(w, x, a); NobodyIsForgotten(x'.s, x'.monitors) <==> !FailsUnheard(w, x, a)
  {
    hide StackOk, TopDone, OwnersOk, StartedOk, ThreadOk, AllEvolve, Evolves, NobodyIsForgotten, Unwind,
      Unwound, UnwindsUnheard, Using, Monitor.IsQueued, Monitor.IsWaiting, Monitor.Valid;
    var t := a.thread;
    var use, top := UseOf(w, x, t), Top(x.s.stacks[t]);
    assert FrameOk(w, top);
    if ResumesAt(x.s, t) != 0 {
      OwnsAtStep(x, t);
    }
    assert !x.monitors[top.clazz].IsQueued(t);
    RunUses(w, x.s, t, a.verifies, x.monitors[top.clazz]);
    RunClinitKeeps(w, x.s, t, use.enter, use.exit, a.verifies);
    RunClinitShaped(w, x.s, t, use.enter, use.exit, a.verifies);
    var out := RunClinit(w, x.s, t, use.enter, use.exit, a.verifies);
    UseForgetsNobody(x, out.s, top.clazz, use.monitor, t);
    hide RunClinit, UseOf;
    if out.raised {
      OneEvolves(x.monitors, top.clazz, use.monitor, t);
      BelowIsQuiet(w, x.s.stacks[t]);
      RaisedIsQuiet(x.s.stacks[t], out.s.stacks[t]);
      UnwindForgetsIff(w, out.s, MonitorsOf(w, x, a), t, a.keep, a.releases);
    }
  }

  lemma RaisedIsQuiet(before: seq<Frame>, after: seq<Frame>)
    requires before != [] && |after| == |before| && after[..|after| - 1] == before[..|after| - 1]
    requires Top(after).Init? && Top(after).step == 4
    requires forall i | 0 <= i < |before| - 1 && before[i].Init? :: before[i].step in {4, 5}
    ensures IsQuiet(after)
  {
    forall i | 0 <= i < |after| && after[i].Init?
      ensures after[i].step in {4, 5}
    {
      if i < |after| - 1 {
        assert after[i] == after[..|after| - 1][i] == before[i];
      }
    }
  }

  lemma ProgramForgetsNobody(w: Classes, x: System, a: Action)
    requires Sound(w, x) && CanAct(w, x, a) && !a.GoOn? && !a.Raise? && !a.TouchClass?
    requires NobodyIsForgotten(x.s, x.monitors)
    ensures var x' := After(w, x, a); NobodyIsForgotten(x'.s, x'.monitors)
  {
    hide StackOk, TopDone, OwnersOk, StartedOk, ThreadOk, AllEvolve, Evolves, NobodyIsForgotten, Monitor.IsQueued,
      Monitor.IsWaiting, Monitor.Valid, Monitor.Enter, Monitor.Exit, Monitor.Wait, Monitor.Notify, Monitor.Interrupt;
    var t, x' := a.thread, After(w, x, a);
    if a.CallMethod? || a.ReturnFrom? {
      AllEvolveThemselves(x.monitors, t);
      NotWaiting(x.s, x'.s, x.monitors, t);
    } else {
      MonitorEvolves(w, x, a);
      OneEvolves(x.monitors, a.clazz, x'.monitors[a.clazz], t);
    }
    ForgetsNobody(x.s, x'.s, x.monitors, x'.monitors, t);
  }

  /** A program's use of a monitor leaves no thread waiting in a call of runClinit that was not. */
  lemma MonitorEvolves(w: Classes, x: System, a: Action)
    requires Sound(w, x) && CanAct(w, x, a)
    requires a.EnterMonitor? || a.ExitMonitor? || a.WaitOn? || a.NotifyOn? || a.Interrupt?
    ensures var x' := After(w, x, a);
            && x'.s == x.s && a.clazz < |x.monitors| && Evolves(x.monitors[a.clazz], x'.monitors[a.clazz], a.thread)
            && x'.monitors == x.monitors[a.clazz := x'.monitors[a.clazz]]
            && forall c: nat :: !WaitsFor(x'.s, x'.monitors, a.thread, c)
  {
    hide StackOk, TopDone, OwnersOk, StartedOk, AllEvolve, Evolves, NobodyIsForgotten, Monitor.HasEntry,
      Monitor.IsWaiting, Monitor.Valid, Monitor.Enter, Monitor.Exit, Monitor.Wait, Monitor.Notify, Monitor.Interrupt;
    var t, c := a.thread, a.clazz;
    var m := x.monitors[c];
    assert ThreadOk(x.s, x.monitors, x.interrupted, t);
    match a {
      case EnterMonitor(_, _) => EvolvesByEntering(m, t);
      case ExitMonitor(_, _) => EvolvesByLeaving(m, t);
      case WaitOn(_, _) => EvolvesByWaiting(m, t);
      case NotifyOn(_, _, all) => EvolvesByNotifying(m, t, all);
      case Interrupt(_, _, i) =>
        EvolvesByInterrupting(m, i);
    }
  }

  /** An action forgets somebody exactly if it fails unheard. */
  lemma ForgetsIff(w: Classes, x: System, a: Action)
    requires Sound(w, x) && CanAct(w, x, a) && !MeetsInterrupt(x, a) && NobodyIsForgotten(x.s, x.monitors)
    ensures var x' := After(w, x, a); NobodyIsForgotten(x'.s, x'.monitors) <==> !FailsUnheard(w, x, a)
  {
    hide After, Orderly, CanAct, NobodyIsForgotten, UnwindsUnheard;
    match a {
      case TouchClass(_, _, _, _, _) => TouchForgetsIff(w, x, a);
      case GoOn(_, _, _, _) => GoOnForgetsIff(w, x, a);
      case Raise(_, _, _) => RaiseForgetsIff(w, x, a);
      case _ => ProgramForgetsNobody(w, x, a);
    }
  }
}
