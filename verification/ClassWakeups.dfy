/**
 * Class initialization with the class monitors as they are (class.c, thread.c): how a thread finds a monitor is no
 * longer a matter of chance, and threads wait in queues until somebody wakes them up.
 */
module ClassWakeups {

  import opened ClassInitialization
  import opened ClassInitializationSafety
  import opened ClassMonitors
  import opened Options

  /** The machine, the monitor of each class, and the threads that an interrupt has taken from a queue. */
  datatype System = System(s: State, monitors: seq<Monitor>, interrupted: set<nat>)

  predicate IsBlocked(monitors: seq<Monitor>, t: nat) {
    exists c :: 0 <= c < |monitors| && monitors[c].IsQueued(t)
  }

  /** How a call of runClinit finds the monitor before steps 2 and 9, and what becomes of it. */
  datatype Use = Use(enter: Lock, exit: Lock, monitor: Monitor)

  /** Case 5. */
  function Finishing(m: Monitor, t: nat): Use {
    if !m.Exists() then Use(Free, Free, m)
    else if m.IsForeign(t) then Use(Free, Awaited, m.Enter(t))
    else Use(Free, Obtained, m.WakeAll(t))
  }

  /** Case 4. */
  function RunningMethod(w: Classes, c: nat, m: Monitor, t: nat): Use
    requires w.Valid() && c < |w.superOf|
  {
    if w.hasClinit[c] then Use(Free, Free, m) else Finishing(m, t)
  }

  /** markClass, with the monitor if haveMonitor is set. */
  function Marking(w: Classes, s: State, t: nat, c: nat, m: Monitor, haveMonitor: bool): Use
    requires s.Shaped(w) && c < |s.status|
  {
    var released := if haveMonitor then m.Exit() else m;
    var super := NeededSuper(w, c);
    if s.initThread[c] == Some(t) || s.status[c] == Ready || s.status[c] == Error then Use(Free, Free, released)
    else if super.Some? && s.status[super.value] != Ready then Use(Free, Free, released)
    else RunningMethod(w, c, released, t)
  }

  /** Case 2, with the monitor. */
  function Entered(w: Classes, s: State, t: nat, c: nat, m: Monitor): Use
    requires s.Shaped(w) && c < |s.status|
  {
    if s.initThread[c].Some? && s.initThread[c] != Some(t) then Use(Obtained, Free, m.Wait(t))
    else Marking(w, s, t, c, m, true).(enter := Obtained)
  }

  /** The whole switch. */
  function Using(w: Classes, s: State, t: nat, c: nat, step: nat, m: Monitor): Use
    requires s.Shaped(w) && c < |s.status|
  {
    if step == 1 then
      if !m.Exists() && s.initThread[c] == None then Marking(w, s, t, c, m, false)
      else if m.IsForeign(t) then Use(Awaited, Free, m.Enter(t))
      else Entered(w, s, t, c, m.Enter(t))
    else if step == 2 then Entered(w, s, t, c, m)
    else if step == 4 then RunningMethod(w, c, m, t)
    else if step == 5 then Finishing(m, t)
    else Use(Free, Obtained, m.Notify(true).Exit())
  }

  /**
   * The monitors after an exception has left the topmost frame of a thread: runClinitException wakes everybody up
   * unless the monitor has another owner; a synchronized method gives its monitor back.
   */
  function AfterFrame(monitors: seq<Monitor>, top: Frame, t: nat, release: Option<nat>): seq<Monitor> {
    if top.Init? then
      if top.step in {1, 4, 5} && top.clazz < |monitors| && monitors[top.clazz].Exists()
         && !monitors[top.clazz].IsForeign(t)
      then monitors[top.clazz := monitors[top.clazz].WakeAll(t)] else monitors
    else if release.Some? && release.value < |monitors| && monitors[release.value].owner == Some(t)
    then monitors[release.value := monitors[release.value].Exit()] else monitors
  }

  /** What the frame at position i of the stack has locked. */
  function ReleaseOf(releases: map<nat, nat>, i: nat): Option<nat> {
    if i in releases then Some(releases[i]) else None
  }

  /** The monitors after an exception has unwound all frames but the first `keep`. */
  function Unwound(stack: seq<Frame>, monitors: seq<Monitor>, t: nat, keep: nat, releases: map<nat, nat>)
    : seq<Monitor>
  {
    if |stack| <= keep then monitors
    else
      var n := |stack| - 1;
      Unwound(stack[..n], AfterFrame(monitors, stack[n], t, ReleaseOf(releases, n)), t, keep, releases)
  }

  /**
   * What may happen next; `releases` are the monitors of the synchronized methods that an exception unwinds. Programs
   * may use the monitors of classes as well, and interrupt threads that wait for a notification.
   */
  datatype Action =
    | TouchClass(thread: nat, clazz: nat, verifies: bool, keep: nat, releases: map<nat, nat>)
    | GoOn(thread: nat, verifies: bool, keep: nat, releases: map<nat, nat>)
    | CallMethod(thread: nat)
    | ReturnFrom(thread: nat)
    | Raise(thread: nat, keep: nat, releases: map<nat, nat>)
    | EnterMonitor(thread: nat, clazz: nat)
    | ExitMonitor(thread: nat, clazz: nat)
    | WaitOn(thread: nat, clazz: nat)
    | NotifyOn(thread: nat, clazz: nat, all: bool)
    | Interrupt(thread: nat, clazz: nat, i: nat)

  /** How the topmost call of runClinit of the thread uses the monitor of its class. */
  function UseOf(w: Classes, x: System, t: nat): Use
    requires x.s.Shaped(w) && |x.monitors| == |x.s.status|
    requires t < |x.s.stacks| && x.s.stacks[t] != [] && Top(x.s.stacks[t]).Init?
  {
    var top := Top(x.s.stacks[t]);
    assert FrameOk(w, top);
    Using(w, x.s, t, top.clazz, top.step, x.monitors[top.clazz])
  }

  /** The machine alone sees this event; programs that use monitors do not touch it. */
  function EventOf(w: Classes, x: System, a: Action): Option<Event>
    requires x.s.Shaped(w) && |x.monitors| == |x.s.status|
  {
    match a
    case TouchClass(t, c, verifies, keep, _) => Some(Touch(t, c, verifies, keep))
    case GoOn(t, verifies, keep, _) =>
      if t < |x.s.stacks| && x.s.stacks[t] != [] && Top(x.s.stacks[t]).Init?
      then Some(Run(t, UseOf(w, x, t).enter, UseOf(w, x, t).exit, verifies, keep)) else None
    case CallMethod(t) => Some(Call(t))
    case ReturnFrom(t) => Some(Return(t))
    case Raise(t, keep, _) => Some(Throw(t, keep))
    case _ => None
  }

  /** Blocked threads do nothing, and an interrupted one has its exception first. */
  predicate CanAct(w: Classes, x: System, a: Action)
    requires x.s.Shaped(w) && |x.monitors| == |x.s.status|
  {
    var t := a.thread;
    && !x.s.fatal && t < |x.s.stacks|
    && if a.Interrupt? then
         a.clazz < |x.monitors| && a.i < |x.monitors[a.clazz].waiting| && x.monitors[a.clazz].waiting[a.i].thread == t
       else
         && !IsBlocked(x.monitors, t) && (t in x.interrupted ==> a.Raise? || a.GoOn?)
         && match a
            case EnterMonitor(_, c) => RunsCode(x.s.stacks[t]) && c < |x.monitors|
            case ExitMonitor(_, c) => RunsCode(x.s.stacks[t]) && c < |x.monitors| && x.monitors[c].owner == Some(t)
            case WaitOn(_, c) => RunsCode(x.s.stacks[t]) && c < |x.monitors| && x.monitors[c].owner == Some(t)
            case NotifyOn(_, c, _) => RunsCode(x.s.stacks[t]) && c < |x.monitors| && x.monitors[c].owner == Some(t)
            case _ => EventOf(w, x, a).Some? && Enabled(x.s, EventOf(w, x, a).value)
  }

  function WithMonitor(x: System, c: nat, m: Monitor): System
    requires c < |x.monitors|
  {
    x.(monitors := x.monitors[c := m])
  }

  /** The state and the monitors after a step that may have raised an exception. */
  function Settled(w: Classes, x: System, out: Outcome, monitors: seq<Monitor>, t: nat, keep: nat,
                   releases: map<nat, nat>): System
    requires out.s.Shaped(w) && t < |out.s.stacks|
  {
    if out.raised
    then x.(s := Unwind(w, out.s, t, keep), monitors := Unwound(out.s.stacks[t], monitors, t, keep, releases))
    else x.(s := out.s, monitors := monitors)
  }

  /** The system after an action. */
  function After(w: Classes, x: System, a: Action): System
    requires x.s.Shaped(w) && |x.monitors| == |x.s.status| && CanAct(w, x, a)
  {
    match a
    case TouchClass(t, c, verifies, keep, releases) =>
      InitializeClassShaped(w, x.s, t, c, verifies);
      Settled(w, x, InitializeClass(w, x.s, t, c, verifies), x.monitors, t, keep, releases)
    case GoOn(t, verifies, keep, releases) =>
      if t in x.interrupted then
        Settled(w, x, Outcome(x.s, true), x.monitors, t, keep, releases).(interrupted := x.interrupted - {t})
      else
        var use := UseOf(w, x, t);
        RunClinitShaped(w, x.s, t, use.enter, use.exit, verifies);
        assert FrameOk(w, Top(x.s.stacks[t]));
        Settled(w, x, RunClinit(w, x.s, t, use.enter, use.exit, verifies),
                x.monitors[Top(x.s.stacks[t]).clazz := use.monitor], t, keep, releases)
    case CallMethod(t) => x.(s := x.s.Push(t, Code))
    case ReturnFrom(t) => x.(s := x.s.Pop(t))
    case Raise(t, keep, releases) =>
      Settled(w, x, Outcome(x.s, true), x.monitors, t, keep, releases).(interrupted := x.interrupted - {t})
    case EnterMonitor(t, c) => WithMonitor(x, c, x.monitors[c].Enter(t))
    case ExitMonitor(_, c) => WithMonitor(x, c, x.monitors[c].Exit())
    case WaitOn(t, c) => WithMonitor(x, c, x.monitors[c].Wait(t))
    case NotifyOn(_, c, all) => WithMonitor(x, c, x.monitors[c].Notify(all))
    case Interrupt(t, c, i) =>
      WithMonitor(x, c, x.monitors[c].Interrupt(i)).(interrupted := x.interrupted + {t})
  }

  lemma {:induction false} UnwoundLength(stack: seq<Frame>, monitors: seq<Monitor>, t: nat, keep: nat,
                                         releases: map<nat, nat>)
    ensures |Unwound(stack, monitors, t, keep, releases)| == |monitors|
    decreases |stack|
  {
    hide AfterFrame;
    if keep < |stack| {
      var n := |stack| - 1;
      AfterFrameLength(monitors, stack[n], t, ReleaseOf(releases, n));
      UnwoundLength(stack[..n], AfterFrame(monitors, stack[n], t, ReleaseOf(releases, n)), t, keep, releases);
    }
  }

  lemma AfterFrameLength(monitors: seq<Monitor>, top: Frame, t: nat, release: Option<nat>)
    ensures |AfterFrame(monitors, top, t, release)| == |monitors|
  {
  }

  /**
   * The machine of the system is the machine of which safety has been proved: every action is one of its events or
   * none, with the locks that the monitors tell. An interrupted thread is the exception.
   */
  lemma AfterRefinesNext(w: Classes, x: System, a: Action)
    requires x.s.Shaped(w) && |x.monitors| == |x.s.status| && CanAct(w, x, a)
    requires a.GoOn? ==> a.thread !in x.interrupted
    ensures After(w, x, a).s == if EventOf(w, x, a).Some? then Next(w, x.s, EventOf(w, x, a).value) else x.s
  {
    hide Unwind, InitializeClass, RunClinit, Using, Unwound;
  }
}
