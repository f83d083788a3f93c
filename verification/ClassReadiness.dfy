/** A class becomes ready only after its <clinit> has been run, and a call that is over has decided on its class. */
module ClassReadiness {
  import opened ClassInitialization
  import opened ClassInitializationSafety
  import opened Options

  /** A frame that has step 9 ahead, for a class with a <clinit>: that has been started. */
  predicate PastStart(w: Classes, f: Frame, started: seq<nat>) {
    f.Init? && f.step >= 5 && f.clazz < |w.hasClinit| && w.hasClinit[f.clazz] ==> f.clazz in started
  }

  ghost predicate StackLogged(w: Classes, stack: seq<Frame>, started: seq<nat>) {
    forall i | 0 <= i < |stack| :: PastStart(w, stack[i], started)
  }

  /** No class with a <clinit> is ready while a thread is still initializing it. */
  ghost predicate ReadyUnmarked(w: Classes, s: State) {
    forall c | 0 <= c < |s.status| && c < |s.initThread| && c < |w.hasClinit| && w.hasClinit[c]
               && s.status[c] == Ready :: s.initThread[c] == None
  }

  ghost predicate Logged(w: Classes, s: State) {
    (forall t | 0 <= t < |s.stacks| :: StackLogged(w, s.stacks[t], s.started)) && ReadyUnmarked(w, s)
  }

  /** Whatever has a <clinit> and has become ready between the two states has been started. */
  ghost predicate NewReadyStarted(w: Classes, s': State, s: State) {
    && |s'.status| == |s.status|
    && forall c | 0 <= c < |s.status| && c < |w.hasClinit| && w.hasClinit[c] && s'.status[c] == Ready
                  && s.status[c] != Ready :: c in s'.started
  }

  /** What each operation keeps. */
  ghost predicate Advances(w: Classes, s': State, s: State) {
    Logged(w, s') && NewReadyStarted(w, s', s) && s.started <= s'.started
  }

  lemma AdvancesTwice(w: Classes, s2: State, s1: State, s: State)
    requires Advances(w, s2, s1) && Advances(w, s1, s)
    ensures Advances(w, s2, s)
  {
    hide Logged;
  }

  /** The frames of one thread change. */
  lemma StackAdvances(w: Classes, s': State, s: State, t: nat)
    requires Logged(w, s) && t < |s.stacks| == |s'.stacks| && s' == s.(stacks := s.stacks[t := s'.stacks[t]])
    requires StackLogged(w, s'.stacks[t], s.started)
    ensures Advances(w, s', s)
  {
    hide StackLogged;
  }

  lemma PushLogs(w: Classes, s: State, t: nat, f: Frame)
    requires Logged(w, s) && t < |s.stacks| && PastStart(w, f, s.started)
    ensures Advances(w, s.Push(t, f), s)
  {
    hide PastStart, ReadyUnmarked;
    assert StackLogged(w, s.stacks[t], s.started);
    StackAdvances(w, s.Push(t, f), s, t);
  }

  lemma PopLogs(w: Classes, s: State, t: nat)
    requires Logged(w, s) && t < |s.stacks| && s.stacks[t] != []
    ensures Advances(w, s.Pop(t), s)
  {
    hide PastStart, ReadyUnmarked;
    assert StackLogged(w, s.stacks[t], s.started);
    StackAdvances(w, s.Pop(t), s, t);
  }

  lemma ResumeLogs(w: Classes, s: State, t: nat, c: nat, step: nat)
    requires Logged(w, s) && t < |s.stacks| && s.stacks[t] != [] && PastStart(w, Init(c, step), s.started)
    ensures Advances(w, s.Resume(t, c, step), s)
  {
    hide PastStart, ReadyUnmarked;
    assert StackLogged(w, s.stacks[t], s.started);
    StackAdvances(w, s.Resume(t, c, step), s, t);
  }

  /** A class gets another status; a class with a <clinit> does not become ready by that. */
  lemma StatusLogs(w: Classes, s: State, c: nat, status: Status)
    requires Logged(w, s) && c < |s.status| && (status == Ready ==> c < |w.hasClinit| && !w.hasClinit[c])
    ensures Advances(w, s.(status := s.status[c := status]), s)
  {
    hide StackLogged;
  }

  lemma InitializeClassAdvances(w: Classes, s: State, t: nat, c: nat, verifies: bool)
    requires s.Shaped(w) && Logged(w, s) && t < |s.stacks| && c < |s.status|
    ensures Advances(w, InitializeClass(w, s, t, c, verifies).s, s)
  {
    hide Logged;
    StatusLogs(w, s, c, Error);
    StatusLogs(w, s, c, Verified);
    var verified := s.(status := s.status[c := Verified]);
    PushLogs(w, verified, t, Init(c, 1));
    AdvancesTwice(w, verified.Push(t, Init(c, 1)), verified, s);
    if !w.hasClinit[c] {
      StatusLogs(w, s, c, Ready);
    }
  }

  /** Step 9. */
  lemma UnmarkAdvances(w: Classes, s: State, t: nat, c: nat)
    requires s.Shaped(w) && Logged(w, s) && t < |s.stacks| && c < |s.status| && s.stacks[t] != []
    requires w.hasClinit[c] ==> c in s.started
    ensures Advances(w, Unmark(w, s, t, c), s)
  {
    hide StackLogged;
    var ready := s.(initThread := s.initThread[c := None], status := s.status[c := Ready]);
    assert Advances(w, ready, s);
    PopLogs(w, ready, t);
    AdvancesTwice(w, ready.Pop(t), ready, s);
  }

  lemma FinishAdvances(w: Classes, s: State, t: nat, c: nat, exit: Lock)
    requires s.Shaped(w) && Logged(w, s) && t < |s.stacks| && c < |s.status| && s.stacks[t] != []
    requires w.hasClinit[c] ==> c in s.started
    ensures Advances(w, Finish(w, s, t, c, exit), s)
  {
    hide Logged;
    ResumeLogs(w, s, t, c, 6);
    UnmarkAdvances(w, s, t, c);
  }

  lemma StartAdvances(w: Classes, s: State, c: nat)
    requires Logged(w, s)
    ensures Advances(w, s.(started := s.started + [c]), s)
  {
    var s' := s.(started := s.started + [c]);
    forall u, i | 0 <= u < |s'.stacks| && 0 <= i < |s'.stacks[u]|
      ensures PastStart(w, s'.stacks[u][i], s'.started)
    {
      assert StackLogged(w, s.stacks[u], s.started) && PastStart(w, s.stacks[u][i], s.started);
    }
  }

  /** Step 8. */
  lemma RunMethodAdvances(w: Classes, s: State, t: nat, c: nat, exit: Lock)
    requires s.Shaped(w) && Logged(w, s) && t < |s.stacks| && c < |s.status| && s.stacks[t] != []
    ensures Advances(w, RunMethod(w, s, t, c, exit), s)
  {
    hide Logged;
    if w.hasClinit[c] {
      var logged := s.(started := s.started + [c]);
      StartAdvances(w, s, c);
      assert c in logged.started by {
        assert logged.started[|s.started|] == c;
      }
      ResumeLogs(w, logged, t, c, 5);
      PushLogs(w, logged.Resume(t, c, 5), t, Clinit(c));
      AdvancesTwice(w, logged.Resume(t, c, 5), logged, s);
      AdvancesTwice(w, logged.Resume(t, c, 5).Push(t, Clinit(c)), logged.Resume(t, c, 5), s);
    } else {
      FinishAdvances(w, s, t, c, exit);
    }
  }

  /** Step 6: a class that is neither ready nor in error is marked. */
  lemma MarkAdvances(w: Classes, s: State, t: nat, c: nat)
    requires s.Shaped(w) && Logged(w, s) && c < |s.status| && s.status[c] != Ready
    ensures Advances(w, s.(initThread := s.initThread[c := Some(t)]), s)
  {
    hide StackLogged;
  }

  lemma MarkClassAdvances(w: Classes, s: State, t: nat, c: nat, exit: Lock, verifies: bool)
    requires s.Shaped(w) && Logged(w, s) && t < |s.stacks| && c < |s.status| && s.stacks[t] != []
    ensures Advances(w, MarkClass(w, s, t, c, exit, verifies).s, s)
  {
    hide Logged;
    PopLogs(w, s, t);
    if s.status[c] !in {Ready, Error} && s.initThread[c] != Some(t) {
      var taken := s.(initThread := s.initThread[c := Some(t)]);
      assert taken.Shaped(w);
      MarkAdvances(w, s, t, c);
      var super := NeededSuper(w, c);
      if super.Some? && s.status[super.value] != Ready {
        var resumed := taken.Resume(t, c, 4);
        ResumeShaped(w, taken, t, c, 4);
        ResumeLogs(w, taken, t, c, 4);
        InitializeClassAdvances(w, resumed, t, super.value, verifies);
        AdvancesTwice(w, resumed, taken, s);
        AdvancesTwice(w, InitializeClass(w, resumed, t, super.value, verifies).s, resumed, s);
      } else {
        RunMethodAdvances(w, taken, t, c, exit);
        AdvancesTwice(w, RunMethod(w, taken, t, c, exit), taken, s);
      }
    }
  }

  lemma RunClinitAdvances(w: Classes, s: State, t: nat, enter: Lock, exit: Lock, verifies: bool)
    requires s.Shaped(w) && Logged(w, s) && t < |s.stacks| && s.stacks[t] != [] && Top(s.stacks[t]).Init?
    ensures Advances(w, RunClinit(w, s, t, enter, exit, verifies).s, s)
  {
    var top := Top(s.stacks[t]);
    assert FrameOk(w, top) && StackLogged(w, s.stacks[t], s.started) && PastStart(w, top, s.started);
    hide Logged, StackLogged;
    ResumeLogs(w, s, t, top.clazz, 2);
    MarkClassAdvances(w, s, t, top.clazz, exit, verifies);
    RunMethodAdvances(w, s, t, top.clazz, exit);
    if top.step >= 5 {
      FinishAdvances(w, s, t, top.clazz, exit);
      UnmarkAdvances(w, s, t, top.clazz);
    }
  }

  lemma ExceptionAdvances(w: Classes, s: State, f: Frame)
    requires s.Shaped(w) && Logged(w, s) && f.Init? && FrameOk(w, f)
    ensures Advances(w, RunClinitException(w, s, f), s)
  {
    hide StackLogged;
  }

  lemma {:induction false} UnwindAdvances(w: Classes, s: State, t: nat, keep: nat)
    requires s.Shaped(w) && Logged(w, s) && t < |s.stacks|
    ensures Advances(w, Unwind(w, s, t, keep), s)
    decreases |s.stacks[t]|
  {
    hide Logged;
    if keep < |s.stacks[t]| {
      var top := Top(s.stacks[t]);
      assert FrameOk(w, top);
      var handled := if top.Init? then RunClinitException(w, s, top) else s;
      assert handled.Shaped(w);
      if top.Init? {
        ExceptionAdvances(w, s, top);
      }
      PopShaped(w, handled, t);
      PopLogs(w, handled, t);
      UnwindAdvances(w, handled.Pop(t), t, keep);
      AdvancesTwice(w, handled.Pop(t), handled, s);
      AdvancesTwice(w, Unwind(w, s, t, keep), handled.Pop(t), s);
    }
  }

  lemma SettleAdvances(w: Classes, out: Outcome, s: State, t: nat, keep: nat)
    requires out.s.Shaped(w) && t < |out.s.stacks| && Advances(w, out.s, s)
    ensures Advances(w, Settle(w, out, t, keep), s)
  {
    hide Logged, Unwind, NewReadyStarted;
    if out.raised {
      UnwindAdvances(w, out.s, t, keep);
      AdvancesTwice(w, Unwind(w, out.s, t, keep), out.s, s);
    }
  }

  lemma NextAdvances(w: Classes, s: State, e: Event)
    requires s.Shaped(w) && Logged(w, s)
    ensures Advances(w, Next(w, s, e), s)
  {
    hide Logged, InitializeClass, RunClinit, Unwind, Settle;
    if Enabled(s, e) {
      var t := e.thread;
      match e {
        case Touch(_, c, verifies, keep) =>
          InitializeClassShaped(w, s, t, c, verifies);
          InitializeClassAdvances(w, s, t, c, verifies);
          SettleAdvances(w, InitializeClass(w, s, t, c, verifies), s, t, keep);
        case Run(_, enter, exit, verifies, keep) =>
          RunClinitShaped(w, s, t, enter, exit, verifies);
          RunClinitAdvances(w, s, t, enter, exit, verifies);
          SettleAdvances(w, RunClinit(w, s, t, enter, exit, verifies), s, t, keep);
        case Call(_) =>
          PushLogs(w, s, t, Code);
        case Return(_) =>
          PopLogs(w, s, t);
        case Throw(_, keep) =>
          UnwindAdvances(w, s, t, keep);
      }
    }
  }

  /** The <clinit> of class c has been started, and no thread is in it any more. */
  ghost predicate ClinitIsOver(s: State, c: nat) {
    && c in s.started
    && forall t, i | 0 <= t < |s.stacks| && 0 <= i < |s.stacks[t]| :: s.stacks[t][i] != Clinit(c)
  }

  /** A thread that is in a <clinit> is initializing the class. */
  lemma ClinitIsMarked(w: Classes, s: State, t: nat, i: nat, c: nat)
    requires Inv(w, s) && t < |s.stacks| && i < |s.stacks[t]| && s.stacks[t][i] == Clinit(c)
    ensures c < |s.initThread| && s.initThread[c] == Some(t)
  {
    hide OwnersOk, StartedOk, TopDone;
    assert FrameOk(w, s.stacks[t][i]);
    assert StackOk(w, s.stacks[t]);
    assert i > 0 && Link(w, s.stacks[t][i - 1], s.stacks[t][i - 1 + 1]);
    OnlyOwner(w, s, t, c, i - 1);
  }

  lemma UnmarkedIsOver(w: Classes, s: State, c: nat)
    requires Inv(w, s) && c < |s.initThread| && s.initThread[c] == None && c in s.started
    ensures ClinitIsOver(s, c)
  {
    hide Inv;
    forall t, i | 0 <= t < |s.stacks| && 0 <= i < |s.stacks[t]|
      ensures s.stacks[t][i] != Clinit(c)
    {
      if s.stacks[t][i] == Clinit(c) {
        ClinitIsMarked(w, s, t, i, c);
      }
    }
  }

  /** Whatever event makes a class with a <clinit> ready: the method has been started, and it is over. */
  lemma ReadyAfterClinit(w: Classes, s: State, e: Event)
    requires Inv(w, s) && Logged(w, s)
    ensures s.Shaped(w) && Logged(w, Next(w, s, e))
    ensures var s' := Next(w, s, e);
            && |s'.status| == |s.status| == |w.hasClinit|
            && forall c | 0 <= c < |s.status| && w.hasClinit[c] && s'.status[c] == Ready && s.status[c] != Ready ::
                 ClinitIsOver(s', c)
  {
    hide StackOk, TopDone, OwnersOk, StartedOk, Next, ClinitIsOver;
    NextAdvances(w, s, e);
    NextKeeps(w, s, e);
    var s' := Next(w, s, e);
    forall c | 0 <= c < |s.status| && w.hasClinit[c] && s'.status[c] == Ready && s.status[c] != Ready
      ensures ClinitIsOver(s', c)
    {
      UnmarkedIsOver(w, s', c);
    }
  }

  lemma InitialLogged(w: Classes, s: State)
    requires Initial(w, s)
    ensures Logged(w, s)
  {
  }

  lemma {:induction false} RunAdvances(w: Classes, s: State, events: seq<Event>)
    requires s.Shaped(w) && Logged(w, s)
    ensures Advances(w, Execute(w, s, events), s)
    decreases |events|
  {
    hide Logged, Next;
    if events != [] {
      NextShaped(w, s, events[0]);
      NextAdvances(w, s, events[0]);
      RunAdvances(w, Next(w, s, events[0]), events[1..]);
      AdvancesTwice(w, Execute(w, s, events), Next(w, s, events[0]), s);
    }
  }

  /** After every run, each class with a <clinit> that has become ready has run it, to its end. */
  lemma ReadyMeansInitialized(w: Classes, s: State, events: seq<Event>)
    requires Initial(w, s)
    ensures s.Shaped(w)
    ensures var s' := Execute(w, s, events);
            && |s'.status| == |s.status| == |w.hasClinit|
            && forall c | 0 <= c < |s.status| && w.hasClinit[c] && s'.status[c] == Ready && s.status[c] != Ready ::
                 ClinitIsOver(s', c)
  {
    InitialInv(w, s);
    InitialLogged(w, s);
    RunAdvances(w, s, events);
    EveryRunKeeps(w, s, events);
    hide StackOk, TopDone, OwnersOk, StartedOk, Execute, ClinitIsOver;
    var s' := Execute(w, s, events);
    forall c | 0 <= c < |s.status| && w.hasClinit[c] && s'.status[c] == Ready && s.status[c] != Ready
      ensures ClinitIsOver(s', c)
    {
      UnmarkedIsOver(w, s', c);
    }
  }

  /** Nobody is initializing the class, and it cannot be used. */
  predicate HasFailed(s: State, c: nat) {
    c < |s.status| && c < |s.initThread| && s.status[c] == Error && s.initThread[c] == None
  }

  lemma {:induction false} FailureStays(w: Classes, s: State, t: nat, keep: nat, c: nat)
    requires s.Shaped(w) && t < |s.stacks| && c < |s.status|
    ensures Unwind(w, s, t, keep).Shaped(w)
    ensures s.status[c] == Error ==> Unwind(w, s, t, keep).status[c] == Error
    ensures s.initThread[c] == None ==> Unwind(w, s, t, keep).initThread[c] == None
    decreases |s.stacks[t]|
  {
    if keep < |s.stacks[t]| {
      var top := Top(s.stacks[t]);
      assert FrameOk(w, top);
      var handled := if top.Init? then RunClinitException(w, s, top) else s;
      assert handled.Shaped(w);
      PopShaped(w, handled, t);
      FailureStays(w, handled.Pop(t), t, keep, c);
    }
  }

  /** The topmost frame is unwound. */
  ghost predicate UnwoundOnce(w: Classes, s1: State, s: State, t: nat)
    requires t < |s.stacks| && s.stacks[t] != []
  {
    && s1.Shaped(w) && InvBut(w, s1, t) && s1.stacks == s.stacks[t := s.stacks[t][..|s.stacks[t]| - 1]]
    && HandedOver(s1.stacks[t]) && (Top(s.stacks[t]).Init? ==> HasFailed(s1, Top(s.stacks[t]).clazz))
  }

  lemma UnwindingOnce(w: Classes, s: State, t: nat, keep: nat) returns (s1: State)
    requires InvBut(w, s, t) && HandedOver(s.stacks[t]) && keep < |s.stacks[t]|
    ensures UnwoundOnce(w, s1, s, t) && Unwind(w, s, t, keep) == Unwind(w, s1, t, keep)
  {
    var top := Top(s.stacks[t]);
    assert FrameOk(w, top);
    HandedOverBelow(w, s.stacks[t]);
    var handled := if top.Init? then RunClinitException(w, s, top) else s;
    if top.Init? {
      ReleaseKeeps(w, s, t, top.clazz, Error);
      assert handled == s.(initThread := s.initThread[top.clazz := None], status := s.status[top.clazz := Error]);
    } else {
      PopKeeps(w, s, t);
    }
    s1 := handled.Pop(t);
    UnwindOnce(w, s, t, keep, s1);
  }

  /** An exception leaves each class in error whose initialization it ends, and just the frames that catch it. */
  lemma {:induction false} ExceptionFails(w: Classes, s: State, t: nat, keep: nat)
    requires InvBut(w, s, t) && HandedOver(s.stacks[t]) && keep <= |s.stacks[t]|
    ensures var s' := Unwind(w, s, t, keep);
            && s'.stacks == s.stacks[t := s.stacks[t][..keep]]
            && forall i | keep <= i < |s.stacks[t]| && s.stacks[t][i].Init? :: HasFailed(s', s.stacks[t][i].clazz)
    decreases |s.stacks[t]|
  {
    var stack := s.stacks[t];
    if |stack| == keep {
      assert stack[..keep] == stack;
    } else {
      var s1 := UnwindingOnce(w, s, t, keep);
      hide InvBut, Unwind, State.Shaped, HandedOver;
      ExceptionFails(w, s1, t, keep);
      assert stack[..|stack| - 1][..keep] == stack[..keep];
      if Top(stack).Init? {
        FailureStays(w, s1, t, keep, Top(stack).clazz);
      }
    }
  }

  /** The class can be used, or it has failed, or the thread itself is initializing it. */
  predicate Decided(s: State, t: nat, c: nat) {
    c < |s.status| && c < |s.initThread| && (s.status[c] in {Ready, Error} || s.initThread[c] == Some(t))
  }

  /** A thread that uses a class finds it ready, starts to initialize it, or is thrown an exception. */
  lemma TouchDecides(w: Classes, s: State, e: Event)
    requires Inv(w, s) && Enabled(s, e) && e.Touch?
    ensures s.Shaped(w)
    ensures var s', t, c := Next(w, s, e), e.thread, e.clazz;
            && c < |s'.status|
            && ((s'.stacks == s.stacks && s'.status == s.status[c := Ready])
                || (s'.stacks == s.stacks[t := s.stacks[t] + [Init(c, 1)]] && s'.status == s.status[c := Verified])
                || (s'.stacks == s.stacks[t := s.stacks[t][..e.keep]] && s'.status[c] == Error
                    && (s.status[c] == Error || (s.status[c] == Raw && !e.verifies))))
  {
    var t, c := e.thread, e.clazz;
    InvOf(w, s, t);
    InitializeClassShaped(w, s, t, c, e.verifies);
    InitializeClassKeeps(w, s, t, c, e.verifies);
    var out := InitializeClass(w, s, t, c, e.verifies);
    InvOf(w, out.s, t);
    if out.raised {
      ExceptionFails(w, out.s, t, e.keep);
      FailureStays(w, out.s, t, e.keep, c);
    }
  }

  /** A call of runClinit that returns without an exception. */
  lemma ReturnDecides(w: Classes, s: State, e: Event)
    requires Inv(w, s) && Enabled(s, e) && e.Run? && s.Shaped(w)
    requires var out := RunClinit(w, s, e.thread, e.enter, e.exit, e.verifies);
             !out.raised && e.thread < |out.s.stacks| && |out.s.stacks[e.thread]| < |s.stacks[e.thread]|
    ensures Decided(RunClinit(w, s, e.thread, e.enter, e.exit, e.verifies).s, e.thread, Top(s.stacks[e.thread]).clazz)
  {
    assert FrameOk(w, Top(s.stacks[e.thread]));
  }

  /** However a call of runClinit ends, by its last step or by an exception: its class has been decided on. */
  lemma CallDecides(w: Classes, s: State, e: Event, i: nat)
    requires Inv(w, s) && Enabled(s, e) && i < |s.stacks[e.thread]| && s.stacks[e.thread][i].Init?
    ensures s.Shaped(w) && |Next(w, s, e).stacks| == |s.stacks|
    ensures |Next(w, s, e).stacks[e.thread]| <= i ==> Decided(Next(w, s, e), e.thread, s.stacks[e.thread][i].clazz)
  {
    var t := e.thread;
    InvOf(w, s, t);
    match e {
      case Touch(_, c, verifies, keep) =>
        InitializeClassShaped(w, s, t, c, verifies);
        InitializeClassKeeps(w, s, t, c, verifies);
        var out := InitializeClass(w, s, t, c, verifies);
        InvOf(w, out.s, t);
        if out.raised {
          ExceptionFails(w, out.s, t, keep);
        }
      case Run(_, enter, exit, verifies, keep) =>
        RunDecides(w, s, e, i);
      case Throw(_, keep) =>
        ExceptionFails(w, s, t, keep);
      case _ =>
    }
  }

  lemma RaisedBySuper(w: Classes, s: State, e: Event)
    requires Inv(w, s) && Enabled(s, e) && e.Run? && s.Shaped(w)
    requires RunClinit(w, s, e.thread, e.enter, e.exit, e.verifies).raised
    ensures var out, t := RunClinit(w, s, e.thread, e.enter, e.exit, e.verifies), e.thread;
            && t < |out.s.stacks| && |out.s.stacks[t]| == |s.stacks[t]|
            && out.s.stacks[t] == s.stacks[t][..|s.stacks[t]| - 1] + [Init(Top(s.stacks[t]).clazz, 4)]
  {
    assert FrameOk(w, Top(s.stacks[e.thread]));
  }

  lemma UnwoundDecides(w: Classes, s: State, stack: seq<Frame>, t: nat, keep: nat, i: nat)
    requires InvBut(w, s, t) && i < |stack| && stack[i].Init? && Top(stack).Init? && Catches(stack, keep)
    requires s.stacks[t] == stack[..|stack| - 1] + [Init(Top(stack).clazz, 4)]
    ensures var s' := Unwind(w, s, t, keep);
            |s'.stacks| == |s.stacks| && (|s'.stacks[t]| <= i ==> Decided(s', t, stack[i].clazz))
  {
    hide Unwind, Inv, StackOk, OwnersOk, StartedOk, TopDone;
    CatchesBelow(stack, s.stacks[t], keep);
    ExceptionFails(w, s, t, keep);
    assert s.stacks[t][i].Init? && s.stacks[t][i].clazz == stack[i].clazz;
  }

  /** A call that raises an exception is unwound like all others. */
  lemma RaisedDecides(w: Classes, s: State, e: Event, i: nat)
    requires Inv(w, s) && Enabled(s, e) && e.Run? && i < |s.stacks[e.thread]| && s.stacks[e.thread][i].Init?
    requires s.Shaped(w) && RunClinit(w, s, e.thread, e.enter, e.exit, e.verifies).raised
    ensures var out := RunClinit(w, s, e.thread, e.enter, e.exit, e.verifies);
            && out.s.Shaped(w) && |out.s.stacks| == |s.stacks|
            && var s' := Unwind(w, out.s, e.thread, e.keep);
               && |s'.stacks| == |s.stacks|
               && (|s'.stacks[e.thread]| <= i ==> Decided(s', e.thread, s.stacks[e.thread][i].clazz))
  {
    hide RunClinit, Unwind, InvBut, OwnersOk, StartedOk, StackOk, TopDone, Decided;
    var t := e.thread;
    RunClinitShaped(w, s, t, e.enter, e.exit, e.verifies);
    RunClinitKeeps(w, s, t, e.enter, e.exit, e.verifies);
    RaisedBySuper(w, s, e);
    var out := RunClinit(w, s, t, e.enter, e.exit, e.verifies);
    InvOf(w, out.s, t);
    UnwoundDecides(w, out.s, s.stacks[t], t, e.keep, i);
  }

  lemma RunDecides(w: Classes, s: State, e: Event, i: nat)
    requires Inv(w, s) && Enabled(s, e) && e.Run? && i < |s.stacks[e.thread]| && s.stacks[e.thread][i].Init?
    ensures s.Shaped(w) && |Next(w, s, e).stacks| == |s.stacks|
    ensures |Next(w, s, e).stacks[e.thread]| <= i ==> Decided(Next(w, s, e), e.thread, s.stacks[e.thread][i].clazz)
  {
    var t := e.thread;
    RunClinitShaped(w, s, t, e.enter, e.exit, e.verifies);
    var out := RunClinit(w, s, t, e.enter, e.exit, e.verifies);
    if out.raised {
      RaisedDecides(w, s, e, i);
    } else {
      OneFrameLess(w, s, e);
      if |out.s.stacks[t]| <= i {
        ReturnDecides(w, s, e);
      }
    }
  }

  lemma OneFrameLess(w: Classes, s: State, e: Event)
    requires Inv(w, s) && Enabled(s, e) && e.Run? && s.Shaped(w)
    requires !RunClinit(w, s, e.thread, e.enter, e.exit, e.verifies).raised
    ensures var out := RunClinit(w, s, e.thread, e.enter, e.exit, e.verifies);
            e.thread < |out.s.stacks| && |s.stacks[e.thread]| <= |out.s.stacks[e.thread]| + 1
  {
    assert FrameOk(w, Top(s.stacks[e.thread]));
  }

  /** A thread that has to wait changes nothing but the step from which it will go on. */
  lemma WaitingChangesNothing(w: Classes, s: State, e: Event)
    requires Inv(w, s) && Enabled(s, e) && e.Run? && s.Shaped(w)
    requires var top := Top(s.stacks[e.thread]);
             && top.clazz < |s.initThread|
             && var foreign := s.initThread[top.clazz].Some? && s.initThread[top.clazz] != Some(e.thread);
                || (top.step == 1 && e.enter == Awaited) || (top.step <= 2 && foreign)
                || (top.step == 5 && e.exit == Awaited)
    ensures var stack := s.stacks[e.thread];
            var next := Init(Top(stack).clazz, if Top(stack).step == 5 then 6 else 2);
            Next(w, s, e) == s.(stacks := s.stacks[e.thread := stack[..|stack| - 1] + [next]])
  {
    assert FrameOk(w, Top(s.stacks[e.thread]));
  }
}
