/** Whole runs of class initialization with monitors: forgotten threads, and interrupts that stop the machine. */
module ForgottenRuns {

  import opened ClassInitialization
  import opened ClassInitializationSafety
  import opened ClassMonitors
  import opened ClassWakeups
  import opened ClassWakeupSafety
  import opened Forgotten
  import opened Options

  /** Nothing has been run, and no class has a monitor. */
  ghost predicate InitialSystem(w: Classes, x: System) {
    && Initial(w, x.s) && |x.monitors| == |x.s.status| && x.interrupted == {}
    && forall c | 0 <= c < |x.monitors| :: x.monitors[c] == NO_MONITOR
  }

  lemma InitiallySound(w: Classes, x: System)
    requires InitialSystem(w, x)
    ensures Sound(w, x) && NobodyIsForgotten(x.s, x.monitors)
  {
    InitialInv(w, x.s);
    assert NO_MONITOR.Valid();
    forall u: nat, c | 0 <= c < |x.monitors|
      ensures !x.monitors[c].IsQueued(u)
    {
    }
  }

  /** Whoever waits for the end of an initialization waits for another thread that is past the marking of the class. */
  lemma WaitsForAnother(w: Classes, x: System, u: nat, c: nat)
    requires Sound(w, x) && NobodyIsForgotten(x.s, x.monitors) && WaitsFor(x.s, x.monitors, u, c)
    ensures exists v: nat :: v < |x.s.stacks| && Owners(x.s.stacks[v], c) == 1 && c < |x.s.initThread|
                             && x.s.initThread[c] == Some(v)
  {
    hide StackOk, TopDone, StartedOk, Owners;
    var v := x.s.initThread[c].value;
    assert OwnerOk(x.s, v, c);
  }

  lemma {:induction false} StaysFatal(w: Classes, s: State, t: nat, keep: nat)
    requires s.Shaped(w) && t < |s.stacks| && s.fatal
    ensures Unwind(w, s, t, keep).fatal
    decreases |s.stacks[t]|
  {
    if keep < |s.stacks[t]| {
      var top := Top(s.stacks[t]);
      assert FrameOk(w, top);
      var handled := if top.Init? then RunClinitException(w, s, top) else s;
      assert handled.Shaped(w);
      PopShaped(w, handled, t);
      StaysFatal(w, handled.Pop(t), t, keep);
    }
  }

  /** An exception in a call that waits in step 2 cannot be handled. */
  lemma WaitingIsFatal(w: Classes, s: State, t: nat, keep: nat)
    requires s.Shaped(w) && t < |s.stacks| && s.stacks[t] != [] && keep < |s.stacks[t]|
    requires Top(s.stacks[t]).Init? && Top(s.stacks[t]).step == 2
    ensures Unwind(w, s, t, keep).fatal
  {
    var top := Top(s.stacks[t]);
    assert FrameOk(w, top);
    var handled := RunClinitException(w, s, top);
    assert handled.Shaped(w);
    PopShaped(w, handled, t);
    StaysFatal(w, handled.Pop(t), t, keep);
  }

  /** The machine gives up exactly when an interrupted thread goes on with a call of runClinit. */
  lemma FatalIff(w: Classes, x: System, a: Action)
    requires Sound(w, x) && CanAct(w, x, a)
    ensures After(w, x, a).s.fatal <==> MeetsInterrupt(x, a)
  {
    if MeetsInterrupt(x, a) {
      hide StackOk, TopDone, OwnersOk, StartedOk, AllValid, Unwind, Unwound, IsBlocked;
      assert ThreadOk(x.s, x.monitors, x.interrupted, a.thread);
      assert a.keep < |x.s.stacks[a.thread]|;
      WaitingIsFatal(w, x.s, a.thread, a.keep);
    } else {
      hide StackOk, TopDone, OwnersOk, StartedOk, Orderly, After, CanAct;
      AfterKeeps(w, x, a);
    }
  }

  /** A run: what cannot happen is skipped, and nothing happens any more after the machine has given up. */
  ghost function Behave(w: Classes, x: System, actions: seq<Action>): System
    requires Sound(w, x)
    decreases |actions|
  {
    if actions == [] then x
    else if !CanAct(w, x, actions[0]) then Behave(w, x, actions[1..])
    else if MeetsInterrupt(x, actions[0]) then After(w, x, actions[0])
    else
      AfterKeeps(w, x, actions[0]);
      Behave(w, After(w, x, actions[0]), actions[1..])
  }

  /** In no state of the run somebody is forgotten. */
  ghost predicate NobodyIsEverForgotten(w: Classes, x: System, actions: seq<Action>)
    requires Sound(w, x)
    decreases |actions|
  {
    && NobodyIsForgotten(x.s, x.monitors)
    && (actions != [] ==>
          if !CanAct(w, x, actions[0]) then NobodyIsEverForgotten(w, x, actions[1..])
          else MeetsInterrupt(x, actions[0])
               || (AfterKeeps(w, x, actions[0]); NobodyIsEverForgotten(w, After(w, x, actions[0]), actions[1..])))
  }

  /** No initialization fails while another thread has the monitor of the class and somebody waits. */
  ghost predicate NothingFailsUnheard(w: Classes, x: System, actions: seq<Action>)
    requires Sound(w, x)
    decreases |actions|
  {
    actions != [] ==>
      if !CanAct(w, x, actions[0]) then NothingFailsUnheard(w, x, actions[1..])
      else
        MeetsInterrupt(x, actions[0])
        || (!FailsUnheard(w, x, actions[0])
            && (AfterKeeps(w, x, actions[0]); NothingFailsUnheard(w, After(w, x, actions[0]), actions[1..])))
  }

  lemma {:induction false} RunForgetsIff(w: Classes, x: System, actions: seq<Action>)
    requires Sound(w, x) && NobodyIsForgotten(x.s, x.monitors)
    ensures NobodyIsEverForgotten(w, x, actions) <==> NothingFailsUnheard(w, x, actions)
    decreases |actions|
  {
    hide StackOk, TopDone, OwnersOk, StartedOk, ThreadOk, AllValid, After, FailsUnheard, NobodyIsForgotten, CanAct;
    if actions != [] {
      if !CanAct(w, x, actions[0]) {
        RunForgetsIff(w, x, actions[1..]);
      } else if !MeetsInterrupt(x, actions[0]) {
        AfterKeeps(w, x, actions[0]);
        ForgetsIff(w, x, actions[0]);
        var x' := After(w, x, actions[0]);
        if NobodyIsForgotten(x'.s, x'.monitors) {
          RunForgetsIff(w, x', actions[1..]);
        } else {
          ForgottenAtOnce(w, x', actions[1..]);
        }
      }
    }
  }

  lemma ForgottenAtOnce(w: Classes, x: System, actions: seq<Action>)
    requires Sound(w, x) && !NobodyIsForgotten(x.s, x.monitors)
    ensures !NobodyIsEverForgotten(w, x, actions)
  {
    hide Sound, NobodyIsForgotten;
  }

  /** From the very start, nobody is ever forgotten exactly if nothing fails unheard. */
  lemma NobodyIsForgottenIff(w: Classes, x: System, actions: seq<Action>)
    requires InitialSystem(w, x)
    ensures Sound(w, x) && (NobodyIsEverForgotten(w, x, actions) <==> NothingFailsUnheard(w, x, actions))
  {
    InitiallySound(w, x);
    RunForgetsIff(w, x, actions);
  }

  /** A class with a <clinit>, and three threads. */
  function OneClass(): Classes {
    Classes([None], [true], [false])
  }

  function Begin(): System {
    System(State([Verified], [None], [[], [], []], [], false), [NO_MONITOR], {})
  }

  /** A system of one class, with the stacks of three threads. */
  function Three(status: Status, initThread: Option<nat>, a: seq<Frame>, b: seq<Frame>, c: seq<Frame>,
                 started: seq<nat>, m: Monitor, interrupted: set<nat>): System
  {
    System(State([status], [initThread], [a, b, c], started, false), [m], interrupted)
  }

  lemma Replaced<T>(a: T, b: T, c: T, d: T)
    ensures [a, b, c][0 := d] == [d, b, c] && [a, b, c][1 := d] == [a, d, c] && [a, b, c][2 := d] == [a, b, d]
  {
  }

  lemma OneReplaced<T>(a: T, b: T)
    ensures [a][0 := b] == [b]
  {
  }

  /** The action can happen, and its outcome. */
  ghost predicate Leads(x: System, a: Action, x': System) {
    && x.s.Shaped(OneClass()) && |x.monitors| == |x.s.status| && CanAct(OneClass(), x, a)
    && !MeetsInterrupt(x, a) && After(OneClass(), x, a) == x'
  }

  /** The three threads start. */
  function Started(n: nat): System {
    Three(Verified, None, if n > 0 then [Code] else [], if n > 1 then [Code] else [], if n > 2 then [Code] else [], [],
          NO_MONITOR, {})
  }

  lemma Calls(n: nat)
    requires n < 3
    ensures Leads(Started(n), CallMethod(n), Started(n + 1))
  {
    var none: seq<Frame> := [];
    assert none + [Code] == [Code];
    Replaced(none, none, none, [Code]);
    Replaced([Code], none, none, [Code]);
    Replaced([Code], [Code], none, [Code]);
  }

  /** Thread 0 touches the class. */
  function Touched(): System {
    Three(Verified, None, [Code, Init(0, 1)], [Code], [Code], [], NO_MONITOR, {})
  }

  lemma FirstTouch()
    ensures Leads(Started(3), TouchClass(0, 0, true, 0, map[]), Touched())
  {
    assert [Code] + [Init(0, 1)] == [Code, Init(0, 1)];
    Replaced([Code], [Code], [Code], [Code, Init(0, 1)]);
    OneReplaced(Verified, Verified);
  }

  /** Thread 0 marks the class and runs its <clinit>. */
  function Running(): System {
    Three(Verified, Some(0), [Code, Init(0, 5), Clinit(0)], [Code], [Code], [0], NO_MONITOR, {})
  }

  lemma FirstRun()
    ensures Leads(Touched(), GoOn(0, true, 0, map[]), Running())
  {
    var w := OneClass();
    var stack, x := [Code, Init(0, 1)], Touched();
    assert stack[..1] == [Code] && [Code] + [Init(0, 5)] == [Code, Init(0, 5)];
    assert [Code, Init(0, 5)] + [Clinit(0)] == [Code, Init(0, 5), Clinit(0)];
    Replaced(stack, [Code], [Code], [Code, Init(0, 5)]);
    Replaced([Code, Init(0, 5)], [Code], [Code], [Code, Init(0, 5), Clinit(0)]);
    var none: Option<nat> := None;
    OneReplaced(none, Some(0));
    OneReplaced(NO_MONITOR, NO_MONITOR);
    var nobody: seq<nat> := [];
    assert nobody + [0] == [0];
  }

  /** Thread 1 touches the class as well. */
  function TouchedAgain(): System {
    Three(Verified, Some(0), [Code, Init(0, 5), Clinit(0)], [Code, Init(0, 1)], [Code], [0], NO_MONITOR, {})
  }

  lemma SecondTouch()
    ensures Leads(Running(), TouchClass(1, 0, true, 0, map[]), TouchedAgain())
  {
    assert [Code] + [Init(0, 1)] == [Code, Init(0, 1)];
    Replaced([Code, Init(0, 5), Clinit(0)], [Code], [Code], [Code, Init(0, 1)]);
    OneReplaced(Verified, Verified);
  }

  /** It finds the class marked, and waits. */
  function Waiting(m: Monitor): System {
    Three(Verified, Some(0), [Code, Init(0, 5), Clinit(0)], [Code, Init(0, 2)], [Code], [0], m, {})
  }

  const ONE_WAITS := Monitor(None, 0, [], [Waiter(1, 1)])
  const ONE_WAITS_TWO_OWNS := Monitor(Some(2), 1, [], [Waiter(1, 1)])

  lemma SecondRun()
    ensures Leads(TouchedAgain(), GoOn(1, true, 0, map[]), Waiting(ONE_WAITS))
  {
    var stack := [Code, Init(0, 1)];
    assert stack[..1] == [Code] && [Code] + [Init(0, 2)] == [Code, Init(0, 2)];
    Replaced([Code, Init(0, 5), Clinit(0)], stack, [Code], [Code, Init(0, 2)]);
    OneReplaced(NO_MONITOR, ONE_WAITS);
    var nobody: seq<Waiter> := [];
    assert nobody + [Waiter(1, 1)] == [Waiter(1, 1)];
  }

  /** Thread 2 enters the monitor of the class, as a synchronized method of the class or a block of a program would. */
  lemma ThirdEnters()
    ensures Leads(Waiting(ONE_WAITS), EnterMonitor(2, 0), Waiting(ONE_WAITS_TWO_OWNS))
  {
    OneReplaced(ONE_WAITS, ONE_WAITS_TWO_OWNS);
  }

  /** The <clinit> fails; thread 1 waits on. */
  function Failed(): System {
    Three(Error, None, [], [Code, Init(0, 2)], [Code], [0], ONE_WAITS_TWO_OWNS, {})
  }

  lemma FirstFails()
    ensures Leads(Waiting(ONE_WAITS_TWO_OWNS), Raise(0, 0, map[]), Failed())
  {
    var w, x := OneClass(), Waiting(ONE_WAITS_TWO_OWNS);
    var stack := [Code, Init(0, 5), Clinit(0)];
    assert stack[..2] == [Code, Init(0, 5)] && [Code, Init(0, 5)][..1] == [Code];
    var none: seq<Frame> := [];
    assert [Code][..0] == none;
    UnwindsThree(x.s);
    assert Unwound(none, x.monitors, 0, 0, map[]) == x.monitors;
    assert Unwound([Code], x.monitors, 0, 0, map[]) == x.monitors;
    assert Unwound([Code, Init(0, 5)], x.monitors, 0, 0, map[]) == x.monitors;
  }

  lemma UnwindsThree(s: State)
    requires s == Waiting(ONE_WAITS_TWO_OWNS).s
    ensures s.Shaped(OneClass()) && Unwind(OneClass(), s, 0, 0) == Failed().s
  {
    var w := OneClass();
    var stack := [Code, Init(0, 5), Clinit(0)];
    var none: seq<Frame> := [];
    assert stack[..2] == [Code, Init(0, 5)] && [Code, Init(0, 5)][..1] == [Code] && [Code][..0] == none;
    Replaced(stack, [Code, Init(0, 2)], [Code], [Code, Init(0, 5)]);
    Replaced([Code, Init(0, 5)], [Code, Init(0, 2)], [Code], [Code]);
    Replaced([Code], [Code, Init(0, 2)], [Code], none);
    OneReplaced(Verified, Error);
    var nobody: Option<nat> := None;
    OneReplaced(Some(0), nobody);
    var s1 := s.Pop(0);
    var s2 := s1.(status := [Error], initThread := [None]).Pop(0);
    var s3 := s2.Pop(0);
    assert s1.stacks == [[Code, Init(0, 5)], [Code, Init(0, 2)], [Code]];
    assert s2.stacks == [[Code], [Code, Init(0, 2)], [Code]];
    assert s3.stacks == [[], [Code, Init(0, 2)], [Code]];
    assert Unwind(w, s3, 0, 0) == s3;
    assert Unwind(w, s2, 0, 0) == s3;
    assert Unwind(w, s1, 0, 0) == s3;
  }

  /** The thread that waits is interrupted: it gets the monitor, and an exception when it goes on. */
  function Interrupted(): System {
    Three(Verified, Some(0), [Code, Init(0, 5), Clinit(0)], [Code, Init(0, 2)], [Code], [0],
          Monitor(Some(1), 1, [], []), {1})
  }

  lemma OneIsInterrupted()
    ensures Leads(Waiting(ONE_WAITS), Interrupt(1, 0, 0), Interrupted())
  {
    var m, nobody := ONE_WAITS, [];
    assert m.waiting[..0] + m.waiting[0 + 1..] == nobody;
    assert nobody + [m.waiting[0]] == [Waiter(1, 1)];
    OneReplaced(m, Monitor(Some(1), 1, [], []));
  }

  function UntilWaiting(): seq<Action> {
    [CallMethod(0)] + ([CallMethod(1)] + ([CallMethod(2)]
    + ([TouchClass(0, 0, true, 0, map[])] + ([GoOn(0, true, 0, map[])]
       + ([TouchClass(1, 0, true, 0, map[])] + [GoOn(1, true, 0, map[])])))))
  }

  lemma Follows(x: System, a: Action, x': System, rest: seq<Action>)
    requires Sound(OneClass(), x) && Leads(x, a, x')
    ensures Sound(OneClass(), x') && Behave(OneClass(), x, [a] + rest) == Behave(OneClass(), x', rest)
    ensures NobodyIsEverForgotten(OneClass(), x, [a] + rest) ==> NobodyIsEverForgotten(OneClass(), x', rest)
  {
    hide StackOk, TopDone, OwnersOk, StartedOk, Orderly, CanAct, After, NobodyIsForgotten;
    AfterKeeps(OneClass(), x, a);
    assert ([a] + rest)[1..] == rest;
  }

  lemma ReachesWaiting(rest: seq<Action>)
    ensures InitialSystem(OneClass(), Begin()) && Sound(OneClass(), Begin()) && Sound(OneClass(), Waiting(ONE_WAITS))
    ensures Behave(OneClass(), Begin(), UntilWaiting() + rest) == Behave(OneClass(), Waiting(ONE_WAITS), rest)
    ensures NobodyIsEverForgotten(OneClass(), Begin(), UntilWaiting() + rest) ==>
              NobodyIsEverForgotten(OneClass(), Waiting(ONE_WAITS), rest)
  {
    InitiallySound(OneClass(), Begin());
    hide Sound, Behave, NobodyIsEverForgotten, Leads, Three;
    var r6 := [GoOn(1, true, 0, map[])] + rest;
    var r5 := [TouchClass(1, 0, true, 0, map[])] + r6;
    var r4 := [GoOn(0, true, 0, map[])] + r5;
    var r3 := [TouchClass(0, 0, true, 0, map[])] + r4;
    var r2 := [CallMethod(2)] + r3;
    var r1 := [CallMethod(1)] + r2;
    assert UntilWaiting() + rest == [CallMethod(0)] + r1;
    BeginIsStarted();
    Calls(0);
    Calls(1);
    Calls(2);
    Follows(Started(0), CallMethod(0), Started(1), r1);
    Follows(Started(1), CallMethod(1), Started(2), r2);
    Follows(Started(2), CallMethod(2), Started(3), r3);
    FirstTouch();
    Follows(Started(3), TouchClass(0, 0, true, 0, map[]), Touched(), r4);
    FirstRun();
    Follows(Touched(), GoOn(0, true, 0, map[]), Running(), r5);
    SecondTouch();
    Follows(Running(), TouchClass(1, 0, true, 0, map[]), TouchedAgain(), r6);
    SecondRun();
    Follows(TouchedAgain(), GoOn(1, true, 0, map[]), Waiting(ONE_WAITS), rest);
  }

  lemma BeginIsStarted()
    ensures Begin() == Started(0)
  {
  }

  /** The thread waits for the end of an initialization that has failed. */
  predicate WaitsInVain(x: System, u: nat, c: nat) {
    && WaitsFor(x.s, x.monitors, u, c) && c < |x.s.initThread| == |x.s.status|
    && x.s.initThread[c] == None && x.s.status[c] == Error
  }

  /**
   * From the very start: thread 0 initializes the class, thread 1 waits for it, thread 2 enters the monitor of the
   * class, and the initialization fails. Nobody will notify thread 1.
   */
  lemma OneIsForgotten()
    ensures var actions := UntilWaiting() + ([EnterMonitor(2, 0)] + [Raise(0, 0, map[])]);
            && InitialSystem(OneClass(), Begin()) && Sound(OneClass(), Begin())
            && Behave(OneClass(), Begin(), actions) == Failed()
            && WaitsInVain(Failed(), 1, 0) && !NobodyIsEverForgotten(OneClass(), Begin(), actions)
  {
    hide Sound, Leads, Three, WaitsInVain, Behave, NobodyIsEverForgotten, NobodyIsForgotten, InitialSystem, Failed,
      Waiting, UntilWaiting, Begin, OneClass;
    var end: seq<Action> := [];
    ReachesWaiting([EnterMonitor(2, 0)] + [Raise(0, 0, map[])]);
    OneWaitsOn();
    ThirdEnters();
    Follows(Waiting(ONE_WAITS), EnterMonitor(2, 0), Waiting(ONE_WAITS_TWO_OWNS), [Raise(0, 0, map[])]);
    FirstFails();
    assert [Raise(0, 0, map[])] + end == [Raise(0, 0, map[])];
    Follows(Waiting(ONE_WAITS_TWO_OWNS), Raise(0, 0, map[]), Failed(), end);
    NothingMore(Failed());
  }

  lemma OneWaitsOn()
    ensures WaitsInVain(Failed(), 1, 0) && !NobodyIsForgotten(Failed().s, Failed().monitors)
  {
    assert Failed().monitors[0].waiting[0].thread == 1;
    assert WaitsFor(Failed().s, Failed().monitors, 1, 0);
  }

  lemma NothingMore(x: System)
    requires Sound(OneClass(), x)
    ensures Behave(OneClass(), x, []) == x
    ensures NobodyIsEverForgotten(OneClass(), x, []) ==> NobodyIsForgotten(x.s, x.monitors)
  {
    hide Sound, NobodyIsForgotten;
  }

  /** From the very start: thread 1 waits for an initialization, is interrupted, and stops the machine. */
  lemma InterruptStopsMachine()
    ensures var actions := UntilWaiting() + ([Interrupt(1, 0, 0)] + [GoOn(1, true, 0, map[])]);
            && InitialSystem(OneClass(), Begin()) && Sound(OneClass(), Begin())
            && Behave(OneClass(), Begin(), actions).s.fatal
  {
    var w, last := OneClass(), GoOn(1, true, 0, map[]);
    ReachesWaiting([Interrupt(1, 0, 0)] + [last]);
    OneIsInterrupted();
    Follows(Waiting(ONE_WAITS), Interrupt(1, 0, 0), Interrupted(), [last]);
    InterruptedCanGoOn();
    hide Sound;
    FatalIff(w, Interrupted(), last);
  }

  lemma InterruptedCanGoOn()
    ensures Interrupted().s.Shaped(OneClass()) && |Interrupted().monitors| == |Interrupted().s.status|
    ensures CanAct(OneClass(), Interrupted(), GoOn(1, true, 0, map[]))
    ensures MeetsInterrupt(Interrupted(), GoOn(1, true, 0, map[]))
  {
  }
}
