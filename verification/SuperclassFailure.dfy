/**
 * The <clinit> of a class may be run although the initialization of its superclass has failed (class.c): when exactly.
 */
module SuperclassFailure {
  import opened ClassInitialization
  import opened ClassInitializationSafety
  import opened Options

  /**
   * What step 7 of section 2.17.5 of the Java Virtual Machine Specification, second edition, asks for when a thread
   * starts the <clinit> of class c: the superclass is initialized, or is being initialized by the same thread.
   */
  predicate SuperInitialized(w: Classes, s: State, t: nat, c: nat)
    requires s.Shaped(w) && c < |s.status|
  {
    var super := w.superOf[c];
    super.Some? && !w.isInterface[c] ==> s.status[super.value] == Ready || s.initThread[super.value] == Some(t)
  }

  /** The superclass of class c has failed, and thread t is not initializing it anew. */
  predicate SuperFailed(w: Classes, s: State, t: nat, c: nat)
    requires s.Shaped(w) && c < |s.status|
  {
    var super := w.superOf[c];
    super.Some? && !w.isInterface[c] && s.status[super.value] == Error && s.initThread[super.value] != Some(t)
  }

  /** The event starts the <clinit> of class c. */
  ghost predicate Starts(w: Classes, s: State, e: Event, c: nat)
    requires s.Shaped(w)
  {
    c < |w.superOf| && Next(w, s, e).started == s.started + [c]
  }

  /** The event starts a <clinit> that should not be started. */
  ghost predicate StartsWrongly(w: Classes, s: State, e: Event)
    requires s.Shaped(w)
  {
    NextShaped(w, s, e);
    exists c :: Starts(w, s, e, c) && !SuperInitialized(w, Next(w, s, e), e.thread, c)
  }

  /**
   * The thread goes on behind the initialization of the superclass of its topmost class, which has failed meanwhile.
   * There is no second look at the superclass in this place.
   */
  predicate ResumesAfterFailure(w: Classes, s: State, e: Event)
    requires s.Shaped(w)
  {
    && Enabled(s, e) && e.Run? && Top(s.stacks[e.thread]).step == 4
    && var c := Top(s.stacks[e.thread]).clazz;
       c < |s.status| && w.hasClinit[c] && SuperFailed(w, s, e.thread, c)
  }

  /** Going on from step 4 starts the <clinit>, if there is one, and changes the status of no class. */
  lemma ResumedStart(w: Classes, s: State, t: nat, c: nat, exit: Lock)
    requires Inv(w, s) && t < |s.stacks| && s.stacks[t] != [] && Top(s.stacks[t]) == Init(c, 4) && c < |s.status|
    requires w.hasClinit[c]
    ensures var s' := RunMethod(w, s, t, c, exit);
            s'.started == s.started + [c] && s'.status == s.status && s'.initThread == s.initThread
  {
  }

  lemma OneStart(a: seq<nat>, b: seq<nat>, c: nat, d: nat)
    requires b == a + [c] && b == a + [d]
    ensures c == d
  {
    assert (a + [c])[|a|] == (a + [d])[|a|];
  }

  /** A thread that marks the class itself looks at the superclass first: what it starts then is right. */
  lemma MarkedStart(w: Classes, s: State, t: nat, c: nat, exit: Lock, verifies: bool)
    requires s.Shaped(w) && t < |s.stacks| && c < |s.status| && s.stacks[t] != []
    ensures var s' := MarkClass(w, s, t, c, exit, verifies).s;
            s'.started != s.started ==> s'.started == s.started + [c] && s'.Shaped(w) && SuperInitialized(w, s', t, c)
  {
    var taken := s.(initThread := s.initThread[c := Some(t)]);
    assert taken.Shaped(w);
    var super := NeededSuper(w, c);
    if super.Some? && s.status[super.value] != Ready {
      ResumeShaped(w, taken, t, c, 4);
      InitializeClassStarts(w, taken.Resume(t, c, 4), t, super.value, verifies);
    } else {
      RunMethodShaped(w, taken, t, c, exit);
    }
  }

  /** What one call of runClinit starts is wrong exactly if it resumes after a failure. */
  lemma WrongRun(w: Classes, s: State, t: nat, enter: Lock, exit: Lock, verifies: bool)
    requires Inv(w, s) && t < |s.stacks| && s.stacks[t] != [] && Top(s.stacks[t]).Init?
    ensures var s', top := RunClinit(w, s, t, enter, exit, verifies).s, Top(s.stacks[t]);
            && s'.Shaped(w) && top.clazz < |s.status| == |s'.status|
            && (s'.started == s.started + [top.clazz] && !SuperInitialized(w, s', t, top.clazz)
                <==> top.step == 4 && w.hasClinit[top.clazz] && SuperFailed(w, s, t, top.clazz))
  {
    var top := Top(s.stacks[t]);
    assert FrameOk(w, top);
    var c := top.clazz;
    RunClinitShaped(w, s, t, enter, exit, verifies);
    InvOf(w, s, t);
    if top.step == 4 {
      if w.hasClinit[c] {
        ResumedStart(w, s, t, c, exit);
      }
    } else if top.step < 4 {
      MarkedStart(w, s, t, c, exit, verifies);
    }
  }

  lemma RunSettles(w: Classes, s: State, e: Event)
    requires Inv(w, s) && Enabled(s, e) && e.Run?
    ensures var t := e.thread; var out := RunClinit(w, s, t, e.enter, e.exit, e.verifies);
            && Next(w, s, e).started == out.s.started
            && (out.s.started != s.started ==> Next(w, s, e) == out.s)
  {
    var t := e.thread;
    RunClinitKeeps(w, s, t, e.enter, e.exit, e.verifies);
    RunClinitShaped(w, s, t, e.enter, e.exit, e.verifies);
    var out := RunClinit(w, s, t, e.enter, e.exit, e.verifies);
    if out.raised {
      InvOf(w, out.s, t);
      RaisesWithoutStart(w, s, t, e.enter, e.exit, e.verifies);
      CatchesBelow(s.stacks[t], out.s.stacks[t], e.keep);
      UnwindKeeps(w, out.s, t, e.keep);
    }
  }

  /** Only calls of runClinit start a <clinit>, and only that of the topmost class. */
  lemma OnlyRunsStart(w: Classes, s: State, e: Event, c: nat)
    requires Inv(w, s) && Starts(w, s, e, c)
    ensures Enabled(s, e) && e.Run? && Top(s.stacks[e.thread]).clazz == c
  {
    assert Next(w, s, e).started != s.started;
    var t := e.thread;
    InvOf(w, s, t);
    match e {
      case Touch(_, d, verifies, keep) =>
        InitializeClassKeeps(w, s, t, d, verifies);
        InitializeClassStarts(w, s, t, d, verifies);
        var out := InitializeClass(w, s, t, d, verifies);
        InvOf(w, out.s, t);
        if out.raised {
          UnwindKeeps(w, out.s, t, keep);
        }
      case Run(_, enter, exit, verifies, keep) =>
        RunSettles(w, s, e);
        RunClinitStarts(w, s, t, enter, exit, verifies);
        OneStart(s.started, Next(w, s, e).started, c, Top(s.stacks[t]).clazz);
      case Throw(_, keep) =>
        UnwindKeeps(w, s, t, keep);
      case _ =>
    }
  }

  /** A <clinit> is started wrongly exactly if a thread goes on behind a superclass that has failed. */
  lemma WrongStarts(w: Classes, s: State, e: Event)
    requires Inv(w, s)
    ensures StartsWrongly(w, s, e) <==> ResumesAfterFailure(w, s, e)
  {
    hide Inv, Next, RunClinit, Enabled, SuperInitialized, SuperFailed, State.Shaped;
    InvShaped(w, s);
    NextShaped(w, s, e);
    if StartsWrongly(w, s, e) {
      var c :| Starts(w, s, e, c) && !SuperInitialized(w, Next(w, s, e), e.thread, c);
      OnlyRunsStart(w, s, e, c);
    }
    if Enabled(s, e) && e.Run? {
      RunIsEnabled(s, e);
      RunSettles(w, s, e);
      WrongRun(w, s, e.thread, e.enter, e.exit, e.verifies);
      WrongIffResumed(w, s, e);
    }
  }

  lemma InvShaped(w: Classes, s: State)
    requires Inv(w, s)
    ensures s.Shaped(w) && |s.status| == |w.superOf| == |w.hasClinit|
  {
  }

  lemma RunIsEnabled(s: State, e: Event)
    requires Enabled(s, e) && e.Run?
    ensures e.thread < |s.stacks| && s.stacks[e.thread] != [] && Top(s.stacks[e.thread]).Init?
  {
  }

  lemma WrongIffResumed(w: Classes, s: State, e: Event)
    requires Inv(w, s) && Enabled(s, e) && e.Run?
    ensures s.Shaped(w) && (StartsWrongly(w, s, e) <==> ResumesAfterFailure(w, s, e))
  {
    hide Next, RunClinit, SuperInitialized, SuperFailed, StackOk, TopDone, OwnersOk, StartedOk;
    var t := e.thread;
    var top := Top(s.stacks[t]);
    var out := RunClinit(w, s, t, e.enter, e.exit, e.verifies);
    NextShaped(w, s, e);
    RunSettles(w, s, e);
    WrongRun(w, s, t, e.enter, e.exit, e.verifies);
    if StartsWrongly(w, s, e) {
      var c :| Starts(w, s, e, c) && !SuperInitialized(w, Next(w, s, e), t, c);
      OnlyRunsStart(w, s, e, c);
      assert |out.s.started| == |s.started| + 1;
    }
    if ResumesAfterFailure(w, s, e) {
      assert |out.s.started| == |s.started| + 1;
      assert Starts(w, s, e, top.clazz);
    }
  }

  /** The state before the k-th event of a run. */
  ghost function StateAt(w: Classes, s: State, events: seq<Event>, k: nat): (s': State)
    requires s.Shaped(w) && k <= |events|
    ensures s'.Shaped(w)
  {
    Execute(w, s, events[..k])
  }

  /** A run never starts a <clinit> wrongly exactly if no thread ever goes on behind a superclass that has failed. */
  lemma RunMeetsSpecification(w: Classes, s: State, events: seq<Event>)
    requires Initial(w, s)
    ensures s.Shaped(w)
    ensures (forall k | 0 <= k < |events| :: !StartsWrongly(w, StateAt(w, s, events, k), events[k]))
            <==> (forall k | 0 <= k < |events| :: !ResumesAfterFailure(w, StateAt(w, s, events, k), events[k]))
  {
    hide Inv, StartsWrongly, ResumesAfterFailure, Execute, Initial;
    InitialInv(w, s);
    InvShaped(w, s);
    forall k | 0 <= k < |events|
      ensures StartsWrongly(w, StateAt(w, s, events, k), events[k])
              <==> ResumesAfterFailure(w, StateAt(w, s, events, k), events[k])
    {
      EveryRunKeeps(w, s, events[..k]);
      WrongStarts(w, StateAt(w, s, events, k), events[k]);
    }
  }

  /** Two classes with a <clinit> each; class 1 extends class 0. */
  function TwoClasses(): Classes {
    Classes([None, Some(0)], [true, true], [false, false])
  }

  /** Nothing has been run yet. */
  function Start(): State {
    State([Raw, Raw], [None, None], [[], []], [], false)
  }

  /**
   * Two threads start. Thread 0 starts to initialize the superclass; thread 1 marks the subclass and waits for thread
   * 0; the <clinit> of the superclass throws; thread 1 goes on.
   */
  function FailingSuper(): seq<Event> {
    [Call(0), Call(1),
     Touch(0, 0, true, 0), Run(0, Free, Free, true, 0),
     Touch(1, 1, true, 0), Run(1, Free, Free, true, 0), Run(1, Obtained, Free, true, 0),
     Throw(0, 0),
     Run(1, Free, Free, true, 0), Run(1, Free, Free, true, 0)]
  }

  function States(k: nat): State {
    match k
    case 0 => Start()
    case 1 => State([Raw, Raw], [None, None], [[Code], []], [], false)
    case 2 => State([Raw, Raw], [None, None], [[Code], [Code]], [], false)
    case 3 => State([Verified, Raw], [None, None], [[Code, Init(0, 1)], [Code]], [], false)
    case 4 => State([Verified, Raw], [Some(0), None], [[Code, Init(0, 5), Clinit(0)], [Code]], [0], false)
    case 5 => State([Verified, Verified], [Some(0), None], [[Code, Init(0, 5), Clinit(0)], [Code, Init(1, 1)]], [0],
                    false)
    case 6 => State([Verified, Verified], [Some(0), Some(1)],
                    [[Code, Init(0, 5), Clinit(0)], [Code, Init(1, 4), Init(0, 1)]], [0], false)
    case 7 => State([Verified, Verified], [Some(0), Some(1)],
                    [[Code, Init(0, 5), Clinit(0)], [Code, Init(1, 4), Init(0, 2)]], [0], false)
    case 8 => State([Error, Verified], [None, Some(1)], [[], [Code, Init(1, 4), Init(0, 2)]], [0], false)
    case 9 => State([Error, Verified], [None, Some(1)], [[], [Code, Init(1, 4)]], [0], false)
    case _ => State([Error, Verified], [None, Some(1)], [[], [Code, Init(1, 5), Clinit(1)]], [0, 1], false)
  }

  lemma StatesShaped(k: nat)
    requires k <= 10
    ensures States(k).Shaped(TwoClasses())
  {
  }

  lemma SameState(a: State, b: State)
    requires a.status == b.status && a.initThread == b.initThread && a.started == b.started && a.fatal == b.fatal
    requires |a.stacks| == |b.stacks| == 2 && a.stacks[0] == b.stacks[0] && a.stacks[1] == b.stacks[1]
    ensures a == b
  {
    assert a.stacks == b.stacks;
  }

  ghost predicate Follows(k: nat) {
    && k < |FailingSuper()| && States(k).Shaped(TwoClasses())
    && Next(TwoClasses(), States(k), FailingSuper()[k]) == States(k + 1)
  }

  lemma CallPushes(w: Classes, s: State, t: nat)
    requires s.Shaped(w) && Enabled(s, Call(t))
    ensures Next(w, s, Call(t)) == s.Push(t, Code)
  {
  }

  lemma FirstCallFollows()
    ensures Follows(0)
  {
    StatesShaped(0);
    assert FailingSuper()[0] == Call(0) && Enabled(States(0), Call(0));
    CallPushes(TwoClasses(), States(0), 0);
    SameState(States(0).Push(0, Code), States(1));
  }

  lemma SecondCallFollows()
    ensures Follows(1)
  {
    StatesShaped(1);
    assert FailingSuper()[1] == Call(1) && Enabled(States(1), Call(1));
    CallPushes(TwoClasses(), States(1), 1);
    SameState(States(1).Push(1, Code), States(2));
  }

  lemma TouchesFollow(k: nat)
    requires k == 2 || k == 4
    ensures Follows(k)
  {
    StatesShaped(k);
    assert Enabled(States(k), FailingSuper()[k]);
    SameState(Next(TwoClasses(), States(k), FailingSuper()[k]), States(k + 1));
  }

  lemma FirstRunFollows()
    ensures Follows(3)
  {
    StatesShaped(3);
    assert Enabled(States(3), FailingSuper()[3]);
    SameState(Next(TwoClasses(), States(3), FailingSuper()[3]), States(4));
  }

  lemma SecondRunFollows()
    ensures Follows(5)
  {
    StatesShaped(5);
    assert Enabled(States(5), FailingSuper()[5]);
    SameState(Next(TwoClasses(), States(5), FailingSuper()[5]), States(6));
  }

  lemma WaitFollows()
    ensures Follows(6)
  {
    StatesShaped(6);
    assert Enabled(States(6), FailingSuper()[6]);
    SameState(Next(TwoClasses(), States(6), FailingSuper()[6]), States(7));
  }

  lemma LastRunsFollow(k: nat)
    requires k == 8 || k == 9
    ensures Follows(k)
  {
    StatesShaped(k);
    assert Enabled(States(k), FailingSuper()[k]);
    SameState(Next(TwoClasses(), States(k), FailingSuper()[k]), States(k + 1));
  }

  /**
   * The exception of the superclass unwinds the <clinit>, the call of runClinit below it, and the method below that.
   */
  lemma ExceptionFollows()
    ensures Follows(7)
  {
    StatesShaped(7);
    StatesShaped(8);
    var w, s := TwoClasses(), States(7);
    var t1 := State(s.status, s.initThread, [[Code, Init(0, 5)], s.stacks[1]], [0], false);
    var t2 := State([Error, Verified], [None, Some(1)], [[Code], s.stacks[1]], [0], false);
    assert t1.Shaped(w) && t2.Shaped(w);
    SameState(t1, s.Pop(0));
    UnwindOnce(w, s, 0, 0, t1);
    SameState(t2, RunClinitException(w, t1, Init(0, 5)).Pop(0));
    UnwindOnce(w, t1, 0, 0, t2);
    SameState(States(8), t2.Pop(0));
    UnwindOnce(w, t2, 0, 0, States(8));
    assert Enabled(s, FailingSuper()[7]);
  }

  lemma AllFollow(k: nat)
    requires k < 10
    ensures Follows(k)
  {
    hide Follows;
    FirstCallFollows();
    SecondCallFollows();
    TouchesFollow(2);
    FirstRunFollows();
    TouchesFollow(4);
    SecondRunFollows();
    WaitFollows();
    ExceptionFollows();
    LastRunsFollow(8);
    LastRunsFollow(9);
  }

  lemma {:induction false} RunFollows(k: nat, n: nat)
    requires k <= n <= 10
    ensures States(k).Shaped(TwoClasses()) && Execute(TwoClasses(), States(k), FailingSuper()[k..n]) == States(n)
    decreases n - k
  {
    hide States, Next, FailingSuper;
    StatesShaped(k);
    FailingLength();
    if k < n {
      AllFollow(k);
      RunFollows(k + 1, n);
      assert FailingSuper()[k..n][1..] == FailingSuper()[k + 1..n];
    } else {
      assert FailingSuper()[k..n] == [];
    }
  }

  lemma FailingLength()
    ensures |FailingSuper()| == 10
  {
  }

  lemma LastIsWrong()
    ensures States(9).Shaped(TwoClasses()) && |FailingSuper()| == 10
    ensures ResumesAfterFailure(TwoClasses(), States(9), FailingSuper()[9])
  {
    StatesShaped(9);
  }

  lemma StartIsInitial()
    ensures Initial(TwoClasses(), Start()) && States(0) == Start()
    ensures States(10) == State([Error, Verified], [None, Some(1)], [[], [Code, Init(1, 5), Clinit(1)]], [0, 1], false)
  {
  }

  /**
   * A run from the very start in which a subclass runs its <clinit> although the initialization of its superclass has
   * failed: the thread that waits for the superclass is not told of the failure.
   */
  lemma StartedAfterFailure()
    ensures Initial(TwoClasses(), Start()) && Start().Shaped(TwoClasses()) && |FailingSuper()| == 10
    ensures StartsWrongly(TwoClasses(), StateAt(TwoClasses(), Start(), FailingSuper(), 9), FailingSuper()[9])
    ensures Execute(TwoClasses(), Start(), FailingSuper())
         == State([Error, Verified], [None, Some(1)], [[], [Code, Init(1, 5), Clinit(1)]], [0, 1], false)
  {
    hide Execute, Next, StartsWrongly, Start, States, FailingSuper, TwoClasses, Initial, Inv, ResumesAfterFailure,
      State.Shaped;
    StartIsInitial();
    LastIsWrong();
    InitialInv(TwoClasses(), Start());
    RunFollows(0, 9);
    RunFollows(0, 10);
    assert FailingSuper()[0..10] == FailingSuper() && FailingSuper()[0..9] == FailingSuper()[..9];
    EveryRunKeeps(TwoClasses(), Start(), FailingSuper()[..9]);
    WrongStarts(TwoClasses(), States(9), FailingSuper()[9]);
  }
}
