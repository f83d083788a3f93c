/** initializeClass, runClinit and runClinitException (class.c): lazy class initialization among several threads. */
module ClassInitialization {

  import opened Options

  /** Readiness of a class; Raw stands for everything below CLASS_VERIFIED. */
  datatype Status = Raw | Verified | Ready | Error

  /**
   * A frame of a thread: a call of runClinit for a class, with the step it has to go on from; the <clinit> method of a
   * class; or any other method.
   */
  datatype Frame = Init(clazz: nat, step: nat) | Clinit(clazz: nat) | Code

  /** The loaded classes. */
  datatype Classes = Classes(superOf: seq<Option<nat>>, hasClinit: seq<bool>, isInterface: seq<bool>) {
    ghost predicate Valid() {
      && |superOf| == |hasClinit| == |isInterface|
      && forall c | 0 <= c < |superOf| :: superOf[c].Some? ==> superOf[c].value < |superOf|
    }
  }

  /**
   * Status and initializing thread of each class, and the frames of each thread, outermost first.  `started` logs the
   * <clinit> methods in the order in which they were started; `fatal` says that the machine has given up.
   */
  datatype State = State(status: seq<Status>, initThread: seq<Option<nat>>, stacks: seq<seq<Frame>>, started: seq<nat>,
                         fatal: bool) {
    ghost predicate Shaped(w: Classes) {
      w.Valid() && |status| == |initThread| == |w.superOf|
      && forall t, i | 0 <= t < |stacks| && 0 <= i < |stacks[t]| :: FrameOk(w, stacks[t][i])
    }

    function Push(t: nat, frame: Frame): State
      requires t < |stacks|
    {
      this.(stacks := stacks[t := stacks[t] + [frame]])
    }

    function Pop(t: nat): State
      requires t < |stacks| && stacks[t] != []
    {
      this.(stacks := stacks[t := stacks[t][..|stacks[t]| - 1]])
    }

    /** topStack = step */
    function Resume(t: nat, c: nat, step: nat): State
      requires t < |stacks| && stacks[t] != []
    {
      this.(stacks := stacks[t := stacks[t][..|stacks[t]| - 1] + [Init(c, step)]])
    }
  }

  predicate FrameOk(w: Classes, f: Frame) {
    (f.Init? ==> f.clazz < |w.superOf| && f.step in {1, 2, 4, 5, 6}) && (f.Clinit? ==> f.clazz < |w.superOf|)
  }

  /** The class has no monitor; the thread gets its monitor at once; or the thread has to wait for it. */
  datatype Lock = Free | Obtained | Awaited

  /** The superclass that has to be initialized before class c: interfaces have none. */
  function NeededSuper(w: Classes, c: nat): Option<nat>
    requires w.Valid() && c < |w.superOf|
  {
    if w.isInterface[c] then None else w.superOf[c]
  }

  /** A state, and whether an exception has been raised in the current frame. */
  datatype Outcome = Outcome(s: State, raised: bool)

  /** initializeClass; `verifies` says whether verification, if needed, succeeds. */
  function InitializeClass(w: Classes, s: State, t: nat, c: nat, verifies: bool): Outcome
    requires s.Shaped(w) && t < |s.stacks| && c < |s.status|
  {
    if s.status[c] == Error then Outcome(s, true)
    else if s.status[c] == Ready then Outcome(s, false)
    else if s.status[c] == Raw && !verifies then Outcome(s.(status := s.status[c := Error]), true)
    else
      var verified := s.(status := s.status[c := Verified]);
      if (w.superOf[c].None? || s.status[w.superOf[c].value] == Ready) && !w.hasClinit[c] then
        Outcome(s.(status := s.status[c := Ready]), false)
      else
        Outcome(verified.Push(t, Init(c, 1)), false)
  }

  /** Step 9: the class is ready, its initializing thread is nobody, and the frame is done. */
  function Unmark(w: Classes, s: State, t: nat, c: nat): State
    requires s.Shaped(w) && t < |s.stacks| && c < |s.status| && s.stacks[t] != []
  {
    s.(initThread := s.initThread[c := None], status := s.status[c := Ready]).Pop(t)
  }

  /** Case 5: takes the class monitor unless nobody uses it. */
  function Finish(w: Classes, s: State, t: nat, c: nat, exit: Lock): State
    requires s.Shaped(w) && t < |s.stacks| && c < |s.status| && s.stacks[t] != []
  {
    if exit == Awaited then s.Resume(t, c, 6) else Unmark(w, s, t, c)
  }

  /** Case 4: step 8, runs <clinit> if there is one. */
  function RunMethod(w: Classes, s: State, t: nat, c: nat, exit: Lock): State
    requires s.Shaped(w) && t < |s.stacks| && c < |s.status| && s.stacks[t] != []
  {
    if w.hasClinit[c] then s.Resume(t, c, 5).Push(t, Clinit(c)).(started := s.started + [c])
    else Finish(w, s, t, c, exit)
  }

  /** Case 3: step 7, initializes the superclass first. */
  function InitializeSuper(w: Classes, s: State, t: nat, c: nat, exit: Lock, verifies: bool): Outcome
    requires s.Shaped(w) && t < |s.stacks| && c < |s.status| && s.stacks[t] != []
  {
    var super := NeededSuper(w, c);
    if super.Some? && s.status[super.value] != Ready then
      ResumeShaped(w, s, t, c, 4);
      InitializeClass(w, s.Resume(t, c, 4), t, super.value, verifies)
    else Outcome(RunMethod(w, s, t, c, exit), false)
  }

  lemma ResumeShaped(w: Classes, s: State, t: nat, c: nat, step: nat)
    requires s.Shaped(w) && t < |s.stacks| && c < |s.status| && s.stacks[t] != [] && step in {1, 2, 4, 5, 6}
    ensures s.Resume(t, c, step).Shaped(w)
  {
    var s' := s.Resume(t, c, step);
    forall u, i | 0 <= u < |s'.stacks| && 0 <= i < |s'.stacks[u]|
      ensures FrameOk(w, s'.stacks[u][i])
    {
      if u == t && i < |s.stacks[t]| - 1 {
        assert s'.stacks[u][i] == s.stacks[t][i];
      }
    }
  }

  /** markClass: steps 3 to 6. */
  function MarkClass(w: Classes, s: State, t: nat, c: nat, exit: Lock, verifies: bool): Outcome
    requires s.Shaped(w) && t < |s.stacks| && c < |s.status| && s.stacks[t] != []
  {
    if s.initThread[c] == Some(t) || s.status[c] == Ready || s.status[c] == Error then Outcome(s.Pop(t), false)
    else InitializeSuper(w, s.(initThread := s.initThread[c := Some(t)]), t, c, exit, verifies)
  }

  /**
   * One call of runClinit for the topmost frame: `enter` and `exit` say how the thread finds the monitor of the class
   * before step 2 and before step 9.
   */
  function RunClinit(w: Classes, s: State, t: nat, enter: Lock, exit: Lock, verifies: bool): Outcome
    requires s.Shaped(w) && t < |s.stacks| && s.stacks[t] != [] && s.stacks[t][|s.stacks[t]| - 1].Init?
  {
    var top := s.stacks[t][|s.stacks[t]| - 1];
    assert FrameOk(w, top);
    var c := top.clazz;
    if top.step == 1 && enter == Free && s.initThread[c] == None then MarkClass(w, s, t, c, exit, verifies)
    else if top.step == 1 && enter == Awaited then Outcome(s.Resume(t, c, 2), false)
    else if top.step <= 2 then
      if s.initThread[c].Some? && s.initThread[c] != Some(t) then Outcome(s.Resume(t, c, 2), false)
      else MarkClass(w, s, t, c, exit, verifies)
    else if top.step == 4 then Outcome(RunMethod(w, s, t, c, exit), false)
    else if top.step == 5 then Outcome(Finish(w, s, t, c, exit), false)
    else Outcome(Unmark(w, s, t, c), false)
  }

  /** runClinitException: only frames that have handed over to other code can see an exception. */
  function RunClinitException(w: Classes, s: State, frame: Frame): State
    requires s.Shaped(w) && frame.Init? && FrameOk(w, frame)
  {
    if frame.step !in {1, 4, 5} then s.(fatal := true)
    else s.(status := s.status[frame.clazz := Error], initThread := s.initThread[frame.clazz := None])
  }

  lemma PopShaped(w: Classes, s: State, t: nat)
    requires s.Shaped(w) && t < |s.stacks| && s.stacks[t] != []
    ensures s.Pop(t).Shaped(w)
  {
    var s' := s.Pop(t);
    forall u, i | 0 <= u < |s'.stacks| && 0 <= i < |s'.stacks[u]|
      ensures FrameOk(w, s'.stacks[u][i])
    {
      assert s'.stacks[u][i] == s.stacks[u][i];
    }
  }

  /** throwException: unwinds the frames above the first `keep` ones. */
  function Unwind(w: Classes, s: State, t: nat, keep: nat): State
    requires s.Shaped(w) && t < |s.stacks|
    decreases if t < |s.stacks| then |s.stacks[t]| else 0
  {
    if |s.stacks[t]| <= keep then s
    else
      var top := s.stacks[t][|s.stacks[t]| - 1];
      assert FrameOk(w, top);
      var handled := if top.Init? then RunClinitException(w, s, top) else s;
      PopShaped(w, handled, t);
      Unwind(w, handled.Pop(t), t, keep)
  }
}
