/** A class becomes ready only when its superclass does not have to be waited for any more. */
module SuperclassFirst {
  import opened ClassInitialization
  import opened ClassInitializationSafety
  import opened Options

  /** The superclass of class c is ready or in error, or one of the first n frames is initializing it. */
  ghost predicate HasSuper(w: Classes, s: State, stack: seq<Frame>, n: nat, c: nat) {
    c < |w.superOf| == |w.isInterface| && w.superOf[c].Some? && !w.isInterface[c] ==>
      && w.superOf[c].value < |s.status|
      && (s.status[w.superOf[c].value] in {Ready, Error}
          || exists j :: 0 <= j < n && j < |stack| && Owns(stack[j], w.superOf[c].value))
  }

  /** Behind step 8 this holds of each class on the stack. */
  ghost predicate StackOrdered(w: Classes, s: State, stack: seq<Frame>) {
    forall i | 0 <= i < |stack| && stack[i].Init? && stack[i].step >= 5 :: HasSuper(w, s, stack, i + 1, stack[i].clazz)
  }

  ghost predicate Ordered(w: Classes, s: State) {
    forall t | 0 <= t < |s.stacks| :: StackOrdered(w, s, s.stacks[t])
  }

  /** No class is less decided than before. */
  ghost predicate StillDecided(s': State, s: State) {
    && |s'.status| == |s.status|
    && forall c | 0 <= c < |s.status| && s.status[c] in {Ready, Error} :: s'.status[c] in {Ready, Error}
  }

  /** The classes that have become ready have their superclasses. */
  ghost predicate ReadyInOrder(w: Classes, s': State, s: State, t: nat) {
    && s'.Shaped(w) && |s'.status| == |s.status|
    && forall c | 0 <= c < |s.status| && s'.status[c] == Ready && s.status[c] != Ready :: SuperDone(w, s', t, c)
  }

  lemma HasSuperStill(w: Classes, s': State, s: State, stack': seq<Frame>, stack: seq<Frame>, n: nat, c: nat)
    requires HasSuper(w, s, stack, n, c) && StillDecided(s', s) && n <= |stack| && n <= |stack'|
    requires stack'[..n] == stack[..n]
    ensures HasSuper(w, s', stack', n, c)
  {
    if c < |w.superOf| == |w.isInterface| && w.superOf[c].Some? && !w.isInterface[c]
      && s.status[w.superOf[c].value] !in {Ready, Error} {
      var j :| 0 <= j < n && j < |stack| && Owns(stack[j], w.superOf[c].value);
      assert stack'[j] == stack'[..n][j] == stack[..n][j] == stack[j];
    }
  }

  /** The first frames stay, and the others are in order. */
  lemma StackStillOrdered(w: Classes, s': State, s: State, stack': seq<Frame>, stack: seq<Frame>, n: nat)
    requires StackOrdered(w, s, stack) && StillDecided(s', s) && n <= |stack| && n <= |stack'|
    requires stack'[..n] == stack[..n]
    requires forall i | n <= i < |stack'| && stack'[i].Init? && stack'[i].step >= 5 ::
               HasSuper(w, s', stack', i + 1, stack'[i].clazz)
    ensures StackOrdered(w, s', stack')
  {
    forall i | 0 <= i < |stack'| && stack'[i].Init? && stack'[i].step >= 5
      ensures HasSuper(w, s', stack', i + 1, stack'[i].clazz)
    {
      if i < n {
        assert stack'[i] == stack'[..n][i] == stack[..n][i] == stack[i];
        assert stack'[..i + 1] == stack'[..n][..i + 1] == stack[..n][..i + 1] == stack[..i + 1];
        HasSuperStill(w, s', s, stack', stack, i + 1, stack[i].clazz);
      }
    }
  }

  /** One thread moves. */
  lemma MovedOrdered(w: Classes, s': State, s: State, t: nat, n: nat)
    requires Ordered(w, s) && StillDecided(s', s) && t < |s.stacks| == |s'.stacks|
    requires n <= |s.stacks[t]| && n <= |s'.stacks[t]| && s'.stacks[t][..n] == s.stacks[t][..n]
    requires forall u | 0 <= u < |s.stacks| && u != t :: s'.stacks[u] == s.stacks[u]
    requires forall i | n <= i < |s'.stacks[t]| && s'.stacks[t][i].Init? && s'.stacks[t][i].step >= 5 ::
               HasSuper(w, s', s'.stacks[t], i + 1, s'.stacks[t][i].clazz)
    ensures Ordered(w, s')
  {
    hide HasSuper, StackOrdered, StillDecided;
    forall u | 0 <= u < |s'.stacks|
      ensures StackOrdered(w, s', s'.stacks[u])
    {
      if u == t {
        StackStillOrdered(w, s', s, s'.stacks[t], s.stacks[t], n);
      } else {
        NothingMoved(w, s', s, s.stacks[u]);
      }
    }
  }

  lemma NothingMoved(w: Classes, s': State, s: State, stack: seq<Frame>)
    requires StackOrdered(w, s, stack) && StillDecided(s', s)
    ensures StackOrdered(w, s', stack)
  {
    StackStillOrdered(w, s', s, stack, stack, |stack|);
  }

  /** A frame that is not behind step 8 is pushed. */
  lemma PushOrdered(w: Classes, s: State, t: nat, f: Frame)
    requires Ordered(w, s) && t < |s.stacks| && !(f.Init? && f.step >= 5)
    ensures Ordered(w, s.Push(t, f))
  {
    MovedOrdered(w, s.Push(t, f), s, t, |s.stacks[t]|);
  }

  lemma PopOrdered(w: Classes, s: State, t: nat)
    requires Ordered(w, s) && t < |s.stacks| && s.stacks[t] != []
    ensures Ordered(w, s.Pop(t))
  {
    MovedOrdered(w, s.Pop(t), s, t, |s.stacks[t]| - 1);
  }

  /** The topmost call goes on from another step. */
  lemma ResumeOrdered(w: Classes, s: State, t: nat, c: nat, step: nat)
    requires Ordered(w, s) && t < |s.stacks| && s.stacks[t] != []
    requires step >= 5 ==> Owns(Top(s.stacks[t]), c) && HasSuper(w, s, s.stacks[t], |s.stacks[t]|, c)
    ensures Ordered(w, s.Resume(t, c, step))
  {
    var s', n := s.Resume(t, c, step), |s.stacks[t]| - 1;
    if step >= 5 {
      ResumedHasSuper(w, s, s.stacks[t], c, step);
    }
    hide HasSuper;
    MovedOrdered(w, s', s, t, n);
  }

  lemma ResumedHasSuper(w: Classes, s: State, stack: seq<Frame>, c: nat, step: nat)
    requires stack != [] && step >= 5 && Owns(Top(stack), c) && HasSuper(w, s, stack, |stack|, c)
    ensures forall s': State | s'.status == s.status ::
              HasSuper(w, s', stack[..|stack| - 1] + [Init(c, step)], |stack|, c)
  {
    var stack' := stack[..|stack| - 1] + [Init(c, step)];
    if c < |w.superOf| == |w.isInterface| && w.superOf[c].Some? && !w.isInterface[c]
      && s.status[w.superOf[c].value] !in {Ready, Error} {
      var j :| 0 <= j < |stack| && Owns(stack[j], w.superOf[c].value);
      assert Owns(stack'[j], w.superOf[c].value);
    }
  }

  lemma StatusOrdered(w: Classes, s: State, c: nat, status: Status)
    requires Ordered(w, s) && c < |s.status| && (s.status[c] in {Ready, Error} ==> status in {Ready, Error})
    ensures Ordered(w, s.(status := s.status[c := status]))
  {
    hide StackOrdered;
    var s' := s.(status := s.status[c := status]);
    forall u | 0 <= u < |s'.stacks|
      ensures StackOrdered(w, s', s'.stacks[u])
    {
      NothingMoved(w, s', s, s.stacks[u]);
    }
  }

  lemma InitializeClassOrdered(w: Classes, s: State, t: nat, c: nat, verifies: bool)
    requires s.Shaped(w) && Ordered(w, s) && t < |s.stacks| && c < |s.status|
    ensures var out := InitializeClass(w, s, t, c, verifies);
            && Ordered(w, out.s) && ReadyInOrder(w, out.s, s, t)
            && (out.raised ==> forall d | 0 <= d < |s.status| && out.s.status[d] == Ready :: s.status[d] == Ready)
  {
    hide Ordered;
    InitializeClassShaped(w, s, t, c, verifies);
    if s.status[c] !in {Ready, Error} {
      StatusOrdered(w, s, c, Error);
      StatusOrdered(w, s, c, Verified);
      StatusOrdered(w, s, c, Ready);
      PushOrdered(w, s.(status := s.status[c := Verified]), t, Init(c, 1));
    }
  }

  /** A superclass that a frame of the thread is initializing. */
  lemma HasSuperIsDone(w: Classes, s: State, t: nat, c: nat)
    requires s.Shaped(w) && OwnersOk(s) && t < |s.stacks| && c < |s.status|
    ensures HasSuper(w, s, s.stacks[t], |s.stacks[t]|, c) <==> SuperDone(w, s, t, c)
  {
    var super := w.superOf[c];
    if super.Some? && !w.isInterface[c] {
      assert OwnerOk(s, t, super.value);
      if j :| 0 <= j < |s.stacks[t]| && Owns(s.stacks[t][j], super.value) {
        OwnersAt(s.stacks[t], j, super.value);
      }
      if s.initThread[super.value] == Some(t) {
        OwnerThere(s.stacks[t], super.value);
      }
    }
  }

  lemma {:induction false} OwnerThere(stack: seq<Frame>, c: nat)
    requires Owners(stack, c) >= 1
    ensures exists j :: 0 <= j < |stack| && Owns(stack[j], c)
  {
    if !Owns(Top(stack), c) {
      OwnerThere(stack[..|stack| - 1], c);
      var j :| 0 <= j < |stack| - 1 && Owns(stack[..|stack| - 1][j], c);
      assert Owns(stack[j], c);
    }
  }

  /** Step 9. */
  lemma UnmarkOrdered(w: Classes, s: State, t: nat, c: nat)
    requires s.Shaped(w) && Ordered(w, s) && t < |s.stacks| && c < |s.status| && s.stacks[t] != []
    requires SuperDone(w, s, t, c)
    ensures Ordered(w, Unmark(w, s, t, c)) && ReadyInOrder(w, Unmark(w, s, t, c), s, t)
  {
    RunMethodShaped(w, s, t, c, Free);
    StatusOrdered(w, s, c, Ready);
    var ready := s.(status := s.status[c := Ready]);
    PopOrdered(w, ready, t);
    SameOrder(w, Unmark(w, s, t, c), ready.Pop(t));
  }

  lemma SameOrder(w: Classes, s': State, s: State)
    requires Ordered(w, s) && s'.status == s.status && s'.stacks == s.stacks
    ensures Ordered(w, s')
  {
    hide StackOrdered;
    forall u | 0 <= u < |s'.stacks|
      ensures StackOrdered(w, s', s'.stacks[u])
    {
      NothingMoved(w, s', s, s.stacks[u]);
    }
  }

  lemma FinishOrdered(w: Classes, s: State, t: nat, c: nat, exit: Lock)
    requires s.Shaped(w) && OwnersOk(s) && Ordered(w, s) && t < |s.stacks| && c < |s.status| && s.stacks[t] != []
    requires SuperDone(w, s, t, c) && Owns(Top(s.stacks[t]), c)
    ensures Ordered(w, Finish(w, s, t, c, exit)) && ReadyInOrder(w, Finish(w, s, t, c, exit), s, t)
  {
    hide Ordered, OwnersOk, SuperDone, HasSuper;
    HasSuperIsDone(w, s, t, c);
    ResumeOrdered(w, s, t, c, 6);
    UnmarkOrdered(w, s, t, c);
    ResumeShaped(w, s, t, c, 6);
  }

  /** Step 8. */
  lemma RunMethodOrdered(w: Classes, s: State, t: nat, c: nat, exit: Lock)
    requires s.Shaped(w) && OwnersOk(s) && Ordered(w, s) && t < |s.stacks| && c < |s.status| && s.stacks[t] != []
    requires SuperDone(w, s, t, c) && Owns(Top(s.stacks[t]), c)
    ensures Ordered(w, RunMethod(w, s, t, c, exit)) && ReadyInOrder(w, RunMethod(w, s, t, c, exit), s, t)
  {
    hide Ordered, OwnersOk, SuperDone, HasSuper, Finish;
    if w.hasClinit[c] {
      HasSuperIsDone(w, s, t, c);
      ResumeOrdered(w, s, t, c, 5);
      PushOrdered(w, s.Resume(t, c, 5), t, Clinit(c));
      RunMethodShaped(w, s, t, c, exit);
      SameOrder(w, RunMethod(w, s, t, c, exit), s.Resume(t, c, 5).Push(t, Clinit(c)));
    } else {
      FinishOrdered(w, s, t, c, exit);
    }
  }

  /** Steps 3 to 6. */
  lemma MarkClassOrdered(w: Classes, s: State, t: nat, c: nat, exit: Lock, verifies: bool)
    requires Inv(w, s) && Ordered(w, s) && t < |s.stacks| && s.stacks[t] != [] && Top(s.stacks[t]).Init?
    requires Top(s.stacks[t]).clazz == c < |s.status|
    requires Top(s.stacks[t]).step < 4 && (s.initThread[c] == None || s.initThread[c] == Some(t))
    ensures var out := MarkClass(w, s, t, c, exit, verifies);
            && Ordered(w, out.s) && ReadyInOrder(w, out.s, s, t)
            && (out.raised ==> forall d | 0 <= d < |s.status| && out.s.status[d] == Ready :: s.status[d] == Ready)
  {
    InvOf(w, s, t);
    PopOrdered(w, s, t);
    PopShaped(w, s, t);
    if s.initThread[c] == None && s.status[c] !in {Ready, Error} {
      MarkKeeps(w, s, t, c);
      var taken, marked := s.(initThread := s.initThread[c := Some(t)]), Marked(s, t, c);
      assert taken.Shaped(w);
      hide Ordered, InitializeClass, RunMethod, StackOk, StartedOk, OwnersOk, TopDone;
      ResumeOrdered(w, s, t, c, 4);
      SameOrder(w, marked, s.Resume(t, c, 4));
      var super := NeededSuper(w, c);
      if super.Some? && s.status[super.value] != Ready {
        InitializeClassOrdered(w, marked, t, super.value, verifies);
      } else {
        SameAsResumed(w, taken, t, c, exit);
        RunMethodOrdered(w, marked, t, c, exit);
      }
    }
  }

  lemma RunClinitOrdered(w: Classes, s: State, t: nat, enter: Lock, exit: Lock, verifies: bool)
    requires Inv(w, s) && Ordered(w, s) && t < |s.stacks| && s.stacks[t] != [] && Top(s.stacks[t]).Init?
    ensures var out := RunClinit(w, s, t, enter, exit, verifies);
            && Ordered(w, out.s) && ReadyInOrder(w, out.s, s, t)
            && (out.raised ==> forall d | 0 <= d < |s.status| && out.s.status[d] == Ready :: s.status[d] == Ready)
  {
    var top := Top(s.stacks[t]);
    assert FrameOk(w, top);
    var c := top.clazz;
    InvOf(w, s, t);
    if top.step <= 2 {
      ResumeOrdered(w, s, t, c, 2);
      ResumeShaped(w, s, t, c, 2);
      if !(top.step == 1 && enter == Awaited) && !(s.initThread[c].Some? && s.initThread[c] != Some(t)) {
        MarkClassOrdered(w, s, t, c, exit, verifies);
      }
    } else if top.step == 4 {
      assert TopDone(w, s, t);
      RunMethodOrdered(w, s, t, c, exit);
    } else {
      PastHasSuper(w, s, t, c);
      FinishOrdered(w, s, t, c, exit);
      UnmarkOrdered(w, s, t, c);
    }
  }

  lemma PastHasSuper(w: Classes, s: State, t: nat, c: nat)
    requires s.Shaped(w) && OwnersOk(s) && Ordered(w, s) && t < |s.stacks| && c < |s.status| && s.stacks[t] != []
    requires Top(s.stacks[t]).Init? && Top(s.stacks[t]).clazz == c && Top(s.stacks[t]).step >= 5
    ensures SuperDone(w, s, t, c)
  {
    hide OwnersOk, HasSuper, SuperDone;
    var n := |s.stacks[t]|;
    assert StackOrdered(w, s, s.stacks[t]);
    assert HasSuper(w, s, s.stacks[t], n - 1 + 1, s.stacks[t][n - 1].clazz);
    HasSuperIsDone(w, s, t, c);
  }

  lemma {:induction false} UnwindOrdered(w: Classes, s: State, t: nat, keep: nat)
    requires s.Shaped(w) && Ordered(w, s) && t < |s.stacks|
    ensures var s' := Unwind(w, s, t, keep);
            && Ordered(w, s') && s'.Shaped(w) && |s'.status| == |s.status|
            && forall d | 0 <= d < |s.status| && s'.status[d] == Ready :: s.status[d] == Ready
    decreases |s.stacks[t]|
  {
    hide Ordered;
    if keep < |s.stacks[t]| {
      var top := Top(s.stacks[t]);
      assert FrameOk(w, top);
      var handled := if top.Init? then RunClinitException(w, s, top) else s;
      assert handled.Shaped(w);
      if top.Init? {
        StatusOrdered(w, s, top.clazz, Error);
        SameOrder(w, handled, if top.step in {1, 4, 5} then s.(status := s.status[top.clazz := Error]) else s);
      }
      PopShaped(w, handled, t);
      PopOrdered(w, handled, t);
      UnwindOrdered(w, handled.Pop(t), t, keep);
    }
  }

  /** What an event does that ends with an exception, if it raises one. */
  lemma SettleOrdered(w: Classes, out: Outcome, s: State, t: nat, keep: nat)
    requires out.s.Shaped(w) && t < |out.s.stacks| && Ordered(w, out.s) && ReadyInOrder(w, out.s, s, t)
    requires out.raised ==> forall d | 0 <= d < |s.status| && out.s.status[d] == Ready :: s.status[d] == Ready
    ensures Ordered(w, Settle(w, out, t, keep)) && ReadyInOrder(w, Settle(w, out, t, keep), s, t)
  {
    hide Ordered, SuperDone;
    if out.raised {
      UnwindOrdered(w, out.s, t, keep);
    }
  }

  /** Whatever event makes a class ready: the thread does not have to wait for its superclass any more. */
  lemma ReadyAfterSuper(w: Classes, s: State, e: Event)
    requires Inv(w, s) && Ordered(w, s)
    ensures Ordered(w, Next(w, s, e)) && ReadyInOrder(w, Next(w, s, e), s, e.thread)
  {
    if Enabled(s, e) {
      var t := e.thread;
      InvOf(w, s, t);
      hide Ordered, Inv, ReadyInOrder, InitializeClass, RunClinit, Unwind;
      match e {
        case Touch(_, c, verifies, keep) =>
          InitializeClassShaped(w, s, t, c, verifies);
          InitializeClassOrdered(w, s, t, c, verifies);
          SettleOrdered(w, InitializeClass(w, s, t, c, verifies), s, t, keep);
        case Run(_, enter, exit, verifies, keep) =>
          RunClinitShaped(w, s, t, enter, exit, verifies);
          RunClinitOrdered(w, s, t, enter, exit, verifies);
          SettleOrdered(w, RunClinit(w, s, t, enter, exit, verifies), s, t, keep);
        case Call(_) =>
          PushOrdered(w, s, t, Code);
          PushShaped(w, s, t, Code);
          NoneReady(w, s.Push(t, Code), s, t);
        case Return(_) =>
          PopOrdered(w, s, t);
          PopShaped(w, s, t);
          NoneReady(w, s.Pop(t), s, t);
        case Throw(_, keep) =>
          UnwindOrdered(w, s, t, keep);
          NoneReady(w, Unwind(w, s, t, keep), s, t);
      }
    }
  }

  lemma NoneReady(w: Classes, s': State, s: State, t: nat)
    requires s'.Shaped(w) && |s'.status| == |s.status|
    requires forall d | 0 <= d < |s.status| && s'.status[d] == Ready :: s.status[d] == Ready
    ensures ReadyInOrder(w, s', s, t)
  {
  }

  lemma InitialOrdered(w: Classes, s: State)
    requires Initial(w, s)
    ensures Ordered(w, s)
  {
  }

  lemma {:induction false} EveryRunOrdered(w: Classes, s: State, events: seq<Event>)
    requires Inv(w, s) && Ordered(w, s)
    ensures Ordered(w, Execute(w, s, events))
    decreases |events|
  {
    hide Ordered;
    if events != [] {
      ReadyAfterSuper(w, s, events[0]);
      NextKeeps(w, s, events[0]);
      EveryRunOrdered(w, Next(w, s, events[0]), events[1..]);
    }
  }

  /** So it is with each event of each run. */
  lemma AlwaysReadyAfterSuper(w: Classes, s: State, events: seq<Event>, e: Event)
    requires Initial(w, s)
    ensures s.Shaped(w)
    ensures var s1 := Execute(w, s, events); ReadyInOrder(w, Next(w, s1, e), s1, e.thread)
  {
    InitialInv(w, s);
    InitialOrdered(w, s);
    EveryRunKeeps(w, s, events);
    EveryRunOrdered(w, s, events);
    hide Ordered, Inv, Initial, ReadyInOrder;
    ReadyAfterSuper(w, Execute(w, s, events), e);
  }
}
