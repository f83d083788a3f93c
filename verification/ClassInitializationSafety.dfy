/** What holds in every interleaving of class initializations. */
module ClassInitializationSafety {
  import opened ClassInitialization
  import opened Options

  /** What may happen next; `keep` is the number of frames that an exception, if there is one, leaves on the stack. */
  datatype Event =
    | Touch(thread: nat, clazz: nat, verifies: bool, keep: nat)
    | Run(thread: nat, enter: Lock, exit: Lock, verifies: bool, keep: nat)
    | Call(thread: nat)
    | Return(thread: nat)
    | Throw(thread: nat, keep: nat)

  function Top(stack: seq<Frame>): Frame
    requires stack != []
  {
    stack[|stack| - 1]
  }

  /** A frame that runs code, its own or that of <clinit>. */
  predicate RunsCode(stack: seq<Frame>) {
    stack != [] && !Top(stack).Init?
  }

  /** An exception can be caught by the keep-th frame, or by nobody. */
  predicate Catches(stack: seq<Frame>, keep: nat) {
    keep == 0 || (keep <= |stack| && !stack[keep - 1].Init?)
  }

  function Settle(w: Classes, outcome: Outcome, t: nat, keep: nat): State
    requires outcome.s.Shaped(w) && t < |outcome.s.stacks|
  {
    if outcome.raised then Unwind(w, outcome.s, t, keep) else outcome.s
  }

  /** Whether an event can happen. */
  predicate Enabled(s: State, e: Event) {
    && !s.fatal && e.thread < |s.stacks|
    && match e
       case Touch(t, c, _, keep) => RunsCode(s.stacks[t]) && c < |s.status| && Catches(s.stacks[t], keep)
       case Run(t, _, _, _, keep) => s.stacks[t] != [] && Top(s.stacks[t]).Init? && Catches(s.stacks[t], keep)
       case Call(t) => s.stacks[t] == [] || RunsCode(s.stacks[t])
       case Return(t) => RunsCode(s.stacks[t])
       case Throw(t, keep) => RunsCode(s.stacks[t]) && Catches(s.stacks[t], keep)
  }

  /** The number of frames that have marked class c as theirs. */
  ghost function Owners(stack: seq<Frame>, c: nat): nat {
    if stack == [] then 0 else Owners(stack[..|stack| - 1], c) + (if Owns(Top(stack), c) then 1 else 0)
  }

  /** The frame is past the marking of class c. */
  predicate Owns(f: Frame, c: nat) {
    f.Init? && f.clazz == c && f.step >= 4
  }

  /** b may stand on top of a. */
  predicate Link(w: Classes, a: Frame, b: Frame)
    requires w.Valid()
  {
    match a
    case Init(c, step) =>
      && c < |w.superOf|
      && ((step == 4 && b.Init? && !w.isInterface[c] && w.superOf[c] == Some(b.clazz)) || (step == 5 && b == Clinit(c)))
    case _ => !b.Clinit?
  }

  ghost predicate StackOk(w: Classes, stack: seq<Frame>)
    requires w.Valid()
  {
    (stack != [] ==> !stack[0].Clinit?) && forall i | 0 <= i < |stack| - 1 :: Link(w, stack[i], stack[i + 1])
  }

  /** The superclass of class c does not have to be waited for any more. */
  predicate SuperDone(w: Classes, s: State, t: nat, c: nat)
    requires s.Shaped(w) && c < |s.status|
  {
    var super := w.superOf[c];
    super.Some? && !w.isInterface[c] ==>
      s.status[super.value] in {Ready, Error} || s.initThread[super.value] == Some(t)
  }

  /** When a thread goes on with <clinit>, the superclass is done. */
  predicate TopDone(w: Classes, s: State, t: nat)
    requires s.Shaped(w) && t < |s.stacks|
  {
    s.stacks[t] != [] && Top(s.stacks[t]).Init? && Top(s.stacks[t]).step == 4 && Top(s.stacks[t]).clazz < |s.status| ==>
      SuperDone(w, s, t, Top(s.stacks[t]).clazz)
  }

  ghost predicate NoDuplicates(s: seq<nat>) {
    forall i, j | 0 <= i < j < |s| :: s[i] != s[j]
  }

  /** A <clinit> that has been started is over, or its class is still marked, past the start. */
  ghost predicate StartedOk(s: State) {
    && NoDuplicates(s.started)
    && (forall c | c in s.started ::
          c < |s.status| == |s.initThread| && (s.status[c] in {Ready, Error} || s.initThread[c].Some?))
    && (forall t, i | 0 <= t < |s.stacks| && 0 <= i < |s.stacks[t]| :: NotStarted(s.stacks[t][i], s.started))
  }

  predicate NotStarted(f: Frame, started: seq<nat>) {
    f.Init? && f.step == 4 ==> f.clazz !in started
  }

  /** Exactly the threads that are past the marking of a class are its initializing threads, each with one frame. */
  ghost predicate OwnersOk(s: State) {
    && (forall t, c | 0 <= t < |s.stacks| && 0 <= c < |s.initThread| :: OwnerOk(s, t, c))
    && (forall c | 0 <= c < |s.initThread| :: s.initThread[c].Some? ==> s.initThread[c].value < |s.stacks|)
  }

  ghost predicate OwnerOk(s: State, t: nat, c: nat)
    requires t < |s.stacks| && c < |s.initThread|
  {
    Owners(s.stacks[t], c) == if s.initThread[c] == Some(t) then 1 else 0
  }

  ghost predicate Inv(w: Classes, s: State) {
    && s.Shaped(w) && !s.fatal
    && (forall t | 0 <= t < |s.stacks| :: StackOk(w, s.stacks[t]) && TopDone(w, s, t))
    && OwnersOk(s) && StartedOk(s)
  }

  lemma OwnersPush(stack: seq<Frame>, f: Frame, c: nat)
    ensures Owners(stack + [f], c) == Owners(stack, c) + (if Owns(f, c) then 1 else 0)
  {
    assert (stack + [f])[..|stack|] == stack;
  }

  lemma {:induction false} OwnersAt(stack: seq<Frame>, i: nat, c: nat)
    requires i < |stack| && Owns(stack[i], c)
    ensures Owners(stack, c) >= 1
  {
    if i < |stack| - 1 {
      OwnersAt(stack[..|stack| - 1], i, c);
    }
  }

  /** Two frames past the marking of the same class count twice. */
  lemma {:induction false} OwnersTwice(stack: seq<Frame>, i: nat, j: nat, c: nat)
    requires i < j < |stack| && Owns(stack[i], c) && Owns(stack[j], c)
    ensures Owners(stack, c) >= 2
  {
    if j < |stack| - 1 {
      OwnersTwice(stack[..|stack| - 1], i, j, c);
    } else {
      OwnersAt(stack[..|stack| - 1], i, c);
    }
  }

  /** The invariant, but for the superclass of the class that thread t is about to go on with. */
  ghost predicate InvBut(w: Classes, s: State, t: nat) {
    && s.Shaped(w) && !s.fatal && t < |s.stacks|
    && (forall u | 0 <= u < |s.stacks| :: StackOk(w, s.stacks[u]) && (u != t ==> TopDone(w, s, u)))
    && OwnersOk(s) && StartedOk(s)
  }

  lemma InvOf(w: Classes, s: State, t: nat)
    requires t < |s.stacks|
    ensures Inv(w, s) <==> InvBut(w, s, t) && TopDone(w, s, t)
  {
    hide StackOk, TopDone, OwnersOk, StartedOk;
  }

  lemma StackPush(w: Classes, stack: seq<Frame>, f: Frame)
    requires w.Valid() && StackOk(w, stack) && (if stack == [] then !f.Clinit? else Link(w, Top(stack), f))
    ensures StackOk(w, stack + [f])
  {
    hide Link;
    var longer := stack + [f];
    forall i | 0 <= i < |longer| - 1
      ensures Link(w, longer[i], longer[i + 1])
    {
      if i < |stack| - 1 {
        assert longer[i] == stack[i] && longer[i + 1] == stack[i + 1];
      }
    }
  }

  lemma StackPop(w: Classes, stack: seq<Frame>)
    requires w.Valid() && StackOk(w, stack) && stack != []
    ensures StackOk(w, stack[..|stack| - 1])
    ensures |stack| > 1 ==> Link(w, stack[|stack| - 2], Top(stack))
  {
    hide Link;
    var shorter := stack[..|stack| - 1];
    forall i | 0 <= i < |shorter| - 1
      ensures Link(w, shorter[i], shorter[i + 1])
    {
      assert Link(w, stack[i], stack[i + 1]);
    }
    if |stack| > 1 {
      assert Link(w, stack[|stack| - 2], stack[|stack| - 2 + 1]);
    }
  }

  /** Another step of the same call may stand in the same place. */
  lemma StackResume(w: Classes, stack: seq<Frame>, c: nat, step: nat)
    requires w.Valid() && StackOk(w, stack) && stack != [] && Top(stack).Init? && Top(stack).clazz == c
    ensures StackOk(w, stack[..|stack| - 1] + [Init(c, step)])
  {
    StackPop(w, stack);
    var below := stack[..|stack| - 1];
    if below != [] {
      assert Top(below) == stack[|stack| - 2];
    }
    StackPush(w, below, Init(c, step));
  }

  /** Threads that do not move are still done with their superclass if no class becomes less ready. */
  lemma TopStill(w: Classes, s': State, s: State, u: nat)
    requires s.Shaped(w) && s'.Shaped(w) && u < |s.stacks| == |s'.stacks| && s'.stacks[u] == s.stacks[u]
    requires TopDone(w, s, u)
    requires forall c | 0 <= c < |s.status| :: StillDone(s', s, u, c)
    ensures TopDone(w, s', u)
  {
    if s.stacks[u] != [] && Top(s.stacks[u]).Init? && Top(s.stacks[u]).step == 4
      && Top(s.stacks[u]).clazz < |s.status| {
      var super := NeededSuper(w, Top(s.stacks[u]).clazz);
      if super.Some? {
        assert StillDone(s', s, u, super.value);
      }
    }
  }

  predicate StillDone(s': State, s: State, u: nat, c: nat) {
    && c < |s.status| == |s'.status| == |s.initThread| == |s'.initThread|
    && (s.status[c] in {Ready, Error} || s.initThread[c] == Some(u) ==>
          s'.status[c] in {Ready, Error} || s'.initThread[c] == Some(u))
  }

  /** The frames of one thread change, nothing else does. */
  lemma StacksChange(w: Classes, s': State, s: State, t: nat)
    requires InvBut(w, s, t) && |s'.stacks| == |s.stacks| && s' == s.(stacks := s.stacks[t := s'.stacks[t]])
    requires s'.Shaped(w)
    requires StackOk(w, s'.stacks[t])
    requires forall c | 0 <= c < |s.initThread| :: Owners(s'.stacks[t], c) == Owners(s.stacks[t], c)
    requires forall i | 0 <= i < |s'.stacks[t]| :: NotStarted(s'.stacks[t][i], s.started)
    ensures InvBut(w, s', t)
  {
    hide StackOk, Owners, TopDone;
    forall u | 0 <= u < |s'.stacks|
      ensures StackOk(w, s'.stacks[u]) && (u != t ==> TopDone(w, s', u))
    {
      if u != t {
        TopStill(w, s', s, u);
      }
    }
    forall u, c | 0 <= u < |s'.stacks| && 0 <= c < |s'.initThread|
      ensures OwnerOk(s', u, c)
    {
      assert OwnerOk(s, u, c);
    }
    forall u, i | 0 <= u < |s'.stacks| && 0 <= i < |s'.stacks[u]|
      ensures NotStarted(s'.stacks[u][i], s'.started)
    {
      if u != t {
        assert NotStarted(s.stacks[u][i], s.started);
      }
    }
  }

  lemma PushShaped(w: Classes, s: State, t: nat, f: Frame)
    requires s.Shaped(w) && t < |s.stacks| && FrameOk(w, f)
    ensures s.Push(t, f).Shaped(w)
  {
    var s' := s.Push(t, f);
    forall u, i | 0 <= u < |s'.stacks| && 0 <= i < |s'.stacks[u]|
      ensures FrameOk(w, s'.stacks[u][i])
    {
      if u != t || i < |s.stacks[t]| {
        assert s'.stacks[u][i] == s.stacks[u][i];
      }
    }
  }

  /** A new frame that has marked no class. */
  lemma PushKeeps(w: Classes, s: State, t: nat, f: Frame)
    requires InvBut(w, s, t) && FrameOk(w, f) && !(f.Init? && f.step >= 4)
    requires if s.stacks[t] == [] then !f.Clinit? else Link(w, Top(s.stacks[t]), f)
    ensures Inv(w, s.Push(t, f))
  {
    hide OwnersOk, Link;
    var s' := s.Push(t, f);
    PushShaped(w, s, t, f);
    StackPush(w, s.stacks[t], f);
    hide StackOk;
    forall c | 0 <= c < |s.initThread|
      ensures Owners(s'.stacks[t], c) == Owners(s.stacks[t], c)
    {
      OwnersPush(s.stacks[t], f, c);
    }
    StacksChange(w, s', s, t);
    InvOf(w, s', t);
  }

  lemma OwnersPop(stack: seq<Frame>, c: nat)
    requires stack != []
    ensures Owners(stack, c) == Owners(stack[..|stack| - 1], c) + (if Owns(Top(stack), c) then 1 else 0)
  {
  }

  /** Dropping a frame that has marked no class. */
  lemma PopKeeps(w: Classes, s: State, t: nat)
    requires InvBut(w, s, t) && s.stacks[t] != [] && !(Top(s.stacks[t]).Init? && Top(s.stacks[t]).step >= 4)
    ensures InvBut(w, s.Pop(t), t)
  {
    hide OwnersOk, Link;
    var s' := s.Pop(t);
    PopShaped(w, s, t);
    StackPop(w, s.stacks[t]);
    hide StackOk;
    StacksChange(w, s', s, t);
  }

  /** Going on with another step of the same call, before or after the marking. */
  lemma ResumeKeeps(w: Classes, s: State, t: nat, c: nat, step: nat)
    requires InvBut(w, s, t) && s.stacks[t] != [] && Top(s.stacks[t]).Init? && Top(s.stacks[t]).clazz == c < |s.status|
    requires step in {2, 5, 6} && (step >= 4 <==> Top(s.stacks[t]).step >= 4)
    ensures InvBut(w, s.Resume(t, c, step), t) && TopDone(w, s.Resume(t, c, step), t)
  {
    hide OwnersOk, Link;
    var s' := s.Resume(t, c, step);
    var below := s.stacks[t][..|s.stacks[t]| - 1];
    ResumeShaped(w, s, t, c, step);
    StackResume(w, s.stacks[t], c, step);
    hide StackOk;
    forall d | 0 <= d < |s.initThread|
      ensures Owners(s'.stacks[t], d) == Owners(s.stacks[t], d)
    {
      OwnersPush(below, Init(c, step), d);
    }
    StacksChange(w, s', s, t);
  }

  /** A class becomes more ready. */
  lemma StatusKeeps(w: Classes, s: State, t: nat, c: nat, status: Status)
    requires InvBut(w, s, t) && c < |s.status| && (status in {Ready, Error} || s.status[c] !in {Ready, Error})
    ensures InvBut(w, s.(status := s.status[c := status]), t)
    ensures TopDone(w, s, t) ==> TopDone(w, s.(status := s.status[c := status]), t)
  {
    hide StackOk, Owners, TopDone;
    var s' := s.(status := s.status[c := status]);
    forall u | 0 <= u < |s'.stacks|
      ensures TopDone(w, s, u) ==> TopDone(w, s', u)
    {
      if TopDone(w, s, u) {
        TopStill(w, s', s, u);
      }
    }
    forall u, d | 0 <= u < |s'.stacks| && 0 <= d < |s'.initThread|
      ensures OwnerOk(s', u, d)
    {
      assert OwnerOk(s, u, d);
    }
  }

  /** initializeClass. */
  lemma InitializeClassKeeps(w: Classes, s: State, t: nat, c: nat, verifies: bool)
    requires InvBut(w, s, t) && c < |s.status| && s.stacks[t] != []
    requires Top(s.stacks[t]).Init? ==>
               Top(s.stacks[t]).step == 4 && FrameOk(w, Top(s.stacks[t]))
                 && NeededSuper(w, Top(s.stacks[t]).clazz) == Some(c)
    ensures Inv(w, InitializeClass(w, s, t, c, verifies).s)
    ensures InitializeClass(w, s, t, c, verifies).raised ==> InitializeClass(w, s, t, c, verifies).s.stacks == s.stacks
  {
    hide StackOk, OwnersOk, StartedOk;
    var out := InitializeClass(w, s, t, c, verifies);
    if s.status[c] in {Ready, Error} {
      InvOf(w, s, t);
    } else if s.status[c] == Raw && !verifies {
      StatusKeeps(w, s, t, c, Error);
      InvOf(w, out.s, t);
    } else if (w.superOf[c].None? || s.status[w.superOf[c].value] == Ready) && !w.hasClinit[c] {
      StatusKeeps(w, s, t, c, Ready);
      InvOf(w, out.s, t);
    } else {
      StatusKeeps(w, s, t, c, Verified);
      PushKeeps(w, s.(status := s.status[c := Verified]), t, Init(c, 1));
    }
  }

  /** Giving up a class: its initializing thread is nobody, it is ready or in error, and the frame is dropped. */
  lemma ReleaseKeeps(w: Classes, s: State, t: nat, c: nat, status: Status)
    requires InvBut(w, s, t) && s.stacks[t] != [] && Owns(Top(s.stacks[t]), c) && c < |s.status|
    requires status in {Ready, Error}
    ensures s.(initThread := s.initThread[c := None], status := s.status[c := status]).Shaped(w)
    ensures InvBut(w, s.(initThread := s.initThread[c := None], status := s.status[c := status]).Pop(t), t)
  {
    var given := s.(initThread := s.initThread[c := None], status := s.status[c := status]);
    assert given.Shaped(w);
    PopShaped(w, given, t);
    var s' := given.Pop(t);
    OwnerIs(w, s, t, c);
    hide TopDone;
    forall u | 0 <= u < |s'.stacks|
      ensures StackOk(w, s'.stacks[u]) && (u != t ==> TopDone(w, s', u))
    {
      if u == t {
        StackPop(w, s.stacks[t]);
      } else {
        TopStill(w, s', s, u);
      }
    }
    hide StackOk, Link;
    OwnersReleased(w, s', s, t, c);
    forall u, i | 0 <= u < |s'.stacks| && 0 <= i < |s'.stacks[u]|
      ensures NotStarted(s'.stacks[u][i], s'.started)
    {
      assert NotStarted(s.stacks[u][i], s.started);
    }
  }

  /** A frame that is past the marking of a class belongs to its initializing thread. */
  lemma OwnerIs(w: Classes, s: State, t: nat, c: nat)
    requires OwnersOk(s) && t < |s.stacks| && s.stacks[t] != [] && Owns(Top(s.stacks[t]), c) && c < |s.initThread|
    ensures s.initThread[c] == Some(t) && Owners(s.stacks[t], c) == 1
  {
    OwnersAt(s.stacks[t], |s.stacks[t]| - 1, c);
    assert OwnerOk(s, t, c);
  }

  lemma OwnersReleased(w: Classes, s': State, s: State, t: nat, c: nat)
    requires OwnersOk(s) && t < |s.stacks| && s.stacks[t] != [] && Owns(Top(s.stacks[t]), c) && c < |s.initThread|
    requires s'.initThread == s.initThread[c := None] && s'.stacks == s.stacks[t := s.stacks[t][..|s.stacks[t]| - 1]]
    ensures OwnersOk(s')
  {
    OwnerIs(w, s, t, c);
    forall u, d | 0 <= u < |s'.stacks| && 0 <= d < |s'.initThread|
      ensures OwnerOk(s', u, d)
    {
      assert OwnerOk(s, u, d);
      OwnersPop(s.stacks[t], d);
    }
  }

  /** Step 6: the thread becomes the initializing thread of the class; the call goes on with step 4. */
  function Marked(s: State, t: nat, c: nat): State
    requires t < |s.stacks| && s.stacks[t] != [] && c < |s.initThread|
  {
    s.(initThread := s.initThread[c := Some(t)]).Resume(t, c, 4)
  }

  lemma MarkKeeps(w: Classes, s: State, t: nat, c: nat)
    requires InvBut(w, s, t) && s.stacks[t] != [] && Top(s.stacks[t]).Init? && Top(s.stacks[t]).clazz == c < |s.status|
    requires Top(s.stacks[t]).step < 4
    requires s.initThread[c] == None && s.status[c] !in {Ready, Error}
    ensures InvBut(w, Marked(s, t, c), t)
  {
    var s' := Marked(s, t, c);
    ResumeShaped(w, s.(initThread := s.initThread[c := Some(t)]), t, c, 4);
    StackResume(w, s.stacks[t], c, 4);
    hide StackOk, TopDone;
    forall u | 0 <= u < |s'.stacks|
      ensures StackOk(w, s'.stacks[u]) && (u != t ==> TopDone(w, s', u))
    {
      if u != t {
        TopStill(w, s', s, u);
      }
    }
    OwnersMarked(s', s, t, c);
    forall u, i | 0 <= u < |s'.stacks| && 0 <= i < |s'.stacks[u]|
      ensures NotStarted(s'.stacks[u][i], s'.started)
    {
      if u != t || i < |s.stacks[t]| - 1 {
        assert s'.stacks[u][i] == s.stacks[u][i] && NotStarted(s.stacks[u][i], s.started);
      }
    }
  }

  lemma OwnersMarked(s': State, s: State, t: nat, c: nat)
    requires OwnersOk(s) && t < |s.stacks| && s.stacks[t] != [] && Top(s.stacks[t]).Init? && Top(s.stacks[t]).step < 4
    requires c < |s.initThread| && s.initThread[c] == None && s'.initThread == s.initThread[c := Some(t)]
    requires s'.stacks == s.stacks[t := s.stacks[t][..|s.stacks[t]| - 1] + [Init(c, 4)]]
    ensures OwnersOk(s')
  {
    forall u, d | 0 <= u < |s'.stacks| && 0 <= d < |s'.initThread|
      ensures OwnerOk(s', u, d)
    {
      assert OwnerOk(s, u, d);
      OwnersPush(s.stacks[t][..|s.stacks[t]| - 1], Init(c, 4), d);
    }
  }

  /** Starting <clinit>. */
  lemma StartKeeps(w: Classes, s: State, t: nat, c: nat)
    requires Inv(w, s) && t < |s.stacks| && s.stacks[t] != [] && Top(s.stacks[t]) == Init(c, 4) && c < |s.status|
    ensures Inv(w, s.Resume(t, c, 5).Push(t, Clinit(c)).(started := s.started + [c])) && c !in s.started
  {
    InvOf(w, s, t);
    assert NotStarted(s.stacks[t][|s.stacks[t]| - 1], s.started);
    OwnerIs(w, s, t, c);
    ResumeKeeps(w, s, t, c, 5);
    var resumed := s.Resume(t, c, 5);
    assert Top(resumed.stacks[t]) == Init(c, 5);
    PushKeeps(w, resumed, t, Clinit(c));
    var s' := resumed.Push(t, Clinit(c));
    OnlyOwner(w, s', t, c, |s'.stacks[t]| - 2);
    hide StackOk, TopDone, OwnersOk;
    var started := s.(started := s.started + [c]);
    forall u, i | 0 <= u < |s'.stacks| && 0 <= i < |s'.stacks[u]|
      ensures NotStarted(s'.stacks[u][i], started.started)
    {
      assert NotStarted(s'.stacks[u][i], s.started);
    }
    StartedLog(w, s', t, c);
  }

  /** A class that has been marked is marked in no other frame. */
  lemma OnlyOwner(w: Classes, s: State, t: nat, c: nat, k: nat)
    requires OwnersOk(s) && t < |s.stacks| && k < |s.stacks[t]| && Owns(s.stacks[t][k], c) && c < |s.initThread|
    ensures s.initThread[c] == Some(t)
    ensures forall u, i | 0 <= u < |s.stacks| && 0 <= i < |s.stacks[u]| && Owns(s.stacks[u][i], c) :: u == t && i == k
  {
    OwnersAt(s.stacks[t], k, c);
    assert OwnerOk(s, t, c);
    forall u, i | 0 <= u < |s.stacks| && 0 <= i < |s.stacks[u]| && Owns(s.stacks[u][i], c)
      ensures u == t && i == k
    {
      OwnersAt(s.stacks[u], i, c);
      assert OwnerOk(s, u, c);
      if u == t && i != k {
        OwnersTwice(s.stacks[t], if i < k then i else k, if i < k then k else i, c);
      }
    }
  }

  lemma StartedLog(w: Classes, s: State, t: nat, c: nat)
    requires Inv(w, s) && c < |s.initThread| && s.initThread[c] == Some(t) && c !in s.started
    requires forall u, i | 0 <= u < |s.stacks| && 0 <= i < |s.stacks[u]| :: NotStarted(s.stacks[u][i], s.started + [c])
    ensures Inv(w, s.(started := s.started + [c]))
  {
    var s' := s.(started := s.started + [c]);
    hide StackOk, OwnersOk;
    assert forall u | 0 <= u < |s.stacks| :: TopDone(w, s, u) ==> TopDone(w, s', u);
    assert OwnersOk(s') by {
      SameOwners(s', s);
    }
  }

  lemma SameOwners(s': State, s: State)
    requires OwnersOk(s) && s'.stacks == s.stacks && s'.initThread == s.initThread
    ensures OwnersOk(s')
  {
    forall u, d | 0 <= u < |s'.stacks| && 0 <= d < |s'.initThread|
      ensures OwnerOk(s', u, d)
    {
      assert OwnerOk(s, u, d);
    }
  }

  /** After a call for class c is over, the class below that was waiting for it may go on. */
  lemma TopDoneAfterPop(w: Classes, s': State, s: State, t: nat, c: nat)
    requires InvBut(w, s', t) && s.Shaped(w) && t < |s.stacks| && s.stacks[t] != [] && StackOk(w, s.stacks[t])
    requires Top(s.stacks[t]).Init? && Top(s.stacks[t]).clazz == c < |s'.status|
    requires s'.stacks[t] == s.stacks[t][..|s.stacks[t]| - 1]
    requires s'.status[c] in {Ready, Error} || s'.initThread[c] == Some(t)
    ensures Inv(w, s')
  {
    StackPop(w, s.stacks[t]);
    InvOf(w, s', t);
  }

  /** Step 9. */
  lemma UnmarkKeeps(w: Classes, s: State, t: nat, c: nat)
    requires InvBut(w, s, t) && s.stacks[t] != [] && Owns(Top(s.stacks[t]), c) && c < |s.status|
    ensures Inv(w, Unmark(w, s, t, c)) && Unmark(w, s, t, c).started == s.started
  {
    ReleaseKeeps(w, s, t, c, Ready);
    hide OwnersOk, StartedOk, TopDone;
    TopDoneAfterPop(w, Unmark(w, s, t, c), s, t, c);
  }

  lemma FinishKeeps(w: Classes, s: State, t: nat, c: nat, exit: Lock)
    requires InvBut(w, s, t) && s.stacks[t] != [] && Owns(Top(s.stacks[t]), c) && c < |s.status|
    ensures Inv(w, Finish(w, s, t, c, exit)) && Finish(w, s, t, c, exit).started == s.started
  {
    if exit == Awaited {
      ResumeKeeps(w, s, t, c, 6);
      InvOf(w, s.Resume(t, c, 6), t);
    } else {
      UnmarkKeeps(w, s, t, c);
    }
  }

  /** Step 8: if it starts <clinit>, the superclass is done and the method has not been started before. */
  lemma RunMethodKeeps(w: Classes, s: State, t: nat, c: nat, exit: Lock)
    requires Inv(w, s) && t < |s.stacks| && s.stacks[t] != [] && Top(s.stacks[t]) == Init(c, 4) && c < |s.status|
    ensures Inv(w, RunMethod(w, s, t, c, exit)) && SuperDone(w, s, t, c) && s.initThread[c] == Some(t)
  {
    InvOf(w, s, t);
    OwnerIs(w, s, t, c);
    if w.hasClinit[c] {
      StartKeeps(w, s, t, c);
    } else {
      FinishKeeps(w, s, t, c, exit);
    }
  }

  lemma ResumeTwice(s: State, t: nat, c: nat, first: nat, second: nat)
    requires t < |s.stacks| && s.stacks[t] != []
    ensures s.Resume(t, c, first).Resume(t, c, second) == s.Resume(t, c, second)
    ensures s.Resume(t, c, first).Pop(t) == s.Pop(t)
  {
    var below := s.stacks[t][..|s.stacks[t]| - 1];
    assert (below + [Init(c, first)])[..|s.stacks[t]| - 1] == below;
  }

  /** From the marking on, the call behaves as if it had been resumed at step 4. */
  lemma SameAsResumed(w: Classes, s: State, t: nat, c: nat, exit: Lock)
    requires s.Shaped(w) && t < |s.stacks| && c < |s.status| && s.stacks[t] != []
    ensures s.Resume(t, c, 4).Shaped(w)
    ensures RunMethod(w, s, t, c, exit) == RunMethod(w, s.Resume(t, c, 4), t, c, exit)
  {
    ResumeShaped(w, s, t, c, 4);
    ResumeTwice(s, t, c, 4, 5);
    ResumeTwice(s, t, c, 4, 6);
  }

  lemma MarkClassKeeps(w: Classes, s: State, t: nat, c: nat, exit: Lock, verifies: bool)
    requires Inv(w, s) && t < |s.stacks| && s.stacks[t] != [] && Top(s.stacks[t]).Init?
    requires Top(s.stacks[t]).clazz == c < |s.status|
    requires Top(s.stacks[t]).step < 4 && (s.initThread[c] == None || s.initThread[c] == Some(t))
    ensures Inv(w, MarkClass(w, s, t, c, exit, verifies).s)
    ensures MarkClass(w, s, t, c, exit, verifies).raised ==>
              var stack := MarkClass(w, s, t, c, exit, verifies).s.stacks[t];
              stack == s.stacks[t][..|s.stacks[t]| - 1] + [Init(c, 4)]
  {
    InvOf(w, s, t);
    if s.initThread[c] == Some(t) || s.status[c] in {Ready, Error} {
      PopKeeps(w, s, t);
      TopDoneAfterPop(w, s.Pop(t), s, t, c);
    } else {
      MarkKeeps(w, s, t, c);
      var taken := s.(initThread := s.initThread[c := Some(t)]);
      assert taken.Shaped(w);
      var marked := Marked(s, t, c);
      var super := NeededSuper(w, c);
      if super.Some? && s.status[super.value] != Ready {
        InitializeClassKeeps(w, marked, t, super.value, verifies);
      } else {
        SameAsResumed(w, taken, t, c, exit);
        InvOf(w, marked, t);
        RunMethodKeeps(w, marked, t, c, exit);
      }
    }
  }

  lemma RunClinitKeeps(w: Classes, s: State, t: nat, enter: Lock, exit: Lock, verifies: bool)
    requires Inv(w, s) && t < |s.stacks| && s.stacks[t] != [] && Top(s.stacks[t]).Init?
    ensures Inv(w, RunClinit(w, s, t, enter, exit, verifies).s)
    ensures RunClinit(w, s, t, enter, exit, verifies).raised ==>
              var stack := RunClinit(w, s, t, enter, exit, verifies).s.stacks[t];
              |stack| == |s.stacks[t]| && stack[..|stack| - 1] == s.stacks[t][..|stack| - 1] && Top(stack).Init?
                && Top(stack).step == 4
  {
    var top := Top(s.stacks[t]);
    assert FrameOk(w, top);
    var c := top.clazz;
    InvOf(w, s, t);
    if top.step <= 2 {
      if (top.step == 1 && enter == Awaited) || (s.initThread[c].Some? && s.initThread[c] != Some(t)) {
        ResumeKeeps(w, s, t, c, 2);
        InvOf(w, s.Resume(t, c, 2), t);
      } else {
        MarkClassKeeps(w, s, t, c, exit, verifies);
      }
    } else if top.step == 4 {
      RunMethodKeeps(w, s, t, c, exit);
    } else if top.step == 5 {
      FinishKeeps(w, s, t, c, exit);
    } else {
      UnmarkKeeps(w, s, t, c);
    }
  }

  /** A frame that other code may have been called from. */
  predicate HandedOver(stack: seq<Frame>) {
    stack != [] && Top(stack).Init? ==> Top(stack).step in {4, 5}
  }

  lemma HandedOverBelow(w: Classes, stack: seq<Frame>)
    requires w.Valid() && StackOk(w, stack) && stack != []
    ensures HandedOver(stack[..|stack| - 1])
  {
    StackPop(w, stack);
  }

  /**
   * An exception unwinds frames of all kinds without confusing the classes: it never meets a call that cannot see one.
   */
  lemma {:induction false} UnwindKeeps(w: Classes, s: State, t: nat, keep: nat)
    requires InvBut(w, s, t) && HandedOver(s.stacks[t]) && keep <= |s.stacks[t]| && Catches(s.stacks[t], keep)
    ensures Inv(w, Unwind(w, s, t, keep)) && Unwind(w, s, t, keep).started == s.started
    decreases |s.stacks[t]|
  {
    if |s.stacks[t]| == keep {
      InvOf(w, s, t);
    } else {
      var top := Top(s.stacks[t]);
      assert FrameOk(w, top);
      HandedOverBelow(w, s.stacks[t]);
      if top.Init? {
        ReleaseKeeps(w, s, t, top.clazz, Error);
        var released := s.(initThread := s.initThread[top.clazz := None], status := s.status[top.clazz := Error]);
        assert RunClinitException(w, s, top) == released;
        UnwindKeeps(w, released.Pop(t), t, keep);
      } else {
        PopKeeps(w, s, t);
        UnwindKeeps(w, s.Pop(t), t, keep);
      }
    }
  }

  /** The state after an event; an event that cannot happen changes nothing. */
  function Next(w: Classes, s: State, e: Event): State
    requires s.Shaped(w)
  {
    if !Enabled(s, e) then s
    else
      match e
      case Touch(t, c, verifies, keep) =>
        InitializeClassShaped(w, s, t, c, verifies);
        Settle(w, InitializeClass(w, s, t, c, verifies), t, keep)
      case Run(t, enter, exit, verifies, keep) =>
        RunClinitShaped(w, s, t, enter, exit, verifies);
        Settle(w, RunClinit(w, s, t, enter, exit, verifies), t, keep)
      case Call(t) => s.Push(t, Code)
      case Return(t) => s.Pop(t)
      case Throw(t, keep) => Unwind(w, s, t, keep)
  }

  lemma InitializeClassShaped(w: Classes, s: State, t: nat, c: nat, verifies: bool)
    requires s.Shaped(w) && t < |s.stacks| && c < |s.status|
    ensures InitializeClass(w, s, t, c, verifies).s.Shaped(w)
    ensures |InitializeClass(w, s, t, c, verifies).s.stacks| == |s.stacks|
  {
    var verified := s.(status := s.status[c := Verified]);
    assert verified.Shaped(w);
    PushShaped(w, verified, t, Init(c, 1));
  }

  lemma RunMethodShaped(w: Classes, s: State, t: nat, c: nat, exit: Lock)
    requires s.Shaped(w) && t < |s.stacks| && c < |s.status| && s.stacks[t] != []
    ensures RunMethod(w, s, t, c, exit).Shaped(w) && |RunMethod(w, s, t, c, exit).stacks| == |s.stacks|
    ensures Finish(w, s, t, c, exit).Shaped(w) && |Finish(w, s, t, c, exit).stacks| == |s.stacks|
    ensures Unmark(w, s, t, c).Shaped(w) && |Unmark(w, s, t, c).stacks| == |s.stacks|
  {
    ResumeShaped(w, s, t, c, 5);
    ResumeShaped(w, s, t, c, 6);
    PushShaped(w, s.Resume(t, c, 5), t, Clinit(c));
    var ready := s.(initThread := s.initThread[c := None], status := s.status[c := Ready]);
    assert ready.Shaped(w);
    PopShaped(w, ready, t);
  }

  lemma RunClinitShaped(w: Classes, s: State, t: nat, enter: Lock, exit: Lock, verifies: bool)
    requires s.Shaped(w) && t < |s.stacks| && s.stacks[t] != [] && Top(s.stacks[t]).Init?
    ensures RunClinit(w, s, t, enter, exit, verifies).s.Shaped(w)
    ensures |RunClinit(w, s, t, enter, exit, verifies).s.stacks| == |s.stacks|
  {
    assert FrameOk(w, Top(s.stacks[t]));
    var c := Top(s.stacks[t]).clazz;
    ResumeShaped(w, s, t, c, 2);
    PopShaped(w, s, t);
    var taken := s.(initThread := s.initThread[c := Some(t)]);
    assert taken.Shaped(w);
    ResumeShaped(w, taken, t, c, 4);
    RunMethodShaped(w, s, t, c, exit);
    RunMethodShaped(w, taken, t, c, exit);
    var super := NeededSuper(w, c);
    if super.Some? {
      InitializeClassShaped(w, taken.Resume(t, c, 4), t, super.value, verifies);
    }
  }

  /** Every event keeps the invariant. */
  lemma NextKeeps(w: Classes, s: State, e: Event)
    requires Inv(w, s)
    ensures Inv(w, Next(w, s, e))
  {
    if Enabled(s, e) {
      var t := e.thread;
      InvOf(w, s, t);
      match e {
        case Touch(_, c, verifies, keep) =>
          InitializeClassKeeps(w, s, t, c, verifies);
          var out := InitializeClass(w, s, t, c, verifies);
          InvOf(w, out.s, t);
          if out.raised {
            UnwindKeeps(w, out.s, t, keep);
          }
        case Run(_, enter, exit, verifies, keep) =>
          RunClinitKeeps(w, s, t, enter, exit, verifies);
          RunClinitShaped(w, s, t, enter, exit, verifies);
          var out := RunClinit(w, s, t, enter, exit, verifies);
          InvOf(w, out.s, t);
          if out.raised {
            CatchesBelow(s.stacks[t], out.s.stacks[t], keep);
            UnwindKeeps(w, out.s, t, keep);
          }
        case Call(_) =>
          PushKeeps(w, s, t, Code);
        case Return(_) =>
          PopKeeps(w, s, t);
          ReturnDone(w, s, t);
        case Throw(_, keep) =>
          UnwindKeeps(w, s, t, keep);
      }
    }
  }

  lemma CatchesBelow(before: seq<Frame>, after: seq<Frame>, keep: nat)
    requires Catches(before, keep) && before != [] && Top(before).Init? && |after| == |before|
    requires after[..|after| - 1] == before[..|after| - 1]
    ensures keep < |after| && Catches(after, keep)
  {
    if keep > 0 {
      assert keep != |before|;
      assert after[keep - 1] == after[..|after| - 1][keep - 1] == before[..|after| - 1][keep - 1] == before[keep - 1];
    }
  }

  /** A method returns to code, or to the step behind the call of <clinit>. */
  lemma ReturnDone(w: Classes, s: State, t: nat)
    requires Inv(w, s) && t < |s.stacks| && RunsCode(s.stacks[t]) && InvBut(w, s.Pop(t), t)
    ensures Inv(w, s.Pop(t))
  {
    StackPop(w, s.stacks[t]);
    InvOf(w, s.Pop(t), t);
  }

  /** The machine before it has run anything: no class is being initialized, no thread has a frame. */
  ghost predicate Initial(w: Classes, s: State) {
    && w.Valid() && |s.status| == |s.initThread| == |w.superOf| && !s.fatal && s.started == []
    && (forall c | 0 <= c < |s.initThread| :: s.initThread[c] == None)
    && (forall t | 0 <= t < |s.stacks| :: s.stacks[t] == [])
  }

  lemma InitialInv(w: Classes, s: State)
    requires Initial(w, s)
    ensures Inv(w, s)
  {
  }

  /** A run: any events, of any threads, in any order. */
  ghost function Execute(w: Classes, s: State, events: seq<Event>): (s': State)
    requires s.Shaped(w)
    ensures s'.Shaped(w)
    decreases |events|
  {
    if events == [] then s
    else
      NextShaped(w, s, events[0]);
      Execute(w, Next(w, s, events[0]), events[1..])
  }

  lemma {:induction false} UnwindShaped(w: Classes, s: State, t: nat, keep: nat)
    requires s.Shaped(w) && t < |s.stacks|
    ensures Unwind(w, s, t, keep).Shaped(w)
    decreases |s.stacks[t]|
  {
    if keep < |s.stacks[t]| {
      var top := Top(s.stacks[t]);
      assert FrameOk(w, top);
      var handled := if top.Init? then RunClinitException(w, s, top) else s;
      assert handled.Shaped(w);
      PopShaped(w, handled, t);
      UnwindShaped(w, handled.Pop(t), t, keep);
    }
  }

  lemma NextShaped(w: Classes, s: State, e: Event)
    requires s.Shaped(w)
    ensures Next(w, s, e).Shaped(w)
  {
    if Enabled(s, e) {
      var t := e.thread;
      match e {
        case Touch(_, c, verifies, keep) =>
          InitializeClassShaped(w, s, t, c, verifies);
          UnwindShaped(w, InitializeClass(w, s, t, c, verifies).s, t, keep);
        case Run(_, enter, exit, verifies, keep) =>
          RunClinitShaped(w, s, t, enter, exit, verifies);
          UnwindShaped(w, RunClinit(w, s, t, enter, exit, verifies).s, t, keep);
        case Call(_) =>
          PushShaped(w, s, t, Code);
        case Return(_) =>
          PopShaped(w, s, t);
        case Throw(_, keep) =>
          UnwindShaped(w, s, t, keep);
      }
    }
  }

  lemma {:induction false} EveryRunKeeps(w: Classes, s: State, events: seq<Event>)
    requires Inv(w, s)
    ensures Inv(w, Execute(w, s, events))
    decreases |events|
  {
    if events != [] {
      NextKeeps(w, s, events[0]);
      EveryRunKeeps(w, Next(w, s, events[0]), events[1..]);
    }
  }

  /**
   * In every run: each <clinit> is started at most once; at most one call in all threads is past the marking of a
   * class, and it belongs to the initializing thread of the class; and no exception meets a call that is waiting for a
   * monitor.
   */
  lemma InitializedOnce(w: Classes, s: State, events: seq<Event>)
    requires Initial(w, s)
    ensures var s' := Execute(w, s, events);
            && NoDuplicates(s'.started) && !s'.fatal
            && (forall t, i, u, j | 0 <= t < |s'.stacks| && 0 <= i < |s'.stacks[t]| && 0 <= u < |s'.stacks|
                && 0 <= j < |s'.stacks[u]|
                                    && s'.stacks[t][i].Init? && Owns(s'.stacks[t][i], s'.stacks[t][i].clazz)
                                    && Owns(s'.stacks[u][j], s'.stacks[t][i].clazz) ::
                  u == t && j == i && s'.stacks[t][i].clazz < |s'.initThread|
                    && s'.initThread[s'.stacks[t][i].clazz] == Some(t))
  {
    InitialInv(w, s);
    EveryRunKeeps(w, s, events);
    var s' := Execute(w, s, events);
    hide StackOk, TopDone;
    forall t, i, u, j | 0 <= t < |s'.stacks| && 0 <= i < |s'.stacks[t]| && 0 <= u < |s'.stacks|
      && 0 <= j < |s'.stacks[u]|
                        && s'.stacks[t][i].Init? && Owns(s'.stacks[t][i], s'.stacks[t][i].clazz)
                        && Owns(s'.stacks[u][j], s'.stacks[t][i].clazz)
      ensures u == t && j == i && s'.stacks[t][i].clazz < |s'.initThread|
      ensures s'.initThread[s'.stacks[t][i].clazz] == Some(t)
    {
      assert FrameOk(w, s'.stacks[t][i]);
      OnlyOwner(w, s', t, s'.stacks[t][i].clazz, i);
    }
  }

  /** What is true when a <clinit> is started: its class is marked by the thread, and its superclass is done. */
  ghost predicate GoodStart(w: Classes, s': State, t: nat, c: nat)
    requires s'.Shaped(w)
  {
    c < |s'.status| && w.hasClinit[c] && s'.initThread[c] == Some(t) && SuperDone(w, s', t, c)
  }

  lemma RunMethodStarts(w: Classes, s: State, t: nat, c: nat, exit: Lock)
    requires Inv(w, s) && t < |s.stacks| && s.stacks[t] != [] && Top(s.stacks[t]) == Init(c, 4) && c < |s.status|
    ensures var s' := RunMethod(w, s, t, c, exit);
            s'.Shaped(w) && (s'.started == s.started || (s'.started == s.started + [c] && GoodStart(w, s', t, c)))
  {
    RunMethodKeeps(w, s, t, c, exit);
    RunMethodShaped(w, s, t, c, exit);
  }

  lemma InitializeClassStarts(w: Classes, s: State, t: nat, c: nat, verifies: bool)
    requires s.Shaped(w) && t < |s.stacks| && c < |s.status|
    ensures InitializeClass(w, s, t, c, verifies).s.started == s.started
  {
  }

  /** A call of runClinit starts nothing but the <clinit> of its class, and that only when the superclass is done. */
  lemma RunClinitStarts(w: Classes, s: State, t: nat, enter: Lock, exit: Lock, verifies: bool)
    requires Inv(w, s) && t < |s.stacks| && s.stacks[t] != [] && Top(s.stacks[t]).Init?
    ensures var s' := RunClinit(w, s, t, enter, exit, verifies).s;
            var c := Top(s.stacks[t]).clazz;
            s'.Shaped(w) && (s'.started == s.started || (s'.started == s.started + [c] && GoodStart(w, s', t, c)))
  {
    var top := Top(s.stacks[t]);
    assert FrameOk(w, top);
    var c := top.clazz;
    RunClinitShaped(w, s, t, enter, exit, verifies);
    InvOf(w, s, t);
    if top.step == 4 {
      RunMethodStarts(w, s, t, c, exit);
    } else if top.step < 4 && s.initThread[c] == None && s.status[c] !in {Ready, Error} {
      MarkKeeps(w, s, t, c);
      var taken := s.(initThread := s.initThread[c := Some(t)]);
      assert taken.Shaped(w);
      var marked := Marked(s, t, c);
      var super := NeededSuper(w, c);
      if super.Some? && s.status[super.value] != Ready {
        InitializeClassStarts(w, marked, t, super.value, verifies);
      } else {
        SameAsResumed(w, taken, t, c, exit);
        InvOf(w, marked, t);
        RunMethodStarts(w, marked, t, c, exit);
      }
    }
  }

  /** The event has started nothing, or a <clinit> whose start is good. */
  ghost predicate StartsWell(w: Classes, s': State, s: State, t: nat) {
    s'.Shaped(w) && (s'.started == s.started || exists c :: s'.started == s.started + [c] && GoodStart(w, s', t, c))
  }

  lemma RunStartsWell(w: Classes, s: State, t: nat, enter: Lock, exit: Lock, verifies: bool, keep: nat, out: Outcome)
    requires Inv(w, s) && t < |s.stacks| && s.stacks[t] != [] && Top(s.stacks[t]).Init? && Catches(s.stacks[t], keep)
    requires out == RunClinit(w, s, t, enter, exit, verifies) && out.s.Shaped(w) && t < |out.s.stacks|
    ensures StartsWell(w, Settle(w, out, t, keep), s, t)
  {
    RunClinitStarts(w, s, t, enter, exit, verifies);
    RunClinitKeeps(w, s, t, enter, exit, verifies);
    InvOf(w, out.s, t);
    if out.raised {
      RaisesWithoutStart(w, s, t, enter, exit, verifies);
      CatchesBelow(s.stacks[t], out.s.stacks[t], keep);
      UnwindKeeps(w, out.s, t, keep);
    }
  }

  /** Every start in every run is a good one. */
  lemma StartsAreGood(w: Classes, s: State, e: Event)
    requires Inv(w, s)
    ensures StartsWell(w, Next(w, s, e), s, e.thread)
  {
    NextKeeps(w, s, e);
    if Enabled(s, e) {
      var t := e.thread;
      InvOf(w, s, t);
      hide GoodStart, OwnersOk, StartedOk, StackOk, TopDone;
      match e {
        case Touch(_, c, verifies, keep) =>
          InitializeClassKeeps(w, s, t, c, verifies);
          InitializeClassStarts(w, s, t, c, verifies);
          var out := InitializeClass(w, s, t, c, verifies);
          InvOf(w, out.s, t);
          if out.raised {
            UnwindKeeps(w, out.s, t, keep);
          }
        case Run(_, enter, exit, verifies, keep) =>
          RunClinitShaped(w, s, t, enter, exit, verifies);
          RunStartsWell(w, s, t, enter, exit, verifies, keep, RunClinit(w, s, t, enter, exit, verifies));
        case Throw(_, keep) =>
          UnwindKeeps(w, s, t, keep);
        case _ =>
      }
    }
  }

  lemma RaisesWithoutStart(w: Classes, s: State, t: nat, enter: Lock, exit: Lock, verifies: bool)
    requires Inv(w, s) && t < |s.stacks| && s.stacks[t] != [] && Top(s.stacks[t]).Init?
    requires RunClinit(w, s, t, enter, exit, verifies).raised
    ensures RunClinit(w, s, t, enter, exit, verifies).s.started == s.started
  {
    assert FrameOk(w, Top(s.stacks[t]));
  }

  lemma UnwindOnce(w: Classes, s: State, t: nat, keep: nat, s': State)
    requires s.Shaped(w) && t < |s.stacks| && keep < |s.stacks[t]| && FrameOk(w, Top(s.stacks[t]))
    requires s' == (if Top(s.stacks[t]).Init? then RunClinitException(w, s, Top(s.stacks[t])) else s).Pop(t)
    requires s'.Shaped(w)
    ensures Unwind(w, s, t, keep) == Unwind(w, s', t, keep)
  {
  }
}
