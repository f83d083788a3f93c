/** The imperative form of class initialization: status, initializing threads and stacks are changed in place. */
module ClassInitializer {
  import opened ClassInitialization
  import opened ClassInitializationSafety
  import opened ClassReadiness
  import opened SuperclassFirst
  import opened Options

  class Machine {
    const classes: Classes
    var status: seq<Status>
    var initThread: seq<Option<nat>>
    var stacks: seq<seq<Frame>>
    var fatal: bool
    ghost var started: seq<nat>

    constructor (classes: Classes, status: seq<Status>, threads: nat)
      requires classes.Valid() && |status| == |classes.superOf|
      ensures this.classes == classes && Initial(classes, Now()) && Valid()
    {
      this.classes, this.status, this.fatal, this.started := classes, status, false, [];
      this.initThread := seq(|status|, i => None);
      this.stacks := seq(threads, i => []);
      new;
      InitialInv(classes, Now());
      InitialLogged(classes, Now());
      InitialOrdered(classes, Now());
    }

    ghost function Now(): State
      reads this
    {
      State(status, initThread, stacks, started, fatal)
    }

    ghost predicate Valid()
      reads this
    {
      Inv(classes, Now()) && Logged(classes, Now()) && Ordered(classes, Now())
    }

    lemma InvShaped()
      requires Valid()
      ensures Now().Shaped(classes) && !fatal
    {
    }

    /** The machine stands in a state in which one of its threads can go on. */
    ghost predicate Usable(t: nat)
      reads this
    {
      Now().Shaped(classes) && t < |stacks|
    }

    method PushFrame(t: nat, frame: Frame)
      requires Usable(t)
      modifies this`stacks
      ensures Now() == old(Now()).Push(t, frame)
    {
      stacks := stacks[t := stacks[t] + [frame]];
    }

    method PopFrame(t: nat)
      requires Usable(t) && stacks[t] != []
      modifies this`stacks
      ensures Now() == old(Now()).Pop(t)
    {
      stacks := stacks[t := stacks[t][..|stacks[t]| - 1]];
    }

    /** topStack = step */
    method SetStep(t: nat, c: nat, step: nat)
      requires Usable(t) && stacks[t] != []
      modifies this`stacks
      ensures Now() == old(Now()).Resume(t, c, step)
    {
      stacks := stacks[t := stacks[t][..|stacks[t]| - 1] + [Init(c, step)]];
    }

    method InitializeClass(t: nat, c: nat, verifies: bool) returns (raised: bool)
      requires Usable(t) && c < |status|
      modifies this`status, this`stacks
      ensures Outcome(Now(), raised) == ClassInitialization.InitializeClass(classes, old(Now()), t, c, verifies)
      ensures !raised && stacks == old(stacks) ==> status[c] == Ready
      ensures status[c] == Ready && old(status[c]) != Ready ==> !classes.hasClinit[c]
    {
      raised := false;
      if status[c] == Error {
        raised := true;
      } else if status[c] != Ready {
        if status[c] == Raw {
          status := status[c := if verifies then Verified else Error];
          if !verifies {
            return true;
          }
        }
        assert status == old(status)[c := Verified];
        if (classes.superOf[c] == None || status[classes.superOf[c].value] == Ready) && !classes.hasClinit[c] {
          status := status[c := Ready];
          assert status == old(status)[c := Ready];
        } else {
          PushFrame(t, Init(c, 1));
          assert |stacks[t]| == |old(stacks[t])| + 1;
        }
      }
    }

    /** Cases 4 to 6 of the switch: runs <clinit>, or makes the class ready. */
    method RunFrom(t: nat, c: nat, state: nat, exit: Lock)
      requires Usable(t) && stacks[t] != [] && c < |status|
      modifies this`initThread, this`status, this`stacks, this`started
      ensures Now() == (if state <= 4 then RunMethod(classes, old(Now()), t, c, exit)
                        else if state <= 5 then Finish(classes, old(Now()), t, c, exit)
                        else Unmark(classes, old(Now()), t, c))
    {
      if state <= 4 && classes.hasClinit[c] {
        ResumeShaped(classes, Now(), t, c, 5);
        SetStep(t, c, 5);
        PushFrame(t, Clinit(c));
        started := started + [c];
        return;
      }
      if state <= 5 && exit == Awaited {
        SetStep(t, c, 6);
        return;
      }
      initThread := initThread[c := None];
      status := status[c := Ready];
      PopFrame(t);
    }

    /** markClass: steps 3 to 6, and on to the superclass or to the next steps. */
    method MarkClass(t: nat, c: nat, exit: Lock, verifies: bool) returns (raised: bool)
      requires Usable(t) && stacks[t] != [] && c < |status|
      modifies this`initThread, this`status, this`stacks, this`started
      ensures Outcome(Now(), raised) == ClassInitialization.MarkClass(classes, old(Now()), t, c, exit, verifies)
    {
      raised := false;
      if initThread[c] == Some(t) || status[c] == Ready {
        PopFrame(t);
        return;
      }
      if status[c] == Error {
        PopFrame(t);
        return;
      }
      initThread := initThread[c := Some(t)];
      if !classes.isInterface[c] {
        var super := classes.superOf[c];
        if super.Some? && status[super.value] != Ready {
          ResumeShaped(classes, Now(), t, c, 4);
          SetStep(t, c, 4);
          raised := InitializeClass(t, super.value, verifies);
          return;
        }
      }
      RunFrom(t, c, 3, exit);
    }

    /** The cases of the switch fall through from one step to the next. */
    method RunClinit(t: nat, enter: Lock, exit: Lock, verifies: bool) returns (raised: bool)
      requires Usable(t) && stacks[t] != [] && Top(stacks[t]).Init?
      modifies this
      ensures Outcome(Now(), raised) == ClassInitialization.RunClinit(classes, old(Now()), t, enter, exit, verifies)
      ensures fatal == old(fatal)
    {
      assert FrameOk(classes, Top(stacks[t]));
      var state, c := Top(stacks[t]).step, Top(stacks[t]).clazz;
      raised := false;
      if state <= 2 && !(state == 1 && enter == Free && initThread[c] == None) {
        if state == 1 && enter == Awaited {
          SetStep(t, c, 2);
          return;
        }
        if initThread[c].Some? && initThread[c] != Some(t) {
          SetStep(t, c, 2);
          return;
        }
      }
      if state <= 2 {
        raised := MarkClass(t, c, exit, verifies);
      } else {
        RunFrom(t, c, state, exit);
      }
    }

    method RunClinitException(frame: Frame)
      requires Now().Shaped(classes) && frame.Init? && FrameOk(classes, frame)
      modifies this`status, this`initThread, this`fatal
      ensures Now() == ClassInitialization.RunClinitException(classes, old(Now()), frame)
    {
      if frame.step != 1 && frame.step != 4 && frame.step != 5 {
        fatal := true;
      } else {
        status := status[frame.clazz := Error];
        initThread := initThread[frame.clazz := None];
      }
    }

    /** Unwinds the stack of a thread down to the frame that catches the exception. */
    method ThrowException(t: nat, keep: nat)
      requires Usable(t)
      modifies this
      ensures Now() == Unwind(classes, old(Now()), t, keep)
    {
      ghost var s0 := Now();
      while keep < |stacks[t]|
        invariant Usable(t) && Unwind(classes, Now(), t, keep) == Unwind(classes, s0, t, keep)
        decreases |stacks[t]|
      {
        ghost var s := Now();
        var frame := Top(stacks[t]);
        assert FrameOk(classes, frame);
        if frame.Init? {
          RunClinitException(frame);
        }
        PopShaped(classes, Now(), t);
        PopFrame(t);
        UnwindOnce(classes, s, t, keep, Now());
      }
    }

    /** One event of a run; the machine stays valid. */
    method Do(e: Event)
      requires Valid() && Enabled(Now(), e)
      modifies this
      ensures Valid() && Now() == Next(classes, old(Now()), e) && |status| == old(|status|)
      ensures forall c | 0 <= c < |status| && classes.hasClinit[c] && status[c] == Ready && old(status[c]) != Ready ::
                ClinitIsOver(Now(), c)
      ensures ReadyInOrder(classes, Now(), old(Now()), e.thread)
    {
      hide Logged, ClinitIsOver, Inv, Ordered, ReadyInOrder;
      InvShaped();
      ReadyAfterSuper(classes, Now(), e);
      ReadyAfterClinit(classes, Now(), e);
      NextKeeps(classes, Now(), e);
      match e {
        case Touch(t, c, verifies, keep) =>
          InitializeClassShaped(classes, Now(), t, c, verifies);
          var raised := InitializeClass(t, c, verifies);
          if raised {
            ThrowException(t, keep);
          }
        case Run(t, enter, exit, verifies, keep) =>
          RunClinitShaped(classes, Now(), t, enter, exit, verifies);
          var raised := RunClinit(t, enter, exit, verifies);
          if raised {
            ThrowException(t, keep);
          }
        case Call(t) =>
          PushFrame(t, Code);
        case Return(t) =>
          PopFrame(t);
        case Throw(t, keep) =>
          ThrowException(t, keep);
      }
    }
  }
}
