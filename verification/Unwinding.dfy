/** findHandler and throwException (frame.c): stack frames are unwound until one has a handler for the exception. */
module Unwinding {

  import opened Assignability
  import opened ClassLoading
  import opened ClassTables
  import opened Options
  import Stacks = ExecutionStacks

  type Frame = Stacks.Frame

  /** An entry of an exception handler table; a class of 0 accepts any exception. */
  datatype Handler = Handler(startPC: nat, endPC: nat, handlerPC: nat, exception: nat)

  datatype Throwable = Throwable(clazz: nat, id: int)

  /**
   * The handler tables of the methods that have one, the class reference that a constant pool index stands for, and the
   * method that runs custom code.
   */
  datatype Program = Program(handlers: map<Stacks.Method, seq<Handler>>, classes: map<(int, nat), nat>,
                             runCustomCode: int)

  /**
   * What happens outside: the error that monitorExit reports for a frame, and the exception that a callback puts in
   * place.
   */
  datatype Environment = Environment(exitErrors: seq<Option<Throwable>>, callbacks: seq<Option<Throwable>>)

  function TableOf(p: Program, m: Stacks.Method): seq<Handler> {
    if m in p.handlers then p.handlers[m] else []
  }

  /** The correction of return addresses, which point behind the call; custom code has not advanced the address. */
  function Correction(p: Program, callee: Stacks.Method): nat {
    if callee.name == p.runCustomCode then 0 else 1
  }

  function IpOffset(m: Stacks.Method, ip: int, correction: nat): nat {
    (ip - m.code - correction) % 0x1_0000
  }

  ghost predicate Good(p: Program, w: World) {
    && WellFormed(w) && Interned(w)
    && (forall k | k in p.classes :: p.classes[k] < |w|)
    && (forall m, h | m in p.handlers && h in p.handlers[m] && h.exception != 0 ::
          (m.constPool, h.exception) in p.classes)
  }

  /** The entry covers the offset, and accepts exceptions of the class. */
  ghost predicate Accepts(p: Program, w: World, m: Stacks.Method, h: Handler, clazz: nat, offset: nat)
    requires WellFormed(w) && clazz < |w|
  {
    && h.startPC <= offset < h.endPC
    && (h.exception == 0
        || ((m.constPool, h.exception) in p.classes && p.classes[(m.constPool, h.exception)] < |w|
            && Subtype(w, clazz, p.classes[(m.constPool, h.exception)])))
  }

  /** Entry i is the first one that accepts. */
  ghost predicate IsFirst(p: Program, w: World, m: Stacks.Method, clazz: nat, offset: nat, i: nat)
    requires WellFormed(w) && clazz < |w|
  {
    && i < |TableOf(p, m)| && Accepts(p, w, m, TableOf(p, m)[i], clazz, offset)
    && forall j | 0 <= j < i :: !Accepts(p, w, m, TableOf(p, m)[j], clazz, offset)
  }

  ghost predicate Handles(p: Program, w: World, m: Stacks.Method, clazz: nat, offset: nat)
    requires WellFormed(w) && clazz < |w|
  {
    exists h :: h in TableOf(p, m) && Accepts(p, w, m, h, clazz, offset)
  }

  method FindHandler(p: Program, loader: ClassLoader, m: Stacks.Method, clazz: nat,
                     offset: nat) returns (i: Option<nat>)
    requires loader.Valid() && Good(p, loader.world) && clazz < |loader.world|
    modifies loader
    ensures loader.Valid()
    ensures i.Some? ==> i.value < |TableOf(p, m)| && IsFirst(p, loader.world, m, clazz, offset, i.value)
    ensures i.Some? <==> Handles(p, loader.world, m, clazz, offset)
  {
    var table := TableOf(p, m);
    for k := 0 to |table|
      invariant loader.Valid()
      invariant forall j | 0 <= j < k :: !Accepts(p, loader.world, m, table[j], clazz, offset)
    {
      if offset < table[k].startPC {
      } else if offset >= table[k].endPC {
      } else if table[k].exception == 0 {
        return Some(k);
      } else {
        assert table[k] in p.handlers[m];
        var handlerClass := p.classes[(m.constPool, table[k].exception)];
        var assignable := loader.IsAssignableTo(clazz, handlerClass);
        if assignable {
          return Some(k);
        }
      }
    }
    return None;
  }

  /** A thread that throws an exception: its frames, its instruction pointer, and whether it is in a native method. */
  datatype Start = Start(frames: seq<Frame>, ip: int, inNative: bool, exception: Throwable)

  /** Where frame k is executing, as an offset into its code. */
  function OffsetAt(p: Program, s: Start, k: nat): nat
    requires k < |s.frames|
  {
    if k == |s.frames| - 1 then IpOffset(s.frames[k].m, s.ip, if s.inNative then 1 else 0)
    else IpOffset(s.frames[k].m, s.frames[k + 1].returnIp, Correction(p, s.frames[k + 1].m))
  }

  /** The exception after a frame that does not catch it has been left. */
  function Leaving(p: Program, env: Environment, f: Frame, k: nat, e: Throwable): Throwable
    requires k < |env.exitErrors| && k < |env.callbacks|
  {
    if f.sync.Some? && env.exitErrors[k].Some? then env.exitErrors[k].value
    else if f.m.name == p.runCustomCode && env.callbacks[k].Some? then env.callbacks[k].value
    else e
  }

  /** The exception with which frame k is reached. */
  function Arriving(p: Program, env: Environment, s: Start, k: nat): Throwable
    requires k < |s.frames| && |env.exitErrors| == |env.callbacks| == |s.frames|
    decreases |s.frames| - k
  {
    if k == |s.frames| - 1 then s.exception else Leaving(p, env, s.frames[k + 1], k + 1, Arriving(p, env, s, k + 1))
  }

  ghost predicate ClassesOk(env: Environment, s: Start, n: nat) {
    && |env.exitErrors| == |env.callbacks| == |s.frames| && s.exception.clazz < n
    && (forall k | 0 <= k < |s.frames| && env.exitErrors[k].Some? :: env.exitErrors[k].value.clazz < n)
    && (forall k | 0 <= k < |s.frames| && env.callbacks[k].Some? :: env.callbacks[k].value.clazz < n)
  }

  lemma ArrivingHasClass(p: Program, env: Environment, s: Start, n: nat, k: nat)
    requires ClassesOk(env, s, n) && k < |s.frames|
    ensures Arriving(p, env, s, k).clazz < n
    decreases |s.frames| - k
  {
    if k < |s.frames| - 1 {
      ArrivingHasClass(p, env, s, n, k + 1);
    }
  }

  /** Frame k has a handler for exception e. */
  ghost predicate HandlesHere(p: Program, w: World, s: Start, k: nat, e: Throwable)
    requires WellFormed(w) && k < |s.frames|
  {
    e.clazz < |w| && Handles(p, w, s.frames[k].m, e.clazz, OffsetAt(p, s, k))
  }

  /** The error of the failed monitor exit of frame k, if there is one. */
  function ExitError(env: Environment, s: Start, k: nat): Option<Throwable>
    requires k < |s.frames| && k < |env.exitErrors|
  {
    if s.frames[k].sync.Some? then env.exitErrors[k] else None
  }

  /** The exception that frame k catches: the one it is reached with, or the error of its failed monitor exit. */
  ghost function Caught(p: Program, w: World, env: Environment, s: Start, k: nat): Option<Throwable>
    requires WellFormed(w) && k < |s.frames| && |env.exitErrors| == |env.callbacks| == |s.frames|
  {
    if HandlesHere(p, w, s, k, Arriving(p, env, s, k)) then Some(Arriving(p, env, s, k))
    else if ExitError(env, s, k).Some? && HandlesHere(p, w, s, k, ExitError(env, s, k).value) then ExitError(env, s, k)
    else None
  }

  /** The frames from the top down to k whose monitors have to be left. */
  function Synchronized(s: Start, k: nat): seq<nat>
    requires k <= |s.frames|
    decreases |s.frames| - k
  {
    if k == |s.frames| then [] else Synchronized(s, k + 1) + if s.frames[k].sync.Some? then [k] else []
  }

  /** A frame that continues with a handler: its only operand is the exception. */
  function Handling(f: Frame, e: Throwable, sync: Option<int>): Frame {
    f.(operands := [Stacks.Word(e.id)], sync := sync)
  }

  /** The loop of throwException has come to frame k - 1, or has come back to it after its monitor exit has failed. */
  ghost predicate Reached(p: Program, w: World, env: Environment, s: Start, k: nat, again: bool, e: Throwable, ip: int,
                          correction: nat, attempts: seq<nat>)
    requires WellFormed(w) && |env.exitErrors| == |env.callbacks| == |s.frames|
  {
    && k <= |s.frames| && e.clazz < |w| && (again ==> k > 0)
    && (k > 0 ==> IpOffset(s.frames[k - 1].m, ip, correction) == OffsetAt(p, s, k - 1))
    && (k > 0 && !again ==> e == Arriving(p, env, s, k - 1))
    && (again ==> ExitError(env, s, k - 1) == Some(e) && !HandlesHere(p, w, s, k - 1, Arriving(p, env, s, k - 1)))
    && (forall j: nat | k <= j < |s.frames| :: Caught(p, w, env, s, j) == None)
    && attempts == Synchronized(s, k) + if again then [k - 1] else []
  }

  /** The exit of the monitor fails. */
  lemma ComeBack(p: Program, w: World, env: Environment, s: Start, k: nat, e: Throwable, e': Throwable, ip: int,
                 correction: nat, attempts: seq<nat>)
    requires WellFormed(w) && ClassesOk(env, s, |w|) && k > 0
    requires Reached(p, w, env, s, k, false, e, ip, correction, attempts)
    requires !HandlesHere(p, w, s, k - 1, e) && ExitError(env, s, k - 1) == Some(e')
    ensures Reached(p, w, env, s, k, true, e', ip, correction, attempts + [k - 1])
  {
    hide WellFormed, HandlesHere, Caught, IpOffset;
  }

  /** The frame is left. */
  lemma LeaveFrame(p: Program, w: World, env: Environment, s: Start, k: nat, again: bool, e: Throwable, ip: int,
                   correction: nat, attempts: seq<nat>, e': Throwable)
    requires WellFormed(w) && ClassesOk(env, s, |w|) && k > 0
    requires Reached(p, w, env, s, k, again, e, ip, correction, attempts)
    requires !HandlesHere(p, w, s, k - 1, e) && (again || ExitError(env, s, k - 1) == None)
    requires e' == Leaving(p, env, s.frames[k - 1], k - 1, Arriving(p, env, s, k - 1))
    ensures Reached(p, w, env, s, k - 1, false, e', s.frames[k - 1].returnIp, Correction(p, s.frames[k - 1].m),
                    attempts + if s.frames[k - 1].sync.Some? && !again then [k - 1] else [])
  {
    hide WellFormed, HandlesHere, IpOffset;
    ArrivingHasClass(p, env, s, |w|, k - 1);
    assert Caught(p, w, env, s, k - 1) == None;
  }

  /** The frame catches. */
  lemma Catch(p: Program, w: World, env: Environment, s: Start, k: nat, again: bool, e: Throwable, ip: int,
              correction: nat, attempts: seq<nat>)
    requires WellFormed(w) && ClassesOk(env, s, |w|) && k > 0
    requires Reached(p, w, env, s, k, again, e, ip, correction, attempts)
    requires HandlesHere(p, w, s, k - 1, e)
    ensures Caught(p, w, env, s, k - 1) == Some(e) && again == !HandlesHere(p, w, s, k - 1, Arriving(p, env, s, k - 1))
    ensures attempts == Synchronized(s, k) + if again then [k - 1] else []
  {
    hide WellFormed, HandlesHere, IpOffset;
  }

  lemma ReachedTop(p: Program, w: World, env: Environment, s: Start)
    requires WellFormed(w) && ClassesOk(env, s, |w|)
    ensures Reached(p, w, env, s, |s.frames|, false, s.exception, s.ip, if s.inNative then 1 else 0, [])
  {
    hide IpOffset;
  }

  lemma ReachedBottom(p: Program, w: World, env: Environment, s: Start, again: bool, e: Throwable, ip: int,
                      correction: nat, attempts: seq<nat>)
    requires WellFormed(w) && |env.exitErrors| == |env.callbacks| == |s.frames|
    requires Reached(p, w, env, s, 0, again, e, ip, correction, attempts)
    ensures attempts == Synchronized(s, 0)
    ensures forall j: nat | j < |s.frames| :: Caught(p, w, env, s, j) == None
  {
    hide Caught;
  }

  lemma ReachedFacts(p: Program, w: World, env: Environment, s: Start, k: nat, again: bool, e: Throwable, ip: int,
                     correction: nat, attempts: seq<nat>)
    requires WellFormed(w) && |env.exitErrors| == |env.callbacks| == |s.frames| && k > 0
    requires Reached(p, w, env, s, k, again, e, ip, correction, attempts)
    ensures k <= |s.frames| && IpOffset(s.frames[k - 1].m, ip, correction) == OffsetAt(p, s, k - 1)
    ensures again ==> ExitError(env, s, k - 1) == Some(e)
    ensures !again ==> e == Arriving(p, env, s, k - 1)
    ensures forall j: nat | k <= j < |s.frames| :: Caught(p, w, env, s, j) == None
  {
    hide Caught, IpOffset;
  }

  /** Frames below k - 1 are as they were; frame k - 1 has perhaps lost its monitor and its operands. */
  ghost predicate FramesLeft(frames: seq<Frame>, s: Start, k: nat, again: bool) {
    && k <= |s.frames| && k <= |frames|
    && (forall j | 0 <= j < k - 1 :: frames[j] == s.frames[j])
    && (k > 0 ==>
          frames[k - 1].(operands := [])
          == s.frames[k - 1].(operands := [], sync := if again then None else s.frames[k - 1].sync))
  }

  /** The frames, the instruction pointer and the attempted monitor exits when frame k catches an exception. */
  ghost predicate Continues(p: Program, w: World, env: Environment, s: Start, k: nat, frames: seq<Frame>, ip: int,
                            attempts: seq<nat>)
    requires WellFormed(w) && |env.exitErrors| == |env.callbacks| == |s.frames| && k < |s.frames|
  {
    var e, again := Caught(p, w, env, s, k), !HandlesHere(p, w, s, k, Arriving(p, env, s, k));
    && e.Some? && e.value.clazz < |w|
    && frames == s.frames[..k] + [s.frames[k].(operands := [Stacks.Word(e.value.id)],
                                               sync := if again then None else s.frames[k].sync)]
    && attempts == Synchronized(s, k + 1) + (if again then [k] else [])
    && (exists i: nat :: IsFirst(p, w, s.frames[k].m, e.value.clazz, OffsetAt(p, s, k), i)
                         && ip == s.frames[k].m.code + TableOf(p, s.frames[k].m)[i].handlerPC)
  }

  /**
   * The innermost frame that catches an exception continues with its handler; without one, all monitors have been left.
   */
  ghost predicate IsOutcome(p: Program, w: World, env: Environment, s: Start, caughtAt: Option<nat>,
                            frames: seq<Frame>, ip: int, attempts: seq<nat>)
    requires WellFormed(w) && |env.exitErrors| == |env.callbacks| == |s.frames|
  {
    && (forall j: nat | j < |s.frames| && (caughtAt.None? || j > caughtAt.value) :: Caught(p, w, env, s, j) == None)
    && (caughtAt.None? ==> attempts == Synchronized(s, 0))
    && (caughtAt.Some? ==> caughtAt.value < |s.frames| && Continues(p, w, env, s, caughtAt.value, frames, ip, attempts))
  }

  /** Nothing interferes: no monitor exit fails, and no custom code puts another exception in place. */
  predicate Undisturbed(env: Environment) {
    && (forall k | 0 <= k < |env.exitErrors| :: env.exitErrors[k] == None)
    && (forall k | 0 <= k < |env.callbacks| :: env.callbacks[k] == None)
  }

  lemma {:induction false} SameExceptionArrives(p: Program, env: Environment, s: Start, k: nat)
    requires |env.exitErrors| == |env.callbacks| == |s.frames| && Undisturbed(env) && k < |s.frames|
    ensures Arriving(p, env, s, k) == s.exception
    decreases |s.frames| - k
  {
    if k < |s.frames| - 1 {
      SameExceptionArrives(p, env, s, k + 1);
    }
  }

  /** Undisturbed, an exception is caught exactly if some frame handles it, and then by the innermost one. */
  lemma InnermostHandlerCatches(p: Program, w: World, env: Environment, s: Start, caughtAt: Option<nat>,
                                frames: seq<Frame>, ip: int, attempts: seq<nat>)
    requires WellFormed(w) && |env.exitErrors| == |env.callbacks| == |s.frames| && Undisturbed(env)
    requires IsOutcome(p, w, env, s, caughtAt, frames, ip, attempts)
    ensures caughtAt.Some? <==> exists k: nat :: k < |s.frames| && HandlesHere(p, w, s, k, s.exception)
    ensures caughtAt.Some? ==>
              && caughtAt.value < |s.frames| && HandlesHere(p, w, s, caughtAt.value, s.exception)
              && (forall k: nat | caughtAt.value < k < |s.frames| :: !HandlesHere(p, w, s, k, s.exception))
              && attempts == Synchronized(s, caughtAt.value + 1)
  {
    hide WellFormed, HandlesHere, IsFirst, OffsetAt, Arriving;
    forall k: nat | k < |s.frames|
      ensures Caught(p, w, env, s, k) == if HandlesHere(p, w, s, k, s.exception) then Some(s.exception) else None
    {
      SameExceptionArrives(p, env, s, k);
    }
    if caughtAt.Some? {
      SameExceptionArrives(p, env, s, caughtAt.value);
    }
  }

  /**
   * Frame k stands at the instruction at offset a, n bytes long. Where a call has been made the address behind it has
   * been stored, by a method or, at the top, for a native one; custom code has been called without advancing.
   */
  predicate StandsAt(p: Program, s: Start, k: nat, a: nat, n: nat)
    requires k < |s.frames|
  {
    && 1 <= n && a + n <= 0x1_0000
    && var at := s.frames[k].m.code + a;
       if k == |s.frames| - 1 then s.ip == if s.inNative then at + n else at
       else s.frames[k + 1].returnIp == if s.frames[k + 1].m.name == p.runCustomCode then at else at + n
  }

  /** No range of the handler table starts or ends inside the instruction at offset a. */
  predicate Aligned(table: seq<Handler>, a: nat, n: nat) {
    forall h | h in table :: !(a < h.startPC < a + n) && !(a < h.endPC < a + n)
  }

  /** An entry covers the offset that is looked up exactly if it covers the instruction. */
  lemma CoversInstruction(p: Program, s: Start, k: nat, a: nat, n: nat, h: Handler)
    requires k < |s.frames| && StandsAt(p, s, k, a, n) && Aligned([h], a, n)
    ensures h.startPC <= OffsetAt(p, s, k) < h.endPC <==> h.startPC <= a < h.endPC
    ensures k < |s.frames| - 1 && s.frames[k + 1].m.name == p.runCustomCode ==> OffsetAt(p, s, k) == a
  {
    assert h in [h];
    var m := s.frames[k].m;
    var behind := if k == |s.frames| - 1 then s.ip else s.frames[k + 1].returnIp;
    assert OffsetAt(p, s, k) == a || (OffsetAt(p, s, k) == a + n - 1 && behind == m.code + a + n);
  }

  lemma AcceptsInstruction(p: Program, w: World, s: Start, k: nat, a: nat, n: nat, clazz: nat, h: Handler)
    requires WellFormed(w) && clazz < |w| && k < |s.frames| && StandsAt(p, s, k, a, n)
    requires h in TableOf(p, s.frames[k].m) && Aligned(TableOf(p, s.frames[k].m), a, n)
    ensures Accepts(p, w, s.frames[k].m, h, clazz, OffsetAt(p, s, k)) <==> Accepts(p, w, s.frames[k].m, h, clazz, a)
  {
    hide WellFormed, OffsetAt, StandsAt, TableOf;
    CoversInstruction(p, s, k, a, n, h);
  }

  /** The same entries accept, and the same one is the first. */
  lemma SameEntries(p: Program, w: World, s: Start, k: nat, a: nat, n: nat, clazz: nat)
    requires WellFormed(w) && clazz < |w| && k < |s.frames| && StandsAt(p, s, k, a, n)
    requires Aligned(TableOf(p, s.frames[k].m), a, n)
    ensures var m := s.frames[k].m;
            && (Handles(p, w, m, clazz, OffsetAt(p, s, k)) <==> Handles(p, w, m, clazz, a))
            && forall i: nat :: IsFirst(p, w, m, clazz, OffsetAt(p, s, k), i) <==> IsFirst(p, w, m, clazz, a, i)
  {
    hide WellFormed, OffsetAt, StandsAt, TableOf, Accepts, Aligned;
    var m := s.frames[k].m;
    forall h | h in TableOf(p, m)
      ensures Accepts(p, w, m, h, clazz, OffsetAt(p, s, k)) <==> Accepts(p, w, m, h, clazz, a)
    {
      AcceptsInstruction(p, w, s, k, a, n, clazz, h);
    }
  }

  /** What each frame stands at. */
  predicate Standing(p: Program, s: Start, at: seq<nat>, lengths: seq<nat>) {
    && |at| == |lengths| == |s.frames|
    && forall k | 0 <= k < |s.frames| ::
         StandsAt(p, s, k, at[k], lengths[k]) && Aligned(TableOf(p, s.frames[k].m), at[k], lengths[k])
  }

  /**
   * Undisturbed, an exception is caught exactly if some frame has an entry for the instruction at which it stands. The
   * innermost such frame goes on, with the handler of its first such entry.
   */
  lemma HandlerOfCallCatches(p: Program, w: World, env: Environment, s: Start, at: seq<nat>, lengths: seq<nat>,
                             caughtAt: Option<nat>, frames: seq<Frame>, ip: int, attempts: seq<nat>)
    requires WellFormed(w) && ClassesOk(env, s, |w|) && Undisturbed(env) && Standing(p, s, at, lengths)
    requires IsOutcome(p, w, env, s, caughtAt, frames, ip, attempts)
    ensures var clazz := s.exception.clazz;
            && (caughtAt.Some? <==> exists k: nat :: k < |at| && Handles(p, w, s.frames[k].m, clazz, at[k]))
            && (caughtAt.Some? ==>
                  && caughtAt.value < |at| && Handles(p, w, s.frames[caughtAt.value].m, clazz, at[caughtAt.value])
                  && (forall k: nat | caughtAt.value < k < |at| :: !Handles(p, w, s.frames[k].m, clazz, at[k]))
                  && exists i: nat :: IsFirst(p, w, s.frames[caughtAt.value].m, clazz, at[caughtAt.value], i)
                                      && ip == s.frames[caughtAt.value].m.code
                                               + TableOf(p, s.frames[caughtAt.value].m)[i].handlerPC)
  {
    hide WellFormed, Handles, IsFirst, OffsetAt, Arriving, StandsAt, Aligned, IsOutcome;
    InnermostHandlerCatches(p, w, env, s, caughtAt, frames, ip, attempts);
    forall k: nat | k < |s.frames|
      ensures HandlesHere(p, w, s, k, s.exception) <==> Handles(p, w, s.frames[k].m, s.exception.clazz, at[k])
    {
      SameEntries(p, w, s, k, at[k], lengths[k], s.exception.clazz);
    }
    if caughtAt.Some? {
      var k := caughtAt.value;
      HandlerEntered(p, w, env, s, k, frames, ip, attempts);
      SameEntries(p, w, s, k, at[k], lengths[k], s.exception.clazz);
    }
  }

  lemma HandlerEntered(p: Program, w: World, env: Environment, s: Start, k: nat, frames: seq<Frame>, ip: int,
                       attempts: seq<nat>)
    requires WellFormed(w) && ClassesOk(env, s, |w|) && Undisturbed(env)
    requires IsOutcome(p, w, env, s, Some(k), frames, ip, attempts)
    ensures k < |s.frames|
    ensures exists i: nat :: IsFirst(p, w, s.frames[k].m, s.exception.clazz, OffsetAt(p, s, k), i)
                             && ip == s.frames[k].m.code + TableOf(p, s.frames[k].m)[i].handlerPC
  {
    hide WellFormed, HandlesHere, IsFirst, OffsetAt, Arriving;
    SameExceptionArrives(p, env, s, k);
  }

  /** Leaving frame j puts exception e in place: the error of its monitor exit, or what its callback leaves. */
  predicate Replaces(p: Program, env: Environment, s: Start, j: nat, e: Throwable)
    requires j < |s.frames| && |env.exitErrors| == |env.callbacks| == |s.frames|
  {
    var exitFails := s.frames[j].sync.Some? && env.exitErrors[j].Some?;
    || (exitFails && e == env.exitErrors[j].value)
    || (!exitFails && s.frames[j].m.name == p.runCustomCode && env.callbacks[j] == Some(e))
  }

  /** A frame is reached with the exception that was put in place last. */
  lemma {:induction false} LastReplacementArrives(p: Program, env: Environment, s: Start, k: nat, j: nat, e: Throwable)
    requires |env.exitErrors| == |env.callbacks| == |s.frames| && k < j <= |s.frames|
    requires if j == |s.frames| then e == s.exception else Replaces(p, env, s, j, e)
    requires forall i, e' | k < i < j :: !Replaces(p, env, s, i, e')
    ensures Arriving(p, env, s, k) == e
    decreases j - k
  {
    if k < j - 1 {
      LastReplacementArrives(p, env, s, k + 1, j, e);
      var f := s.frames[k + 1];
      assert f.sync.Some? && env.exitErrors[k + 1].Some? ==> Replaces(p, env, s, k + 1, env.exitErrors[k + 1].value);
      assert f.m.name == p.runCustomCode && env.callbacks[k + 1].Some? && !(f.sync.Some? && env.exitErrors[k + 1].Some?)
             ==> Replaces(p, env, s, k + 1, env.callbacks[k + 1].value);
    }
  }

  /** The monitors to be left are those of the frames that have one. */
  lemma {:induction false} SynchronizedAre(s: Start, k: nat, j: nat)
    requires k <= |s.frames|
    ensures j in Synchronized(s, k) <==> k <= j < |s.frames| && s.frames[j].sync.Some?
    decreases |s.frames| - k
  {
    if k < |s.frames| {
      SynchronizedAre(s, k + 1, j);
    }
  }

  /** They are left from the top down, each one once. */
  lemma {:induction false} SynchronizedDescend(s: Start, k: nat, x: nat, y: nat)
    requires k <= |s.frames| && x < y < |Synchronized(s, k)|
    ensures Synchronized(s, k)[x] > Synchronized(s, k)[y]
    decreases |s.frames| - k
  {
    if k < |s.frames| {
      var rest := Synchronized(s, k + 1);
      assert Synchronized(s, k) == rest + if s.frames[k].sync.Some? then [k] else [];
      if y < |rest| {
        SynchronizedDescend(s, k + 1, x, y);
      } else {
        assert rest[x] in rest;
        SynchronizedAre(s, k + 1, rest[x]);
      }
    }
  }

  lemma CatchOutcome(p: Program, w: World, env: Environment, s: Start, k: nat, again: bool, e: Throwable, ip: int,
                     correction: nat, attempts: seq<nat>,
                     frames: seq<Frame>, i: nat)
    requires WellFormed(w) && ClassesOk(env, s, |w|) && k > 0
    requires Reached(p, w, env, s, k, again, e, ip, correction, attempts)
    requires FramesLeft(frames, s, k, again) && HandlesHere(p, w, s, k - 1, e) && e.clazz < |w|
    requires IsFirst(p, w, s.frames[k - 1].m, e.clazz, OffsetAt(p, s, k - 1), i)
    ensures IsOutcome(p, w, env, s, Some(k - 1), frames[..k - 1] + [Handling(frames[k - 1], e, frames[k - 1].sync)],
                      s.frames[k - 1].m.code + TableOf(p, s.frames[k - 1].m)[i].handlerPC, attempts)
  {
    hide WellFormed, HandlesHere, IpOffset, OffsetAt, Arriving, Reached, Caught;
    Catch(p, w, env, s, k, again, e, ip, correction, attempts);
    ReachedFacts(p, w, env, s, k, again, e, ip, correction, attempts);
    assert frames[..k - 1] == s.frames[..k - 1];
    var frames', ip' :=
      frames[..k - 1] + [Handling(frames[k - 1], e, frames[k - 1].sync)], s.frames[k - 1].m.code + TableOf(p,
          s.frames[k - 1].m)[i].handlerPC;
    assert frames[k - 1].sync == if again then None else s.frames[k - 1].sync;
    assert Continues(p, w, env, s, k - 1, frames', ip', attempts);
  }

  class Thrower {
    const program: Program
    const loader: ClassLoader
    var frames: seq<Frame>
    var ip: int
    /** The frames whose monitor exit has been attempted. */
    ghost var attempts: seq<nat>

    constructor (program: Program, loader: ClassLoader, frames: seq<Frame>, ip: int)
      ensures this.program == program && this.loader == loader && this.frames == frames && this.ip == ip
    {
      this.program, this.loader, this.frames, this.ip := program, loader, frames, ip;
    }

    /**
     * Control goes to the innermost frame that catches; each frame above has its monitor exit attempted exactly once,
     * and so has the catching frame if it catches the error of that attempt.
     */
    method ThrowException(exception: Throwable, inNative: bool, env: Environment) returns (caughtAt: Option<nat>)
      requires loader.Valid() && Good(program, loader.world)
      requires ClassesOk(env, Start(frames, ip, inNative, exception), |loader.world|)
      requires forall k | 0 <= k < |frames| && frames[k].m.name == program.runCustomCode ::
                 TableOf(program, frames[k].m) == [] && frames[k].sync == None
      modifies this`frames, this`ip, this`attempts, loader
      ensures loader.Valid()
      ensures IsOutcome(program, loader.world, env, Start(old(frames), old(ip), inNative, exception), caughtAt, frames,
                        ip, attempts)
    {
      hide WellFormed, Interned, Accepts, IsFirst, IpOffset, Good, Reached, Caught, Arriving, OffsetAt, Continues,
        Handles;
      ghost var s, w := Start(frames, ip, inNative, exception), loader.world;
      ghost var again := false;
      var e, k: nat, thisIP, ipCorrection := exception, |frames|, ip, if inNative then 1 else 0;
      attempts := [];
      ReachedTop(program, w, env, s);
      while k > 0
        invariant loader.Valid() && k <= |s.frames| && k <= |frames| && e.clazz < |w| && FramesLeft(frames, s, k, again)
        invariant Reached(program, w, env, s, k, again, e, thisIP, ipCorrection, attempts)
        decreases k, !again
      {
        ReachedFacts(program, w, env, s, k, again, e, thisIP, ipCorrection, attempts);
        var f := frames[k - 1];
        var i := FindHandler(program, loader, f.m, e.clazz, IpOffset(f.m, thisIP, ipCorrection));
        if i.Some? {
          CatchOutcome(program, w, env, s, k, again, e, thisIP, ipCorrection, attempts, frames, i.value);
          frames := frames[..k - 1] + [Handling(f, e, f.sync)];
          ip := f.m.code + TableOf(program, f.m)[i.value].handlerPC;
          return Some(k - 1);
        }
        ghost var e0 := e;
        if f.m.name == program.runCustomCode && env.callbacks[k - 1].Some? {
          e := env.callbacks[k - 1].value;
        }
        if f.sync.Some? {
          frames := frames[k - 1 := f.(sync := None)];
          if env.exitErrors[k - 1].Some? {
            frames := frames[..k - 1] + [f.(sync := None, operands := [])];
            ip := thisIP;
            e := env.exitErrors[k - 1].value;
            ComeBack(program, w, env, s, k, e0, e, thisIP, ipCorrection, attempts);
            attempts := attempts + [k - 1];
            again := true;
            continue;
          }
        }
        LeaveFrame(program, w, env, s, k, again, e0, thisIP, ipCorrection, attempts, e);
        attempts := attempts + if s.frames[k - 1].sync.Some? && !again then [k - 1] else [];
        thisIP, ipCorrection := f.returnIp, Correction(program, f.m);
        k := k - 1;
        again := false;
      }
      ReachedBottom(program, w, env, s, again, e, thisIP, ipCorrection, attempts);
      return None;
    }
  }
}
