/** Runs over a plain stack of frames, which the operations on the chunks refine. */
module StackRuns {

  import opened ExecutionStacks
  import opened Options

  /** The operations on the execution stack. */
  datatype Step =
    | Call(m: Method, ip: int, locals: seq<Cell>) | Return
    | PushOperand(v: Cell) | PopOperand | StoreLocal(i: nat, v: Cell) | Enter(sync: Option<int>) | Advance(n: nat)

  function TopOf(frames: seq<Frame>): Frame
    requires |frames| > 0
  {
    frames[|frames| - 1]
  }

  /** What a step does to the frames, if there is a frame to do it to. */
  function Apply(frames: seq<Frame>, step: Step): (r: seq<Frame>) {
    if |frames| == 0 then frames
    else
      match step
      case Call(m, ip, locals) => WithoutArguments(frames, m.argCount) + [Frame(m, locals, [], ip, None)]
      case Return => frames[..|frames| - 1]
      case PushOperand(v) => WithTopFrame(frames, TopOf(frames).(operands := TopOf(frames).operands + [v]))
      case PopOperand => WithoutArguments(frames, 1)
      case StoreLocal(i, v) =>
        if i < |TopOf(frames).locals| then WithTopFrame(frames, TopOf(frames).(locals := TopOf(frames).locals[i := v]))
        else frames
      case Enter(sync) => WithTopFrame(frames, TopOf(frames).(sync := sync))
      case Advance(n) => WithTopFrame(frames, TopOf(frames).(returnIp := TopOf(frames).returnIp + n))
  }

  function Run(frames: seq<Frame>, steps: seq<Step>): seq<Frame>
    decreases |steps|
  {
    if steps == [] then frames else Run(Apply(frames, steps[0]), steps[1..])
  }

  /** During the run there are always more than n frames. */
  predicate StaysAbove(frames: seq<Frame>, steps: seq<Step>, n: nat)
    decreases |steps|
  {
    |frames| > n && (steps == [] || StaysAbove(Apply(frames, steps[0]), steps[1..], n))
  }

  lemma StepKeeps(frames: seq<Frame>, step: Step, n: nat)
    requires |frames| > n && |Apply(frames, step)| > n
    ensures Apply(frames, step)[..n] == frames[..n]
  {
  }

  /** Frames that stay below the top are not changed. */
  lemma {:induction false} RunKeepsCallers(frames: seq<Frame>, steps: seq<Step>, n: nat)
    requires StaysAbove(frames, steps, n)
    ensures |Run(frames, steps)| > n && Run(frames, steps)[..n] == frames[..n]
    decreases |steps|
  {
    if steps != [] {
      StepKeeps(frames, steps[0], n);
      RunKeepsCallers(Apply(frames, steps[0]), steps[1..], n);
    }
  }

  lemma {:induction false} RunAppends(frames: seq<Frame>, first: seq<Step>, rest: seq<Step>)
    ensures Run(frames, first + rest) == Run(Run(frames, first), rest)
    decreases |first|
  {
    if first == [] {
      assert first + rest == rest;
    } else {
      assert (first + rest)[0] == first[0] && (first + rest)[1..] == first[1..] + rest;
      RunAppends(Apply(frames, first[0]), first[1..], rest);
    }
  }

  /**
   * Whatever a called method does, with all its calls in turn, its return leaves the frames of the callers as they
   * were, and takes the arguments off the operands of the immediate caller.
   */
  lemma ReturnRestoresCaller(frames: seq<Frame>, m: Method, ip: int, locals: seq<Cell>, body: seq<Step>)
    requires |frames| > 0 && StaysAbove(Apply(frames, Call(m, ip, locals)), body, |frames|)
    requires |Run(Apply(frames, Call(m, ip, locals)), body)| == |frames| + 1
    ensures Run(frames, [Call(m, ip, locals)] + body + [Return]) == WithoutArguments(frames, m.argCount)
  {
    var called := Apply(frames, Call(m, ip, locals));
    RunKeepsCallers(called, body, |frames|);
    var steps := [Call(m, ip, locals)] + body;
    RunAppends(frames, steps, [Return]);
    assert steps[1..] == body;
    var ended := Run(called, body);
    assert Run(ended, [Return]) == Run(Apply(ended, Return), []);
    assert called[..|frames|] == WithoutArguments(frames, m.argCount);
  }
}
