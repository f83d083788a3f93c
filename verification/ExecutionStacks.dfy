/** The execution stack of a thread: frames in a chain of chunks (pushFrame and popFrame in frame.c). */
module ExecutionStacks {

  import opened Options

  const RESERVEDFORNATIVE := 3
  const STACKCHUNKSIZE := 128
  const SIZEOF_FRAME := 6

  datatype Method = Method(name: int, frameSize: nat, argCount: nat, maxStack: nat, code: int, constPool: int)

  /** The address of a cell of a chunk; cells - 1 has index -1. */
  datatype Pointer = Pointer(chunk: Chunk, index: int)

  /** A local variable or operand, or one of the six fields of a frame. */
  datatype Cell =
    | Word(w: int)
    | PreviousFp(fp: Option<Pointer>) | PreviousIp(ip: int) | PreviousSp(sp: Pointer)
    | ThisMethod(m: Method) | ThisStack(chunk: Chunk) | SyncObject(o: Option<int>)

  class Chunk {
    var next: Chunk?
    const size: nat
    const cells: array<Cell>

    constructor (size: nat)
      ensures next == null && this.size == size && cells.Length == size && fresh(cells)
    {
      next := null;
      this.size := size;
      cells := new Cell[size](_ => Word(0));
    }
  }

  type Memory = seq<seq<Cell>>

  /** Where a frame is: the number of its chunk in the chain, its locals, its frame structure and its top operand. */
  datatype Layout = Layout(c: nat, lp: nat, fp: nat, sp: int, m: Method, returnIp: int, sync: Option<int>)

  /** A frame as such. */
  datatype Frame = Frame(m: Method, locals: seq<Cell>, operands: seq<Cell>, returnIp: int, sync: Option<int>)

  /** Chunk and top of the frame below frame k; before the first frame, the stack pointer is below the first chunk. */
  function ChunkBelow(frames: seq<Layout>, k: nat): nat
    requires k <= |frames|
  {
    if k == 0 then 0 else frames[k - 1].c
  }

  function TopBelow(frames: seq<Layout>, k: nat): int
    requires k <= |frames|
  {
    if k == 0 then -1 else frames[k - 1].sp
  }

  /** The frame, with its maximal operand stack and the reserve for native methods, is in its chunk. */
  predicate Fits(mem: Memory, f: Layout) {
    && f.c < |mem| && f.m.argCount <= f.m.frameSize && f.fp == f.lp + f.m.frameSize
    && f.fp + SIZEOF_FRAME - 1 <= f.sp <= f.fp + SIZEOF_FRAME - 1 + f.m.maxStack + RESERVEDFORNATIVE < |mem[f.c]|
  }

  /** The frame starts right above the frame below it, or at the beginning of the next chunk. */
  predicate Follows(frames: seq<Layout>, k: nat)
    requires k < |frames|
  {
    || (frames[k].c == ChunkBelow(frames, k) && frames[k].lp == TopBelow(frames, k) + 1)
    || (frames[k].c == ChunkBelow(frames, k) + 1 && frames[k].lp == 0)
  }

  /** The fields of the frame structure lead back to the frame below. */
  ghost predicate Linked(mem: Memory, chain: seq<Chunk>, frames: seq<Layout>, k: nat)
    requires k < |frames| && Fits(mem, frames[k]) && |chain| == |mem|
  {
    var f := frames[k];
    var cells := mem[f.c][f.fp..f.fp + SIZEOF_FRAME];
    && ChunkBelow(frames, k) < |chain| && (k > 0 ==> frames[k - 1].c < |chain|)
    && cells == FrameFields(if k == 0 then None
                            else Some(Pointer(chain[frames[k - 1].c], frames[k - 1].fp)), f.returnIp,
                            Pointer(chain[ChunkBelow(frames, k)], TopBelow(frames, k)), f.m, chain[f.c], f.sync)
  }

  function FrameFields(previousFp: Option<Pointer>, previousIp: int, previousSp: Pointer, m: Method, chunk: Chunk,
                       sync: Option<int>): (r: seq<Cell>)
    ensures |r| == SIZEOF_FRAME
  {
    [PreviousFp(previousFp), PreviousIp(previousIp), PreviousSp(previousSp), ThisMethod(m), ThisStack(chunk),
     SyncObject(sync)]
  }

  ghost predicate FramesOk(mem: Memory, chain: seq<Chunk>, frames: seq<Layout>) {
    && |chain| == |mem|
    && forall k {:trigger Follows(frames, k)} | 0 <= k < |frames| ::
         Fits(mem, frames[k]) && Follows(frames, k) && Linked(mem, chain, frames, k)
  }

  /** The frame that is found at a place. */
  function FrameAt(mem: Memory, f: Layout): Frame {
    if Fits(mem, f) then
      Frame(f.m, mem[f.c][f.lp..f.fp], mem[f.c][f.fp + SIZEOF_FRAME..f.sp + 1], f.returnIp, f.sync)
    else Frame(f.m, [], [], f.returnIp, f.sync)
  }

  function FramesOf(mem: Memory, frames: seq<Layout>): (r: seq<Frame>)
    ensures |r| == |frames| && forall k | 0 <= k < |frames| :: r[k] == FrameAt(mem, frames[k])
  {
    seq(|frames|, k requires 0 <= k < |frames| => FrameAt(mem, frames[k]))
  }

  lemma FrameOkAt(mem: Memory, chain: seq<Chunk>, frames: seq<Layout>, k: nat)
    requires FramesOk(mem, chain, frames) && k < |frames|
    ensures |chain| == |mem| && Fits(mem, frames[k]) && Follows(frames, k) && Linked(mem, chain, frames, k)
  {
    hide Linked;
    assert Follows(frames, k);
  }

  /** Frames are in the order of the chain, and frames in one chunk are in ascending order. */
  lemma FramesAscend(mem: Memory, chain: seq<Chunk>, frames: seq<Layout>, j: nat, k: nat)
    requires FramesOk(mem, chain, frames) && j < k < |frames|
    ensures frames[j].c <= frames[k].c
    ensures frames[j].c == frames[k].c ==> frames[j].sp < frames[k].lp
  {
    hide Linked, FramesOk;
    FrameOkAt(mem, chain, frames, k);
    if j < k - 1 {
      FrameOkAt(mem, chain, frames, k - 1);
      FramesAscend(mem, chain, frames, j, k - 1);
    }
  }

  /** Up to cell `limit` of chunk c, and in the chunks before it, the memories agree. */
  predicate AgreeBelow(mem: Memory, mem': Memory, c: nat, limit: int) {
    && c < |mem| && c < |mem'| && |mem'[c]| == |mem[c]|
    && (forall b | 0 <= b < c :: mem'[b] == mem[b])
    && (forall i {:trigger mem'[c][i]} | 0 <= i < limit && i < |mem[c]| :: mem'[c][i] == mem[c][i])
  }

  /** A frame is found again if the memories agree in its chunk up to its top. */
  lemma FrameKept(mem: Memory, mem': Memory, c: nat, limit: int, chain: seq<Chunk>, chain': seq<Chunk>,
                  frames: seq<Layout>, k: nat)
    requires k < |frames| && |chain| == |mem| && |chain'| == |mem'| && Fits(mem, frames[k]) && Follows(frames, k)
    requires Linked(mem, chain, frames, k)
    requires AgreeBelow(mem, mem', c, limit) && chain'[..c + 1] == chain[..c + 1]
    requires frames[k].c < c || (frames[k].c == c && frames[k].sp < limit)
    ensures Fits(mem', frames[k]) && Linked(mem', chain', frames, k)
    ensures FrameAt(mem', frames[k]) == FrameAt(mem, frames[k])
  {
    var f := frames[k];
    assert chain'[f.c] == chain[..c + 1][f.c] == chain[f.c];
    assert chain'[ChunkBelow(frames, k)] == chain[..c + 1][ChunkBelow(frames, k)] == chain[ChunkBelow(frames, k)];
    assert mem'[f.c][..f.sp + 1] == mem[f.c][..f.sp + 1];
    assert forall m: Memory {:trigger m[f.c]} | Fits(m, f) :: m[f.c][f.lp..f.fp] == m[f.c][..f.sp + 1][f.lp..f.fp];
    assert forall m: Memory {:trigger m[f.c]} | Fits(m, f) ::
        m[f.c][f.fp..f.fp + SIZEOF_FRAME] == m[f.c][..f.sp + 1][f.fp..f.fp + SIZEOF_FRAME]
        && m[f.c][f.fp + SIZEOF_FRAME..f.sp + 1] == m[f.c][..f.sp + 1][f.fp + SIZEOF_FRAME..];
  }

  /** All frames are before cell `limit` of chunk c. */
  ghost predicate Before(frames: seq<Layout>, c: nat, limit: int) {
    forall k {:trigger frames[k]} | 0 <= k < |frames| :: frames[k].c < c || (frames[k].c == c && frames[k].sp < limit)
  }

  /** All frames are up to the top of the last one. */
  lemma TopIsLast(mem: Memory, chain: seq<Chunk>, frames: seq<Layout>, n: nat)
    requires FramesOk(mem, chain, frames) && n <= |frames|
    ensures Before(frames[..n], ChunkBelow(frames, n), TopBelow(frames, n) + 1)
  {
    hide Linked, FramesOk;
    forall k | 0 <= k < n
      ensures frames[k].c < frames[n - 1].c || (frames[k].c == frames[n - 1].c && frames[k].sp <= frames[n - 1].sp)
    {
      if k < n - 1 {
        FramesAscend(mem, chain, frames, k, n - 1);
        FrameOkAt(mem, chain, frames, n - 1);
      }
    }
  }

  /** Writing above all frames changes none of them. */
  lemma FramesKept(mem: Memory, mem': Memory, c: nat, limit: int, chain: seq<Chunk>, chain': seq<Chunk>,
                   frames: seq<Layout>)
    requires FramesOk(mem, chain, frames) && Before(frames, c, limit)
    requires AgreeBelow(mem, mem', c, limit) && |chain'| == |mem'| && chain'[..c + 1] == chain[..c + 1]
    ensures FramesOk(mem', chain', frames) && FramesOf(mem', frames) == FramesOf(mem, frames)
  {
    hide Linked, Fits, Follows, FrameAt;
    forall k | 0 <= k < |frames|
      ensures Fits(mem', frames[k]) && Follows(frames, k) && Linked(mem', chain', frames, k)
      ensures FrameAt(mem', frames[k]) == FrameAt(mem, frames[k])
    {
      FrameOkAt(mem, chain, frames, k);
      FrameKept(mem, mem', c, limit, chain, chain', frames, k);
    }
  }

  /** Whether a frame is linked to the frame below does not depend on its own top or on the frames above. */
  lemma SameBelow(mem: Memory, chain: seq<Chunk>, frames: seq<Layout>, frames': seq<Layout>, k: nat)
    requires |chain| == |mem| && k < |frames| && k < |frames'| && frames'[k] == frames[k].(sp := frames'[k].sp)
    requires k > 0 ==> frames'[k - 1] == frames[k - 1]
    requires Fits(mem, frames[k]) && Fits(mem, frames'[k]) && Follows(frames, k) && Linked(mem, chain, frames, k)
    ensures Follows(frames', k) && Linked(mem, chain, frames', k)
  {
  }

  /** A frame on top of correct ones. */
  lemma FrameAdded(mem: Memory, chain: seq<Chunk>, frames: seq<Layout>, f: Layout)
    requires FramesOk(mem, chain, frames)
    requires Fits(mem, f) && Follows(frames + [f], |frames|) && Linked(mem, chain, frames + [f], |frames|)
    ensures FramesOk(mem, chain, frames + [f])
    ensures FramesOf(mem, frames + [f]) == FramesOf(mem, frames) + [FrameAt(mem, f)]
  {
    hide FrameAt, Fits, Linked, Follows;
    var frames' := frames + [f];
    forall k | 0 <= k < |frames'|
      ensures Fits(mem, frames'[k]) && Follows(frames', k) && Linked(mem, chain, frames', k)
    {
      if k < |frames| {
        FrameOkAt(mem, chain, frames, k);
        SameBelow(mem, chain, frames, frames', k);
      }
    }
  }

  lemma FrameRemoved(mem: Memory, chain: seq<Chunk>, frames: seq<Layout>)
    requires FramesOk(mem, chain, frames) && |frames| > 0
    ensures FramesOk(mem, chain, frames[..|frames| - 1])
    ensures FramesOf(mem, frames[..|frames| - 1]) == FramesOf(mem, frames)[..|frames| - 1]
  {
    hide FrameAt, Fits, Linked, Follows;
    var frames' := frames[..|frames| - 1];
    forall k | 0 <= k < |frames'|
      ensures Fits(mem, frames'[k]) && Follows(frames', k) && Linked(mem, chain, frames', k)
    {
      FrameOkAt(mem, chain, frames, k);
      SameBelow(mem, chain, frames, frames', k);
    }
  }

  /** The stack pointer of the top frame moves. */
  function WithTop(frames: seq<Layout>, sp: nat): seq<Layout>
    requires |frames| > 0
  {
    frames[|frames| - 1 := frames[|frames| - 1].(sp := sp)]
  }

  lemma TopMoved(mem: Memory, chain: seq<Chunk>, frames: seq<Layout>, sp: nat)
    requires FramesOk(mem, chain, frames) && |frames| > 0
    requires Fits(mem, frames[|frames| - 1].(sp := sp))
    ensures FramesOk(mem, chain, WithTop(frames, sp))
    ensures FramesOf(mem, WithTop(frames, sp)) ==
            FramesOf(mem, frames)[..|frames| - 1] + [FrameAt(mem, frames[|frames| - 1].(sp := sp))]
  {
    hide FrameAt, Fits, Linked, Follows;
    var frames' := WithTop(frames, sp);
    forall k | 0 <= k < |frames|
      ensures Fits(mem, frames'[k]) && Follows(frames', k) && Linked(mem, chain, frames', k)
    {
      FrameOkAt(mem, chain, frames, k);
      SameBelow(mem, chain, frames, frames', k);
    }
  }

  /** The frames after the arguments of a call have been taken off the operands of the caller. */
  function WithoutArguments(frames: seq<Frame>, argCount: nat): seq<Frame> {
    if |frames| == 0 || |frames[|frames| - 1].operands| < argCount then frames
    else
      var top := frames[|frames| - 1];
      frames[..|frames| - 1] + [top.(operands := top.operands[..|top.operands| - argCount])]
  }

  function Arguments(frames: seq<Frame>, argCount: nat): seq<Cell> {
    if |frames| == 0 || |frames[|frames| - 1].operands| < argCount then []
    else
      var top := frames[|frames| - 1];
      top.operands[|top.operands| - argCount..]
  }

  /** The layout of the frames without the arguments. */
  function Lowered(frames: seq<Layout>, argCount: nat): seq<Layout> {
    if |frames| == 0 || frames[|frames| - 1].sp < argCount then frames
    else WithTop(frames, frames[|frames| - 1].sp - argCount)
  }

  /** The top frame, if there is one, has so many operands. */
  predicate HasArguments(frames: seq<Layout>, argCount: nat) {
    |frames| > 0 ==> frames[|frames| - 1].fp + SIZEOF_FRAME - 1 <= frames[|frames| - 1].sp - argCount
  }

  lemma LoweredFrame(mem: Memory, f: Layout, argCount: nat)
    requires Fits(mem, f) && f.fp + SIZEOF_FRAME - 1 <= f.sp - argCount
    ensures |FrameAt(mem, f).operands| == f.sp + 1 - f.fp - SIZEOF_FRAME
    ensures FrameAt(mem, f.(sp := f.sp - argCount)) == FrameAt(mem,
        f).(operands := FrameAt(mem, f).operands[..|FrameAt(mem, f).operands| - argCount])
    ensures FrameAt(mem, f).operands[|FrameAt(mem, f).operands| - argCount..] == mem[f.c][f.sp + 1 - argCount..f.sp + 1]
  {
    var operands, lower := FrameAt(mem, f).operands, FrameAt(mem, f.(sp := f.sp - argCount)).operands;
    assert |lower| == |operands| - argCount && forall i | 0 <= i < |lower| ::
             lower[i] == mem[f.c][f.fp + SIZEOF_FRAME + i] == operands[i];
  }

  lemma ArgumentsTaken(mem: Memory, chain: seq<Chunk>, frames: seq<Layout>, argCount: nat)
    requires FramesOk(mem, chain, frames)
    requires HasArguments(frames, argCount)
    ensures FramesOk(mem, chain, Lowered(frames, argCount))
    ensures FramesOf(mem, Lowered(frames, argCount)) == WithoutArguments(FramesOf(mem, frames), argCount)
  {
    hide Linked, Follows, FramesOk, FrameAt;
    if |frames| > 0 {
      var f := frames[|frames| - 1];
      FrameOkAt(mem, chain, frames, |frames| - 1);
      TopMoved(mem, chain, frames, f.sp - argCount);
      LoweredFrame(mem, f, argCount);
    }
  }

  /** Where the arguments are. */
  lemma ArgumentsAt(mem: Memory, chain: seq<Chunk>, frames: seq<Layout>, argCount: nat)
    requires FramesOk(mem, chain, frames) && |frames| > 0
    requires HasArguments(frames, argCount)
    ensures frames[|frames| - 1].c < |mem| && frames[|frames| - 1].sp < |mem[frames[|frames| - 1].c]|
    ensures Arguments(FramesOf(mem, frames), argCount) ==
            mem[frames[|frames| - 1].c][frames[|frames| - 1].sp + 1 - argCount..frames[|frames| - 1].sp + 1]
  {
    hide Linked, Follows, FramesOk, FrameAt;
    FrameOkAt(mem, chain, frames, |frames| - 1);
    LoweredFrame(mem, frames[|frames| - 1], argCount);
  }

  /** The effect of writing a new frame above the frames without the arguments. */
  lemma FramePushed(mem: Memory, chain: seq<Chunk>, frames: seq<Layout>, argCount: nat, mem': Memory,
                    chain': seq<Chunk>, f: Layout)
    requires FramesOk(mem, chain, frames) && |chain'| == |mem'|
    requires HasArguments(frames, argCount)
    requires ChunkBelow(Lowered(frames, argCount), |frames|) < |chain|
    requires AgreeBelow(mem, mem', ChunkBelow(Lowered(frames, argCount), |frames|),
                        TopBelow(Lowered(frames, argCount), |frames|) + 1)
    requires ChunkBelow(frames, |frames|) < |chain| && ChunkBelow(frames, |frames|) < |chain'|
    requires chain'[..ChunkBelow(frames, |frames|) + 1] == chain[..ChunkBelow(frames, |frames|) + 1]
    requires Fits(mem', f) && Follows(Lowered(frames, argCount) + [f], |frames|)
    requires Linked(mem', chain', Lowered(frames, argCount) + [f], |frames|)
    ensures FramesOk(mem', chain', Lowered(frames, argCount) + [f])
    ensures FramesOf(mem', Lowered(frames, argCount) + [f]) == WithoutArguments(FramesOf(mem, frames),
        argCount) + [FrameAt(mem', f)]
  {
    hide Linked, Follows, Fits, FramesOk, FrameAt, WithoutArguments;
    ArgumentsTaken(mem, chain, frames, argCount);
    var lowered := Lowered(frames, argCount);
    TopIsLast(mem, chain, lowered, |frames|);
    assert lowered[..|frames|] == lowered;
    FramesKept(mem, mem', ChunkBelow(lowered, |frames|), TopBelow(lowered, |frames|) + 1, chain, chain', lowered);
    FrameAdded(mem', chain', lowered, f);
  }

  /** The place of a new frame: right above the frames below, or at the beginning of the next chunk. */
  predicate IsNewFrame(mem: Memory, frames: seq<Layout>, f: Layout) {
    && Fits(mem, f) && f.sp == f.fp + SIZEOF_FRAME - 1 && f.sync == None
    && Follows(Lowered(frames, f.m.argCount) + [f], |frames|)
  }

  function Written(cells: seq<Cell>, at: nat, fields: seq<Cell>): (r: seq<Cell>)
    requires at + |fields| <= |cells|
    ensures |r| == |cells|
    ensures forall i {:trigger r[i]} | 0 <= i < |cells| && !(at <= i < at + |fields|) :: r[i] == cells[i]
    ensures r[at..at + |fields|] == fields
  {
    cells[..at] + fields + cells[at + |fields|..]
  }

  /** Writing the six fields of a new frame puts the frame on top of the others. */
  lemma FrameWritten(mem: Memory, chain: seq<Chunk>, frames: seq<Layout>, f: Layout, mem': Memory, fields: seq<Cell>)
    requires |chain| == |mem| && FramesOk(mem, chain, frames) && HasArguments(frames, f.m.argCount)
    requires IsNewFrame(mem, frames, f)
    requires |fields| == SIZEOF_FRAME && mem' == mem[f.c := Written(mem[f.c], f.fp, fields)]
    requires ChunkBelow(frames, |frames|) < |chain|
    requires fields == FrameFields(if frames == [] then None
                                   else Some(Pointer(chain[ChunkBelow(frames, |frames|)],
                                                     frames[|frames| - 1].fp)), f.returnIp,
                                   Pointer(chain[ChunkBelow(frames, |frames|)],
                                           TopBelow(Lowered(frames, f.m.argCount), |frames|)), f.m, chain[f.c], None)
    ensures FramesOk(mem', chain, Lowered(frames, f.m.argCount) + [f])
    ensures FramesOf(mem', Lowered(frames, f.m.argCount) + [f]) ==
            WithoutArguments(FramesOf(mem, frames),
                             f.m.argCount) + [Frame(f.m, mem[f.c][f.lp..f.fp], [], f.returnIp, None)]
  {
    hide FramesOk, WithoutArguments, FrameFields;
    assert FrameAt(mem', f) == Frame(f.m, mem[f.c][f.lp..f.fp], [], f.returnIp, None);
    FramePushed(mem, chain, frames, f.m.argCount, mem', chain, f);
  }

  /** The number of operands of the top frame follows from the stack pointer. */
  lemma OperandCount(mem: Memory, chain: seq<Chunk>, frames: seq<Layout>)
    requires FramesOk(mem, chain, frames) && |frames| > 0
    ensures var top := frames[|frames| - 1];
            |FramesOf(mem, frames)[|frames| - 1].operands| == top.sp + 1 - top.fp - SIZEOF_FRAME
  {
    hide Linked, Follows, FramesOk;
    FrameOkAt(mem, chain, frames, |frames| - 1);
  }

  /** The frames below the top one end before its locals. */
  lemma BelowTop(mem: Memory, chain: seq<Chunk>, frames: seq<Layout>, n: nat)
    requires FramesOk(mem, chain, frames) && n < |frames|
    ensures Before(frames[..n], frames[n].c, frames[n].lp)
  {
    hide Linked, FramesOk;
    TopIsLast(mem, chain, frames, n);
    FrameOkAt(mem, chain, frames, n);
    forall k | 0 <= k < n
      ensures frames[k].c < frames[n].c || (frames[k].c == frames[n].c && frames[k].sp < frames[n].lp)
    {
      assert frames[..n][k] == frames[k];
    }
  }

  /** Changes within the top frame do not concern the others. */
  lemma TopChanged(mem: Memory, chain: seq<Chunk>, frames: seq<Layout>, mem': Memory, f: Layout)
    requires FramesOk(mem, chain, frames) && |frames| > 0 && |mem'| == |mem| == |chain|
    requires f.c == frames[|frames| - 1].c && f.lp == frames[|frames| - 1].lp && Fits(mem', f)
    requires AgreeBelow(mem, mem', f.c, f.lp) && Linked(mem', chain, frames[..|frames| - 1] + [f], |frames| - 1)
    ensures FramesOk(mem', chain, frames[..|frames| - 1] + [f])
    ensures FramesOf(mem', frames[..|frames| - 1] + [f]) == FramesOf(mem, frames)[..|frames| - 1] + [FrameAt(mem', f)]
  {
    hide FramesOk, Linked, FrameAt, Fits;
    var n := |frames| - 1;
    FrameRemoved(mem, chain, frames);
    BelowTop(mem, chain, frames, n);
    FrameOkAt(mem, chain, frames, n);
    FramesKept(mem, mem', f.c, f.lp, chain, chain, frames[..n]);
    FrameAdded(mem', chain, frames[..n], f);
  }

  /** The top frame is replaced. */
  function WithTopFrame(frames: seq<Frame>, f: Frame): seq<Frame>
    requires |frames| > 0
  {
    frames[..|frames| - 1] + [f]
  }

  /** One cell of the top frame or right above it is set; `f` is its new layout. */
  ghost predicate CellSet(mem: Memory, frames: seq<Layout>, mem': Memory, f: Layout, i: nat, v: Cell) {
    && |frames| > 0
    && var top := frames[|frames| - 1];
       && top.c < |mem| && top.lp <= i < |mem[top.c]| && mem' == mem[top.c := mem[top.c][i := v]] && Fits(mem, f)
       && f.c == top.c && f.lp == top.lp && f.fp == top.fp && f.m == top.m && top.sp <= f.sp
  }

  /** An operand is set, or pushed. */
  lemma OperandSet(mem: Memory, chain: seq<Chunk>, frames: seq<Layout>, mem': Memory, f: Layout, i: nat, v: Cell)
    requires FramesOk(mem, chain, frames) && |mem| == |chain| && CellSet(mem, frames, mem', f, i, v)
    requires f.fp + SIZEOF_FRAME <= i <= f.sp <= frames[|frames| - 1].sp + 1
    requires (f.sp > frames[|frames| - 1].sp ==> i == f.sp)
    requires f == frames[|frames| - 1].(sp := f.sp)
    ensures FramesOk(mem', chain, frames[..|frames| - 1] + [f])
    ensures FramesOf(mem', frames[..|frames| - 1] + [f]) ==
            var top, base := FrameAt(mem, frames[|frames| - 1]), f.fp + SIZEOF_FRAME;
            WithTopFrame(FramesOf(mem, frames),
                         Frame(f.m, top.locals, (top.operands + [v])[..f.sp + 1 - base][i - base := v], f.returnIp,
                               f.sync))
  {
    hide FramesOk, Follows;
    var top := frames[|frames| - 1];
    FrameOkAt(mem, chain, frames, |frames| - 1);
    assert mem'[f.c][f.fp..f.fp + SIZEOF_FRAME] == mem[f.c][f.fp..f.fp + SIZEOF_FRAME];
    assert FrameAt(mem', f).locals == FrameAt(mem, top).locals;
    assert FrameAt(mem',
                   f).operands == (FrameAt(mem,
                       top).operands + [v])[..f.sp + 1 - f.fp - SIZEOF_FRAME][i - f.fp - SIZEOF_FRAME := v];
    TopChanged(mem, chain, frames, mem', f);
  }

  lemma LocalSet(mem: Memory, chain: seq<Chunk>, frames: seq<Layout>, mem': Memory, i: nat, v: Cell)
    requires FramesOk(mem, chain, frames) && |mem| == |chain| && |frames| > 0
    requires i < frames[|frames| - 1].m.frameSize
    requires CellSet(mem, frames, mem', frames[|frames| - 1], frames[|frames| - 1].lp + i, v)
    ensures FramesOk(mem', chain, frames) && i < |FrameAt(mem, frames[|frames| - 1]).locals|
    ensures FramesOf(mem', frames) ==
            WithTopFrame(FramesOf(mem, frames),
                         FrameAt(mem,
                                 frames[|frames| - 1]).(locals := FrameAt(mem, frames[|frames| - 1]).locals[i := v]))
  {
    hide FramesOk, Follows;
    var f := frames[|frames| - 1];
    FrameOkAt(mem, chain, frames, |frames| - 1);
    assert mem'[f.c][f.fp..f.fp + SIZEOF_FRAME] == mem[f.c][f.fp..f.fp + SIZEOF_FRAME];
    assert FrameAt(mem', f).locals == FrameAt(mem, f).locals[i := v];
    assert FrameAt(mem', f).operands == FrameAt(mem, f).operands;
    assert frames[..|frames| - 1] + [f] == frames;
    TopChanged(mem, chain, frames, mem', f);
  }

  /** The return address or the monitor of the top frame is set. */
  lemma FieldSet(mem: Memory, chain: seq<Chunk>, frames: seq<Layout>, mem': Memory, f: Layout, i: nat, v: Cell)
    requires FramesOk(mem, chain, frames) && |mem| == |chain| && CellSet(mem, frames, mem', f, i, v)
    requires || (i == f.fp + 1 && v == PreviousIp(f.returnIp) && f == frames[|frames| - 1].(returnIp := f.returnIp))
             || (i == f.fp + 5 && v == SyncObject(f.sync) && f == frames[|frames| - 1].(sync := f.sync))
    ensures FramesOk(mem', chain, frames[..|frames| - 1] + [f])
    ensures FramesOf(mem', frames[..|frames| - 1] + [f]) ==
            WithTopFrame(FramesOf(mem, frames),
                         FrameAt(mem, frames[|frames| - 1]).(returnIp := f.returnIp, sync := f.sync))
  {
    hide FramesOk, Follows;
    var top := frames[|frames| - 1];
    FrameOkAt(mem, chain, frames, |frames| - 1);
    assert mem'[f.c][f.fp..f.fp + SIZEOF_FRAME] == mem[f.c][f.fp..f.fp + SIZEOF_FRAME][i - f.fp := v];
    assert FrameAt(mem', f).locals == FrameAt(mem, top).locals;
    assert FrameAt(mem', f).operands == FrameAt(mem, top).operands;
    TopChanged(mem, chain, frames, mem', f);
  }

  /** Pushing an operand. */
  lemma OperandPushed(mem: Memory, chain: seq<Chunk>, frames: seq<Layout>, mem': Memory, c: nat, sp: nat, v: Cell)
    requires FramesOk(mem, chain, frames) && |mem| == |chain| && |frames| > 0 && c == frames[|frames| - 1].c
    requires sp == frames[|frames| - 1].sp
    requires c < |mem| && sp + 1 < |mem[c]| && mem' == mem[c := mem[c][sp + 1 := v]]
    requires |FramesOf(mem, frames)[|frames| - 1].operands| < frames[|frames| - 1].m.maxStack + RESERVEDFORNATIVE
    ensures FramesOk(mem', chain, WithTop(frames, sp + 1))
    ensures FramesOf(mem', WithTop(frames, sp + 1)) ==
            WithTopFrame(FramesOf(mem, frames),
                         FramesOf(mem,
                                  frames)[|frames| - 1].(operands := FramesOf(mem,
                                      frames)[|frames| - 1].operands + [v]))
  {
    hide FramesOk, Follows, Linked;
    FrameOkAt(mem, chain, frames, |frames| - 1);
    var f := frames[|frames| - 1].(sp := sp + 1);
    OperandSet(mem, chain, frames, mem', f, sp + 1, v);
    assert frames[..|frames| - 1] + [f] == WithTop(frames, sp + 1);
    var operands := FrameAt(mem, frames[|frames| - 1]).operands;
    assert (operands + [v])[..f.sp + 1 - f.fp - SIZEOF_FRAME][sp + 1 - f.fp - SIZEOF_FRAME := v] == operands + [v];
  }

  /** Popping an operand. */
  lemma OperandPopped(mem: Memory, chain: seq<Chunk>, frames: seq<Layout>, sp: nat)
    requires FramesOk(mem, chain, frames) && |mem| == |chain| && |frames| > 0 && sp == frames[|frames| - 1].sp
    requires |FramesOf(mem, frames)[|frames| - 1].operands| > 0
    ensures sp > 0 && FramesOk(mem, chain, WithTop(frames, sp - 1)) && frames[|frames| - 1].c < |mem|
    ensures sp < |mem[frames[|frames| - 1].c]|
    ensures FramesOf(mem, WithTop(frames, sp - 1)) == WithoutArguments(FramesOf(mem, frames), 1)
    ensures Arguments(FramesOf(mem, frames), 1) == [mem[frames[|frames| - 1].c][sp]]
  {
    hide FramesOk, Follows, Linked;
    FrameOkAt(mem, chain, frames, |frames| - 1);
    ArgumentsTaken(mem, chain, frames, 1);
    ArgumentsAt(mem, chain, frames, 1);
  }

  lemma PrefixOfSlice(cells: seq<Cell>, from: nat, to: nat, n: nat)
    requires from + n <= to <= |cells|
    ensures cells[from..to][..n] == cells[from..from + n]
  {
  }
}
