/** pushFrame, popFrame and the operand operations on the execution stack of a thread (frame.c). */
module FrameStack {

  import opened ExecutionStacks
  import opened Options
  import opened StackRuns

  ghost function Arrays(chain: seq<Chunk>): set<object> {
    set c | c in chain :: c.cells
  }

  /** The chunks of a chain follow each other and share no cells. */
  ghost predicate ChainOk(chain: seq<Chunk>)
    reads chain
  {
    && |chain| > 0 && chain[|chain| - 1].next == null
    && (forall i | 0 <= i < |chain| :: chain[i].cells.Length == chain[i].size)
    && (forall i {:trigger chain[i].next} | 0 <= i < |chain| - 1 :: chain[i].next == chain[i + 1])
    && (forall i, j | 0 <= i < j < |chain| :: chain[i] != chain[j] && chain[i].cells != chain[j].cells)
  }

  ghost function MemoryOf(chain: seq<Chunk>): (mem: Memory)
    reads Arrays(chain)
    ensures |mem| == |chain| && forall i | 0 <= i < |chain| :: mem[i] == chain[i].cells[..]
  {
    seq(|chain|, i requires 0 <= i < |chain| reads Arrays(chain) => chain[i].cells[..])
  }

  class ThreadStack {
    const first: Chunk
    var fp: Option<Pointer>
    var sp: Pointer
    var lp: Pointer
    var ip: int
    var cp: int
    ghost var chain: seq<Chunk>
    ghost var frames: seq<Layout>

    /** The registers are those of the top frame. */
    ghost predicate RegistersOk()
      reads this, chain
    {
      && ChainOk(chain) && chain[0] == first
      && if frames == [] then fp == None && sp.chunk == first && -1 <= sp.index < first.size
         else
           var f := frames[|frames| - 1];
           && f.c < |chain| && fp == Some(Pointer(chain[f.c], f.fp)) && sp == Pointer(chain[f.c], f.sp)
           && lp == Pointer(chain[f.c], f.lp) && cp == f.m.constPool
    }

    ghost predicate Valid()
      reads this, chain, Arrays(chain)
    {
      RegistersOk() && FramesOk(MemoryOf(chain), chain, frames)
    }

    /** The frames that the chunks represent. */
    ghost function Frames(): seq<Frame>
      reads this, chain, Arrays(chain)
    {
      FramesOf(MemoryOf(chain), frames)
    }

    /** BuildThread, and the registers before the first frame is pushed */
    constructor (argCount: nat, ip: int)
      requires argCount <= STACKCHUNKSIZE
      ensures Valid() && Frames() == [] && frames == [] && this.ip == ip && sp.index == argCount - 1
      ensures fresh(chain) && fresh(Arrays(chain))
    {
      var stack := new Chunk(STACKCHUNKSIZE);
      first := stack;
      fp := None;
      sp := Pointer(stack, argCount - 1);
      lp := Pointer(stack, 0);
      this.ip := ip;
      cp := 0;
      chain := [stack];
      frames := [];
    }

    /** Drops the chunks after `stack`. */
    method DropRest(stack: Chunk, ghost c: nat)
      requires ChainOk(chain) && c < |chain| && chain[c] == stack
      modifies this`chain, stack`next
      ensures ChainOk(chain) && chain == old(chain)[..c + 1]
    {
      stack.next := null;
      chain := chain[..c + 1];
    }

    /** Appends a new chunk. */
    method ExtendChain(stack: Chunk, size: nat) returns (newstack: Chunk)
      requires ChainOk(chain) && chain[|chain| - 1] == stack
      modifies this`chain, stack`next
      ensures fresh(newstack) && fresh(newstack.cells) && newstack.size == size
      ensures ChainOk(chain) && chain == old(chain) + [newstack]
    {
      ghost var kept := chain;
      newstack := new Chunk(size);
      assert forall i | 0 <= i < |kept| :: kept[i] != newstack && kept[i].cells != newstack.cells;
      stack.next := newstack;
      chain := chain + [newstack];
    }

    /** The chunk after `stack`: the next one if it is large enough, else a new one; NULL if the heap is full. */
    method NextChunk(stack: Chunk, ghost c: nat, height: nat, heapHasRoom: bool) returns (newstack: Chunk?)
      requires ChainOk(chain) && c < |chain| && chain[c] == stack
      modifies this`chain, stack`next
      ensures ChainOk(chain) && c < |chain| && chain[..c + 1] == old(chain)[..c + 1]
      ensures newstack != null ==> c + 1 < |chain| && chain[c + 1] == newstack && newstack.size >= height
      ensures newstack == null ==> !heapHasRoom
      ensures forall k | k in chain :: k in old(chain) || (fresh(k) && fresh(k.cells))
    {
      if stack.next != null && height > stack.next.size {
        DropRest(stack, c);
      }
      assert c < |chain| - 1 ==> stack.next == chain[c + 1];
      if stack.next == null {
        assert c == |chain| - 1;
        var size := if height > STACKCHUNKSIZE then height else STACKCHUNKSIZE;
        if !heapHasRoom {
          return null;
        }
        newstack := ExtendChain(stack, size);
      } else {
        newstack := stack.next;
      }
    }

    /** Copies the arguments to the first cells of the new chunk. */
    method CopyArguments(newstack: Chunk, argCount: nat, prevSp: Pointer)
      requires newstack != prevSp.chunk && newstack.cells != prevSp.chunk.cells && argCount <= newstack.cells.Length
      requires -1 <= prevSp.index && prevSp.index + argCount < prevSp.chunk.cells.Length
      modifies newstack.cells
      ensures newstack.cells[..argCount] == prevSp.chunk.cells[prevSp.index + 1..prevSp.index + 1 + argCount]
    {
      for i := 0 to argCount
        invariant newstack.cells[..i] == prevSp.chunk.cells[prevSp.index + 1..prevSp.index + 1 + i]
      {
        newstack.cells[i] := prevSp.chunk.cells[prevSp.index + 1 + i];
      }
    }

    /** Fills out the six fields of a frame. */
    method WriteFrame(at: Pointer, ghost c: nat, previousFp: Option<Pointer>, previousIp: int, previousSp: Pointer,
                      m: Method)
      requires ChainOk(chain) && c < |chain| && at.chunk == chain[c] && 0 <= at.index
      requires at.index + SIZEOF_FRAME <= at.chunk.cells.Length
      modifies at.chunk.cells
      ensures ChainOk(chain)
      ensures MemoryOf(chain) == old(MemoryOf(chain))[c := Written(old(at.chunk.cells[..]), at.index,
                                   FrameFields(previousFp, previousIp, previousSp, m, at.chunk, None))]
    {
      ghost var mem := MemoryOf(chain);
      WriteFields(at, previousFp, previousIp, previousSp, m);
      assert forall b | 0 <= b < |chain| && b != c :: MemoryOf(chain)[b] == mem[b];
    }

    method WriteFields(at: Pointer, previousFp: Option<Pointer>, previousIp: int, previousSp: Pointer, m: Method)
      requires 0 <= at.index && at.index + SIZEOF_FRAME <= at.chunk.cells.Length
      modifies at.chunk.cells
      ensures at.chunk.cells[..] == Written(old(at.chunk.cells[..]), at.index,
                                            FrameFields(previousFp, previousIp, previousSp, m, at.chunk, None))
    {
      var cells, i := at.chunk.cells, at.index;
      cells[i + 4] := ThisStack(at.chunk);
      cells[i + 2] := PreviousSp(previousSp);
      cells[i + 1] := PreviousIp(previousIp);
      cells[i] := PreviousFp(previousFp);
      cells[i + 3] := ThisMethod(m);
      cells[i + 5] := SyncObject(None);
    }

    /** The chunk number of the top frame. */
    ghost function TopChunk(): nat
      reads this
    {
      ChunkBelow(frames, |frames|)
    }

    /** The chunk of the top frame, or the first one if there is no frame. */
    method CurrentStack() returns (stack: Chunk)
      requires Valid()
      ensures TopChunk() < |chain| && stack == chain[TopChunk()] == sp.chunk && stack.size == stack.cells.Length
      ensures ChainOk(chain) && chain[0] == first
      ensures -1 <= sp.index < stack.size && (frames != [] ==> sp.index == TopBelow(frames, |frames|))
    {
      hide Follows, FrameAt;
      if fp.Some? {
        FrameOkAt(MemoryOf(chain), chain, frames, |frames| - 1);
        stack := fp.value.chunk.cells[fp.value.index + 4].chunk;
      } else {
        stack := first;
      }
    }
  
    /** Chunks 0 to c are as before. */
    twostate predicate Kept(c: nat)
      reads this, chain, Arrays(chain)
    {
      && ChainOk(chain) && c < |chain| && c < old(|chain|) && chain[..c + 1] == old(chain)[..c + 1]
      && (forall i | 0 <= i <= c :: chain[i].cells[..] == old(chain[i].cells[..]))
    }

    /** Takes the next chunk for a new frame and copies the arguments there. */
    method PlaceInNextChunk(stack: Chunk, ghost c: nat, m: Method, height: nat, prevSp: Pointer,
                            heapHasRoom: bool) returns (newstack: Chunk?)
      requires ChainOk(chain) && c < |chain| && chain[c] == stack == prevSp.chunk && m.argCount <= height
      requires -1 <= prevSp.index && prevSp.index + m.argCount < stack.cells.Length
      modifies this`chain, chain, Arrays(chain)
      ensures Kept(c) && (newstack == null ==> !heapHasRoom)
      ensures newstack != null ==>
                && c + 1 < |chain| && chain[c + 1] == newstack && newstack.size >= height
                   && newstack.cells.Length == newstack.size
                && newstack.cells[..m.argCount] == old(stack.cells[prevSp.index + 1..prevSp.index + m.argCount + 1])
      ensures forall k | k in chain :: k in old(chain) || (fresh(k) && fresh(k.cells))
    {
      newstack := NextChunk(stack, c, height, heapHasRoom);
      assert forall i | 0 <= i <= c :: chain[i] == old(chain)[..c + 1][i] == old(chain[i]);
      if newstack != null {
        assert chain[c] == stack;
        CopyArguments(newstack, m.argCount, prevSp);
        assert forall i | 0 <= i <= c :: chain[i].cells != newstack.cells;
      }
    }
  
    method SetRegisters(fp: Option<Pointer>, sp: Pointer, lp: Pointer, ip: int, cp: int, ghost frames: seq<Layout>)
      modifies this`fp, this`sp, this`lp, this`ip, this`cp, this`frames
      ensures this.fp == fp && this.sp == sp && this.lp == lp && this.ip == ip && this.cp == cp && this.frames == frames
    {
      this.fp, this.sp, this.lp, this.ip, this.cp, this.frames := fp, sp, lp, ip, cp, frames;
    }

    /**
     * The place is right above the frames without the arguments, or at the beginning of the next chunk, and large
     * enough.
     */
    ghost predicate IsPlace(newFp: Pointer, newLp: Pointer, prevSp: Pointer, m: Method, c: nat)
      reads this, chain
    {
      && m.argCount <= m.frameSize && TopChunk() < |chain| && c < |chain| && newFp.chunk == chain[c]
         && HasArguments(frames, m.argCount)
      && fp == (if frames == [] then None else Some(Pointer(chain[TopChunk()], frames[|frames| - 1].fp)))
      && prevSp == Pointer(chain[TopChunk()], TopBelow(Lowered(frames, m.argCount), |frames|))
      && newLp == Pointer(chain[c], newFp.index - m.frameSize) && newLp.index >= 0
      && newFp.index + SIZEOF_FRAME - 1 + m.maxStack + RESERVEDFORNATIVE < chain[c].cells.Length
      && ((c == TopChunk() && newLp.index == prevSp.index + 1) || (c == TopChunk() + 1 && newLp.index == 0))
    }

    /** Fills out the new frame and makes it the current one. */
    method InstallFrame(newFp: Pointer, newLp: Pointer, prevSp: Pointer, m: Method, ghost c: nat)
      requires ChainOk(chain) && chain[0] == first && FramesOk(MemoryOf(chain), chain, frames)
      requires IsPlace(newFp, newLp, prevSp, m, c)
      modifies this`fp, this`sp, this`lp, this`ip, this`cp, this`frames, newFp.chunk.cells
      ensures Valid() && ip == m.code
      ensures Frames() == WithoutArguments(old(Frames()), m.argCount)
                          + [Frame(m, old(newFp.chunk.cells[newLp.index..newFp.index]), [], old(ip), None)]
    {
      hide FramesOk, WithoutArguments, FrameAt, ChainOk, Written;
      ghost var mem, f :=
        MemoryOf(chain), Layout(c, newLp.index, newFp.index, newFp.index + SIZEOF_FRAME - 1, m, ip, None);
      ghost var fields := FrameFields(fp, ip, prevSp, m, chain[c], None);
      WriteFrame(newFp, c, fp, ip, prevSp, m);
      ghost var mem' := MemoryOf(chain);
      FrameWritten(mem, chain, frames, f, mem', fields);
      SetRegisters(Some(newFp), Pointer(newFp.chunk, newFp.index + SIZEOF_FRAME - 1), newLp, m.code, m.constPool,
                   Lowered(frames, m.argCount) + [f]);
      assert ChainOk(chain) && MemoryOf(chain) == mem';
    }
  
    /** The arguments of the method are on the operand stack of the caller, if there is one. */
    ghost predicate CanCall(m: Method)
      reads this, chain, Arrays(chain)
    {
      && m.argCount <= m.frameSize
      && if Frames() == [] then sp.index == m.argCount - 1 else |Frames()[|Frames()| - 1].operands| >= m.argCount
    }

    /** Frames stay as they are when only cells above them or other chunks change. */
    twostate lemma KeptFrames(c: nat)
      requires old(Valid()) && Kept(c) && frames == old(frames) && c == TopChunk()
      requires fp == old(fp) && sp == old(sp) && cp == old(cp) && lp == old(lp)
      ensures Valid() && Frames() == old(Frames()) && ChainOk(chain) && chain[0] == first
      ensures c < |chain| && c < |old(chain)| && chain[c] == old(chain[c])
    {
      hide FramesOk;
      assert chain[0] == chain[..c + 1][0] == old(chain[0]) && chain[c] == chain[..c + 1][c] == old(chain[c]);
      TopIsLast(old(MemoryOf(chain)), old(chain), frames, |frames|);
      assert frames[..|frames|] == frames;
      FramesKept(old(MemoryOf(chain)), MemoryOf(chain), c, TopBelow(frames, |frames|) + 1, old(chain), chain, frames);
    }
  
    /** What CanCall means for the stack pointer. */
    lemma CallFacts(m: Method)
      requires Valid() && CanCall(m)
      ensures HasArguments(frames, m.argCount) && m.argCount <= m.frameSize && -1 <= sp.index - m.argCount
      ensures sp.chunk == chain[TopChunk()] && sp.index < sp.chunk.cells.Length
      ensures frames != [] ==>
                Arguments(Frames(), m.argCount) == sp.chunk.cells[sp.index - m.argCount + 1..sp.index + 1]
      ensures fp == (if frames == [] then None else Some(Pointer(chain[TopChunk()], frames[|frames| - 1].fp)))
      ensures Pointer(sp.chunk, sp.index - m.argCount) == Pointer(chain[TopChunk()],
          TopBelow(Lowered(frames, m.argCount), |frames|))
    {
      hide FramesOk, FrameAt, Follows, Linked, Arguments;
      if frames != [] {
        OperandCount(MemoryOf(chain), chain, frames);
        FrameOkAt(MemoryOf(chain), chain, frames, |frames| - 1);
        ArgumentsAt(MemoryOf(chain), chain, frames, m.argCount);
      }
    }

    /** A place in the next chunk. */
    lemma PlaceThere(newstack: Chunk, prevSp: Pointer, m: Method, c: nat)
      requires HasArguments(frames, m.argCount) && m.argCount <= m.frameSize && TopChunk() == c < |chain| - 1
      requires chain[c + 1] == newstack
      requires fp == (if frames == [] then None else Some(Pointer(chain[TopChunk()], frames[|frames| - 1].fp)))
      requires prevSp == Pointer(chain[TopChunk()], TopBelow(Lowered(frames, m.argCount), |frames|))
      requires newstack.cells.Length >= m.frameSize + m.maxStack + SIZEOF_FRAME + RESERVEDFORNATIVE
      ensures IsPlace(Pointer(newstack, m.frameSize), Pointer(newstack, 0), prevSp, m, c + 1)
    {
    }

    /** A place in the current chunk. */
    lemma PlaceHere(m: Method)
      requires Valid() && CanCall(m)
      requires sp.index + m.frameSize - m.argCount + m.maxStack + SIZEOF_FRAME + RESERVEDFORNATIVE < sp.chunk.size
      ensures IsPlace(Pointer(sp.chunk, sp.index + m.frameSize - m.argCount + 1),
                      Pointer(sp.chunk, sp.index - m.argCount + 1),
                      Pointer(sp.chunk, sp.index - m.argCount), m, TopChunk())
      ensures -1 <= sp.index - m.argCount && sp.index + m.frameSize - m.argCount + 1 <= sp.chunk.cells.Length
      ensures frames != [] ==>
                sp.chunk.cells[sp.index - m.argCount + 1..sp.index + 1] == Arguments(Frames(), m.argCount)
    {
      hide FramesOk, FrameAt, FramesOf, Arguments, Fits, Lowered;
      CallFacts(m);
    }

    method FindPlaceInNextChunk(stack: Chunk, m: Method, ghost arguments: seq<Cell>,
                                heapHasRoom: bool) returns (newstack: Chunk?, ghost c: nat)
      requires Valid() && CanCall(m) && ChainOk(chain) && TopChunk() < |chain| && stack == chain[TopChunk()] == sp.chunk
      requires -1 <= sp.index - m.argCount && sp.index < stack.cells.Length
      requires arguments == stack.cells[sp.index - m.argCount + 1..sp.index + 1]
      modifies this`chain, chain, Arrays(chain)
      ensures Valid() && ChainOk(chain) && chain[0] == first && Frames() == old(Frames())
      ensures newstack == null ==> !heapHasRoom
      ensures newstack != null ==>
                IsPlace(Pointer(newstack, m.frameSize), Pointer(newstack, 0), Pointer(sp.chunk, sp.index - m.argCount),
                        m, c)
                && m.argCount <= m.frameSize <= newstack.cells.Length && newstack in chain
      ensures newstack != null ==> newstack.cells[..m.argCount] == arguments
      ensures forall k | k in chain :: k in old(chain) || (fresh(k) && fresh(k.cells))
    {
      hide FramesOk, FrameAt, FramesOf, Arguments, Fits, Lowered, IsPlace, HasArguments, ChainOk, RegistersOk, Kept,
        Arguments, Valid, CanCall, MemoryOf, ChunkBelow, TopBelow;
      CallFacts(m);
      c := TopChunk();
      var prevSp := Pointer(sp.chunk, sp.index - m.argCount);
      newstack :=
        PlaceInNextChunk(stack, c, m, m.frameSize + m.maxStack + SIZEOF_FRAME + RESERVEDFORNATIVE, prevSp, heapHasRoom);
      KeptFrames(c);
      if newstack != null {
        PlaceThere(newstack, prevSp, m, c);
      }
      c := c + 1;
    }

    /** The effect of a call: the arguments of the caller have become the first locals of a new frame. */
    twostate predicate Called(m: Method, new locals: seq<Cell>)
      reads this, chain, Arrays(chain)
    {
      && ip == m.code && |locals| == m.frameSize
      && Frames() == WithoutArguments(old(Frames()), m.argCount) + [Frame(m, locals, [], old(ip), None)]
      && (old(Frames()) != [] && m.argCount <= m.frameSize ==>
            locals[..m.argCount] == Arguments(old(Frames()), m.argCount))
    }

    twostate predicate SameRegisters()
      reads this
    {
      fp == old(fp) && sp == old(sp) && lp == old(lp) && ip == old(ip) && cp == old(cp)
    }

    method PushInNextChunk(stack: Chunk, m: Method, heapHasRoom: bool) returns (pushed: bool, ghost locals: seq<Cell>)
      requires Valid() && CanCall(m) && ChainOk(chain) && TopChunk() < |chain| && stack == chain[TopChunk()]
      modifies this, chain, Arrays(chain)
      ensures Valid() && (heapHasRoom ==> pushed)
      ensures if pushed then Called(m, locals) else Frames() == old(Frames()) && SameRegisters()
      ensures forall k | k in chain :: k in old(chain) || (fresh(k) && fresh(k.cells))
    {
      hide FramesOk, FrameAt, FramesOf, Arguments, WithoutArguments, Fits, Lowered, ChainOk, RegistersOk, HasArguments,
        IsPlace;
      var prevSp := Pointer(sp.chunk, sp.index - m.argCount);
      CallFacts(m);
      var newstack, c := FindPlaceInNextChunk(stack, m, sp.chunk.cells[prevSp.index + 1..sp.index + 1], heapHasRoom);
      if newstack == null {
        return false, [];
      }
      locals := newstack.cells[..m.frameSize];
      assert locals[..m.argCount] == newstack.cells[..m.argCount];
      InstallFrame(Pointer(newstack, m.frameSize), Pointer(newstack, 0), prevSp, m, c);
      return true, locals;
    }

    method PushInCurrentChunk(m: Method) returns (ghost locals: seq<Cell>)
      requires Valid() && CanCall(m)
      requires sp.index + m.frameSize - m.argCount + m.maxStack + SIZEOF_FRAME + RESERVEDFORNATIVE < sp.chunk.size
      requires ChainOk(chain) && chain[0] == first && sp.chunk in chain
      modifies this`fp, this`sp, this`lp, this`ip, this`cp, this`frames, Arrays(chain)
      ensures Valid() && Called(m, locals)
    {
      hide FramesOk, FrameAt, FramesOf, Arguments, WithoutArguments, Fits, Lowered, ChainOk, RegistersOk, HasArguments,
        IsPlace;
      PlaceHere(m);
      var prevSp := Pointer(sp.chunk, sp.index - m.argCount);
      locals := sp.chunk.cells[..][prevSp.index + 1..sp.index + m.frameSize - m.argCount + 1];
      PrefixOfSlice(sp.chunk.cells[..], prevSp.index + 1, sp.index + m.frameSize - m.argCount + 1, m.argCount);
      InstallFrame(Pointer(sp.chunk, sp.index + m.frameSize - m.argCount + 1), Pointer(sp.chunk, prevSp.index + 1),
                   prevSp, m, TopChunk());
    }

    /** Calls a method. If there is no space and the heap is full nothing happens. */
    method PushFrame(m: Method, heapHasRoom: bool) returns (pushed: bool, ghost locals: seq<Cell>)
      requires Valid() && CanCall(m)
      modifies this, chain, Arrays(chain)
      ensures Valid() && (heapHasRoom ==> pushed)
      ensures if pushed then Called(m, locals) else Frames() == old(Frames()) && SameRegisters()
      ensures forall k | k in chain :: k in old(chain) || (fresh(k) && fresh(k.cells))
    {
      hide FramesOk, FrameAt, FramesOf, Arguments, WithoutArguments, Fits, Lowered, ChainOk, RegistersOk, HasArguments,
        IsPlace;
      var stack := CurrentStack();
      var height := m.frameSize - m.argCount + m.maxStack + SIZEOF_FRAME + RESERVEDFORNATIVE;
      if sp.index + height >= stack.size {
        pushed, locals := PushInNextChunk(stack, m, heapHasRoom);
      } else {
        locals := PushInCurrentChunk(m);
        pushed := true;
      }
    }
  
    /** The fields of a frame, as found in its chunk. */
    lemma FieldsAt(k: nat)
      requires Valid() && k < |frames|
      ensures frames[k].c < |chain| && frames[k].fp + SIZEOF_FRAME <= chain[frames[k].c].cells.Length
      ensures ChunkBelow(frames, k) < |chain|
      ensures k > 0 ==> frames[k - 1].c < |chain|
      ensures chain[frames[k].c].cells[frames[k].fp] ==
              PreviousFp(if k == 0 then None else Some(Pointer(chain[frames[k - 1].c], frames[k - 1].fp)))
      ensures chain[frames[k].c].cells[frames[k].fp + 1] == PreviousIp(frames[k].returnIp)
      ensures chain[frames[k].c].cells[frames[k].fp + 2] == PreviousSp(Pointer(chain[ChunkBelow(frames, k)],
          TopBelow(frames, k)))
      ensures chain[frames[k].c].cells[frames[k].fp + 3] == ThisMethod(frames[k].m)
      ensures chain[frames[k].c].cells[frames[k].fp + 4] == ThisStack(chain[frames[k].c])
      ensures chain[frames[k].c].cells[frames[k].fp + 5] == SyncObject(frames[k].sync)
      ensures frames[k].fp == frames[k].lp + frames[k].m.frameSize && Frames()[k].returnIp == frames[k].returnIp
      ensures Frames()[k].m == frames[k].m && Frames()[k].sync == frames[k].sync
    {
      hide FramesOk, Follows, ChainOk;
      FrameOkAt(MemoryOf(chain), chain, frames, k);
      var f := frames[k];
      var fields := chain[f.c].cells[..][f.fp..f.fp + SIZEOF_FRAME];
      assert forall i | 0 <= i < SIZEOF_FRAME :: fields[i] == chain[f.c].cells[f.fp + i];
    }

    /** What popFrame finds. */
    lemma CallerAt()
      requires Valid() && |frames| >= 2
      ensures fp.Some? && 0 <= fp.value.index && fp.value.index + 2 < fp.value.chunk.cells.Length
      ensures var caller := frames[|frames| - 2];
              && caller.c < |chain| && caller.fp + 3 < chain[caller.c].cells.Length
                 && caller.lp == caller.fp - caller.m.frameSize
              && fp.value.chunk.cells[fp.value.index] == PreviousFp(Some(Pointer(chain[caller.c], caller.fp)))
              && fp.value.chunk.cells[fp.value.index + 2] == PreviousSp(Pointer(chain[caller.c], caller.sp))
              && chain[caller.c].cells[caller.fp + 3] == ThisMethod(caller.m)
      ensures fp.value.chunk.cells[fp.value.index + 1] == PreviousIp(Frames()[|Frames()| - 1].returnIp)
    {
      hide FramesOk, FrameAt;
      FieldsAt(|frames| - 1);
      FieldsAt(|frames| - 2);
    }

    /**
     * Returns from a method: the caller continues with its operands as they were, without the arguments of the call.
     */
    method PopFrame()
      requires Valid() && |frames| >= 2
      modifies this`fp, this`sp, this`lp, this`ip, this`cp, this`frames
      ensures Valid() && |old(Frames())| >= 2
      ensures Frames() == Apply(old(Frames()), Return) && ip == old(Frames())[|old(Frames())| - 1].returnIp
    {
      hide FramesOk, FrameAt, FramesOf, ChainOk;
      ghost var mem, n := MemoryOf(chain), |frames| - 1;
      CallerAt();
      FrameRemoved(mem, chain, frames);
      var cells, at := fp.value.chunk.cells, fp.value.index;
      var newFp := cells[at].fp;
      var m := newFp.value.chunk.cells[newFp.value.index + 3].m;
      SetRegisters(newFp, cells[at + 2].sp, Pointer(newFp.value.chunk, newFp.value.index - m.frameSize),
                   cells[at + 1].ip, m.constPool,
                   frames[..n]);
      assert ChainOk(chain) && MemoryOf(chain) == mem;
    }

    ghost function Top(): Frame
      requires |Frames()| > 0
      reads this, chain, Arrays(chain)
    {
      Frames()[|Frames()| - 1]
    }

    method WriteCell(at: Pointer, ghost c: nat, v: Cell)
      requires ChainOk(chain) && c < |chain| && at.chunk == chain[c] && 0 <= at.index < at.chunk.cells.Length
      modifies at.chunk.cells
      ensures ChainOk(chain) && MemoryOf(chain) == old(MemoryOf(chain))[c := old(MemoryOf(chain)[c])[at.index := v]]
    {
      ghost var mem := MemoryOf(chain);
      at.chunk.cells[at.index] := v;
      assert forall b | 0 <= b < |chain| && b != c :: MemoryOf(chain)[b] == mem[b];
    }

    /** What is known of the top frame. */
    lemma TopFacts()
      requires Valid() && |Frames()| > 0
      ensures |frames| > 0 && ChainOk(chain) && chain[0] == first && TopChunk() < |chain|
      ensures Fits(MemoryOf(chain), frames[|frames| - 1]) && Top() == FrameAt(MemoryOf(chain), frames[|frames| - 1])
      ensures fp == Some(Pointer(chain[TopChunk()], frames[|frames| - 1].fp))
      ensures sp == Pointer(chain[TopChunk()], frames[|frames| - 1].sp)
      ensures lp == Pointer(chain[TopChunk()], frames[|frames| - 1].lp) && Top().m == frames[|frames| - 1].m
      ensures frames[|frames| - 1].sp < |MemoryOf(chain)[TopChunk()]| && |Top().locals| == Top().m.frameSize
      ensures Top().returnIp == frames[|frames| - 1].returnIp && Top().sync == frames[|frames| - 1].sync
      ensures |Top().operands| == frames[|frames| - 1].sp + 1 - frames[|frames| - 1].fp - SIZEOF_FRAME
      ensures frames[|frames| - 1].fp + SIZEOF_FRAME - 1 + Top().m.maxStack + RESERVEDFORNATIVE
              < chain[TopChunk()].cells.Length
      ensures frames[|frames| - 1].lp + Top().m.frameSize == frames[|frames| - 1].fp
    {
      hide FramesOk, Follows, Linked;
      FrameOkAt(MemoryOf(chain), chain, frames, |frames| - 1);
    }

    lemma ReturnAddressAt()
      requires Valid() && |Frames()| > 0
      ensures fp.Some? && 0 <= fp.value.index && fp.value.index + 1 < fp.value.chunk.cells.Length
      ensures fp.value.chunk.cells[fp.value.index + 1] == PreviousIp(Top().returnIp)
    {
      hide FramesOk, FrameAt;
      FieldsAt(|frames| - 1);
    }

    /** pushStack */
    method PushStack(v: Cell)
      requires Valid() && |Frames()| > 0 && |Top().operands| < Top().m.maxStack + RESERVEDFORNATIVE
      modifies this`sp, this`frames, Arrays(chain)
      ensures Valid() && |old(Frames())| > 0
      ensures Frames() == Apply(old(Frames()), PushOperand(v))
    {
      hide FramesOk, Follows, Linked, ChainOk, FrameAt, FramesOf;
      TopFacts();
      ghost var mem, c := MemoryOf(chain), TopChunk();
      var newSp := Pointer(sp.chunk, sp.index + 1);
      WriteCell(newSp, c, v);
      ghost var mem' := MemoryOf(chain);
      OperandPushed(mem, chain, frames, mem', c, sp.index, v);
      sp, frames := newSp, WithTop(frames, newSp.index);
      assert MemoryOf(chain) == mem';
    }
  
    /** popStack */
    method PopStack() returns (v: Cell)
      requires Valid() && |Frames()| > 0 && |Top().operands| > 0
      modifies this`sp, this`frames
      ensures Valid() && |old(Frames())| > 0 && |old(Top()).operands| > 0
      ensures Frames() == Apply(old(Frames()), PopOperand) && Arguments(old(Frames()), 1) == [v]
    {
      hide FramesOk, Follows, Linked, ChainOk, FrameAt, FramesOf, WithoutArguments, Arguments;
      TopFacts();
      ghost var mem := MemoryOf(chain);
      OperandPopped(mem, chain, frames, sp.index);
      v := sp.chunk.cells[sp.index];
      sp, frames := Pointer(sp.chunk, sp.index - 1), WithTop(frames, sp.index - 1);
      assert MemoryOf(chain) == mem;
    }

    /** Stores a local variable. */
    method SetLocal(i: nat, v: Cell)
      requires Valid() && |Frames()| > 0 && i < Top().m.frameSize
      modifies Arrays(chain)
      ensures Valid() && |old(Frames())| > 0 && i < |old(Top()).locals|
      ensures Frames() == Apply(old(Frames()), StoreLocal(i, v))
    {
      hide FramesOk, Follows, Linked, ChainOk, FrameAt, FramesOf;
      TopFacts();
      ghost var mem, c := MemoryOf(chain), TopChunk();
      WriteCell(Pointer(lp.chunk, lp.index + i), c, v);
      LocalSet(mem, chain, frames, MemoryOf(chain), i, v);
    }

    /** Stores the monitor that the top frame has entered. */
    method SetSyncObject(sync: Option<int>)
      requires Valid() && |Frames()| > 0
      modifies this`frames, Arrays(chain)
      ensures Valid() && |old(Frames())| > 0 && Frames() == Apply(old(Frames()), Enter(sync))
    {
      hide FramesOk, Follows, Linked, ChainOk, FrameAt, FramesOf;
      TopFacts();
      ghost var mem, c, n := MemoryOf(chain), TopChunk(), |frames| - 1;
      WriteCell(Pointer(fp.value.chunk, fp.value.index + 5), c, SyncObject(sync));
      ghost var mem' := MemoryOf(chain);
      FieldSet(mem, chain, frames, mem', frames[n].(sync := sync), frames[n].fp + 5, SyncObject(sync));
      frames := frames[..n] + [frames[n].(sync := sync)];
      assert MemoryOf(chain) == mem';
    }

    /** fp->previousIp += invokerSize: the caller will continue after the call. */
    method AdvanceReturnAddress(invokerSize: nat)
      requires Valid() && |Frames()| > 0
      modifies this`frames, Arrays(chain)
      ensures Valid() && |old(Frames())| > 0
      ensures Frames() == Apply(old(Frames()), Advance(invokerSize))
    {
      hide FramesOk, Follows, Linked, ChainOk, FrameAt, FramesOf;
      TopFacts();
      ghost var mem, c, n := MemoryOf(chain), TopChunk(), |frames| - 1;
      ReturnAddressAt();
      var ip' := fp.value.chunk.cells[fp.value.index + 1].ip + invokerSize;
      WriteCell(Pointer(fp.value.chunk, fp.value.index + 1), c, PreviousIp(ip'));
      ghost var mem' := MemoryOf(chain);
      FieldSet(mem, chain, frames, mem', frames[n].(returnIp := ip'), frames[n].fp + 1, PreviousIp(ip'));
      frames := frames[..n] + [frames[n].(returnIp := ip')];
      assert MemoryOf(chain) == mem';
    }
  }
}
