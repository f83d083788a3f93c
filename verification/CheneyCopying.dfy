/**
 * updatePointer, updateMonitor and copyNonRootObjects (collectorDebug.c): objects are copied when a pointer to them is
 * followed.
 */
module CheneyCopying {
  import opened Cells
  import opened FreeList
  import opened Objects
  import opened HeapShape
  import opened Marking
  import opened TwoSpaces

  /** m' is m after the object at h has been copied to the free end of the target space. */
  ghost predicate JustCopied(m': seq<Cell>, m: seq<Cell>, sp: Spaces, p: Progress, h: nat) {
    && h < |sp.m0| && h + SizeOf(sp.m0[h]) < |sp.m0| == |m| == |m'|
       && TargetFree(sp, p) + SizeOf(sp.m0[h]) + HEADERSIZE <= |m| <= MAX_CELLS
    && m'[h] == CELL * (TargetFree(sp, p) + HEADERSIZE) + 1
    && (forall k {:trigger m'[TargetFree(sp, p) + k]} | 0 <= k <= SizeOf(sp.m0[h]) ::
          m'[TargetFree(sp, p) + k] == sp.m0[h + k])
    && (forall k {:trigger m'[k]} | 0 <= k < |m| && k != h
        && !(TargetFree(sp, p) <= k < TargetFree(sp, p) + SizeOf(sp.m0[h]) + HEADERSIZE) :: m'[k] == m[k])
  }

  lemma CopiedFacts(m: seq<Cell>, sp: Spaces, p: Progress)
    requires Copied(m, sp, p)
    ensures Good(sp) && Apart(sp) && Tiled(sp.m0, sp.lo, sp.free) && InOrder(sp, p)
    ensures p.where.Keys <= Headers(sp.m0, sp.lo, sp.free) && p.where.Keys <= sp.reachable
    ensures OldSpace(m, sp, p) && NewSpace(m, sp, p) && |m| == |sp.m0|
    ensures forall s | s in p.done :: s < |sp.m0| && HasCopy(sp, p.where, sp.m0[s])
    ensures forall s | s in p.done + p.other.Keys :: IsInside(sp, p.where, s)
  {
    hide Copyable, Apart;
  }

  /** A cell of an object that has not been copied has not been followed. */
  lemma NotYetFollowed(sp: Spaces, p: Progress, h: nat, k: nat)
    requires Good(sp) && p.where.Keys <= Headers(sp.m0, sp.lo, sp.free) && h in Headers(sp.m0, sp.lo, sp.free)
    requires h !in p.where
    requires h < |sp.m0| && k <= SizeOf(sp.m0[h])
    ensures !IsInside(sp, p.where, h + k)
  {
    hide Copyable, Apart;
    forall g | g in p.where && g < |sp.m0|
      ensures !(g < h + k < Next(sp.m0, g))
    {
      if g < h {
        HeadersApart(sp.m0, sp.lo, sp.free, g, h);
      } else {
        HeadersApart(sp.m0, sp.lo, sp.free, h, g);
      }
    }
  }

  lemma OldSpaceOneMore(m': seq<Cell>, m: seq<Cell>, sp: Spaces, p: Progress, h: nat)
    requires Copied(m, sp, p) && h in Headers(sp.m0, sp.lo, sp.free) && h !in p.where && JustCopied(m', m, sp, p, h)
    ensures OldSpace(m', sp, OneMore(sp, p, h))
  {
    hide Copied, Good, Headers, NewSpace, InOrder, TargetFree, IsInside, HasCopy;
    CopiedFacts(m, sp, p);
    ObjectBounds(sp, h);
    OneMoreInOrder(sp, p, h);
    SpaceSuffices(sp, p);
    var p' := OneMore(sp, p, h);
    forall g | g in p'.where
      ensures g < |m'| && p'.where[g] + HEADERSIZE < MAX_CELLS && m'[g] == CELL * (p'.where[g] + HEADERSIZE) + 1
    {
      if g != h {
        ObjectBounds(sp, g);
      }
    }
  }

  lemma NewCellOneMore(m': seq<Cell>, m: seq<Cell>, sp: Spaces, p: Progress, h: nat, g: nat, k: nat)
    requires Copied(m, sp, p) && h in Headers(sp.m0, sp.lo, sp.free) && h !in p.where && JustCopied(m', m, sp, p, h)
    requires g in OneMore(sp, p, h).where && g < |sp.m0| && k <= SizeOf(sp.m0[g])
    ensures CellCopied(m', sp, OneMore(sp, p, h), g, k)
  {
    hide Copied, Good, Headers, OldSpace, InOrder, TargetFree, IsInside, HasCopy, Forwarded;
    CopiedFacts(m, sp, p);
    var p' := OneMore(sp, p, h);
    if g == h {
      NotYetFollowed(sp, p, h, k);
      assert h + k in p.done + p.other.Keys ==> IsInside(sp, p.where, h + k);
    } else {
      assert CellCopied(m, sp, p, g, k);
      PlaceOf(sp, p, g);
      ObjectBounds(sp, h);
      if g + k in p.done {
        ForwardedKept(sp, p.where, p'.where, sp.m0[g + k]);
      }
    }
  }

  /** Copying one more object. */
  lemma OneMoreCopied(m': seq<Cell>, m: seq<Cell>, sp: Spaces, p: Progress, h: nat)
    requires Copied(m, sp, p) && h in Headers(sp.m0, sp.lo, sp.free) && h in sp.reachable && h !in p.where
    requires JustCopied(m', m, sp, p, h)
    ensures Copied(m', sp, OneMore(sp, p, h))
  {
    hide Good, Headers, OldSpace, InOrder, TargetFree, HasCopy, JustCopied, CellCopied;
    CopiedFacts(m, sp, p);
    var p' := OneMore(sp, p, h);
    OneMoreInOrder(sp, p, h);
    OldSpaceOneMore(m', m, sp, p, h);
    forall g, k | g in p'.where && g < |sp.m0| && 0 <= k <= SizeOf(sp.m0[g])
      ensures CellCopied(m', sp, p', g, k)
    {
      NewCellOneMore(m', m, sp, p, h, g, k);
    }
    forall s | s in p'.done
      ensures s < |sp.m0| && HasCopy(sp, p'.where, sp.m0[s])
    {
      ForwardedKept(sp, p.where, p'.where, sp.m0[s]);
    }
    forall s | s in p'.done + p'.other.Keys
      ensures IsInside(sp, p'.where, s)
    {
      assert IsInside(sp, p.where, s);
    }
  }

  lemma HeapAligned(lo: nat, hi: nat, v: Cell)
    ensures InHeap(lo, hi, v) <==> InHeap(lo, hi, Untagged(v))
  {
  }

  /** An object that has not been copied is as it was. */
  lemma NotCopiedYet(m: seq<Cell>, sp: Spaces, p: Progress, h: nat)
    requires Copied(m, sp, p) && h in Headers(sp.m0, sp.lo, sp.free) && h !in p.where
    ensures h + SizeOf(sp.m0[h]) < |m| == |sp.m0| && Holds(m, h, sp.m0[h..h + SizeOf(sp.m0[h]) + HEADERSIZE])
    ensures !IsMarked(m[h]) && m[h] == sp.m0[h]
  {
    hide Copied, NewSpace, OldSpace, InOrder, TargetFree, IsInside, HasCopy, Good, Headers, Tiled, SizeOf,
      IsMarked, Holds;
    CopiedFacts(m, sp, p);
    ObjectBounds(sp, h);
    UnmarkedObject(sp, h);
    var block := sp.m0[h..h + SizeOf(sp.m0[h]) + HEADERSIZE];
    forall k | h <= k < h + |block|
      ensures m[k] == block[k - h]
    {
      UncopiedCell(m, sp, p, h, k);
    }
    HoldsFromCells(m, h, block);
    UncopiedCell(m, sp, p, h, h);
  }

  lemma UnmarkedObject(sp: Spaces, h: nat)
    requires Good(sp) && h in Headers(sp.m0, sp.lo, sp.free)
    ensures h < |sp.m0| && !IsMarked(sp.m0[h])
  {
    hide Headers, Tiled, IsMarked, Apart, ScanSlots;
    assert Copyable(sp, h);
  }

  /** A cell of an object that has not been copied. */
  lemma UncopiedCell(m: seq<Cell>, sp: Spaces, p: Progress, h: nat, k: nat)
    requires Good(sp) && InOrder(sp, p) && p.where.Keys <= Headers(sp.m0, sp.lo, sp.free) && OldSpace(m, sp, p)
    requires h in Headers(sp.m0, sp.lo, sp.free) && h !in p.where && h < |sp.m0| && h <= k < Next(sp.m0, h)
    ensures k < |m| == |sp.m0| && m[k] == sp.m0[k]
  {
    hide InOrder, Headers, Tiled, SizeOf, Copyable, Total;
    ObjectBounds(sp, h);
    SpaceSuffices(sp, p);
    if k > h && k in p.where {
      InsideIsNoHeader(sp.m0, sp.lo, sp.free, h, k);
    }
  }

  lemma TaggedIsOdd(x: nat)
    ensures (CELL * x + 1) % 2 == 1
  {
    OddSuccessor(2 * x);
  }

  lemma OddSuccessor(y: nat)
    ensures (2 * y + 1) % 2 == 1
  {
  }

  lemma HeaderOfCopied(m: seq<Cell>, sp: Spaces, p: Progress, h: nat)
    requires OldSpace(m, sp, p) && h in p.where
    ensures h < |m| && p.where[h] + HEADERSIZE < MAX_CELLS && m[h] == CELL * (p.where[h] + HEADERSIZE) + 1
    ensures IsMarked(m[h])
  {
    hide TargetFree;
    TaggedIsOdd(p.where[h] + HEADERSIZE);
  }

  /** The header of a copied object leads to its copy. */
  lemma CopiedAlready(m: seq<Cell>, sp: Spaces, p: Progress, v: Cell)
    requires Copied(m, sp, p) && InHeap(sp.lo, sp.hi, v) && v % CELL == 0 && HeaderAt(v) in p.where
    ensures HeaderAt(v) < |m| && IsMarked(m[HeaderAt(v)]) && m[HeaderAt(v)] - 1 == Forwarded(sp, p.where, v)
  {
    hide Copied, OldSpace, NewSpace, InOrder, TargetFree, IsInside, HasCopy, Good, Headers, IsMarked;
    CopiedFacts(m, sp, p);
    HeaderOfCopied(m, sp, p, HeaderAt(v));
  }

  /** More has been copied, and nothing else has happened. */
  ghost predicate Extends(p': Progress, p: Progress) {
    && p'.done == p.done && p'.other == p.other && p.order <= p'.order
    && forall h | h in p.where :: h in p'.where && p'.where[h] == p.where[h]
  }

  lemma JustCopiedFrom(m2: seq<Cell>, m1: seq<Cell>, m: seq<Cell>, sp: Spaces, p: Progress, h: nat, free: nat)
    requires Copied(m, sp, p) && h in Headers(sp.m0, sp.lo, sp.free) && h !in p.where && free == TargetFree(sp, p)
    requires h < |sp.m0|
    requires h + SizeOf(sp.m0[h]) < |sp.m0| == |m| <= MAX_CELLS && free + SizeOf(sp.m0[h]) + HEADERSIZE <= |m|
    requires !(free <= h < free + SizeOf(sp.m0[h]) + HEADERSIZE)
    requires Holds(m1, free, sp.m0[h..h + SizeOf(sp.m0[h]) + HEADERSIZE])
    requires Framed(m1, m, free, free + SizeOf(sp.m0[h]) + HEADERSIZE)
    requires free + HEADERSIZE < MAX_CELLS && m2 == m1[h := CELL * (free + HEADERSIZE) + 1]
    ensures JustCopied(m2, m, sp, p, h)
  {
    hide Copied, TargetFree, Headers, Tiled;
    var block := sp.m0[h..h + SizeOf(sp.m0[h]) + HEADERSIZE];
    forall k {:trigger m2[free + k]} | 0 <= k <= SizeOf(sp.m0[h])
      ensures m2[free + k] == sp.m0[h + k]
    {
      HoldsAt(m1, free, block, k);
    }
    forall k | 0 <= k < |m| && k != h && !(free <= k < free + SizeOf(sp.m0[h]) + HEADERSIZE)
      ensures m2[k] == m[k]
    {
      FramedAt(m1, m, free, free + SizeOf(sp.m0[h]) + HEADERSIZE, k);
    }
  }

  class Copier {
    const mem: array<Cell>
    const currentHeap: nat
    const currentHeapEnd: nat
    const targetSpace: nat
    var targetSpaceFreePtr: nat
    ghost const spaces: Spaces
    ghost var progress: Progress

    ghost predicate Valid()
      reads this, mem
    {
      && Copied(mem[..], spaces, progress) && targetSpaceFreePtr == TargetFree(spaces, progress)
      && currentHeap == spaces.lo && currentHeapEnd == spaces.hi && targetSpace == spaces.target
    }

    constructor (mem: array<Cell>, currentHeap: nat, currentHeapEnd: nat, targetSpace: nat, ghost spaces: Spaces)
      requires Good(spaces) && mem[..] == spaces.m0 && currentHeap == spaces.lo && currentHeapEnd == spaces.hi
      requires targetSpace == spaces.target
      ensures Valid() && this.mem == mem && this.spaces == spaces && progress == Progress(map[], [], {}, map[])
      ensures this.currentHeap == currentHeap && this.currentHeapEnd == currentHeapEnd
    {
      this.mem, this.currentHeap, this.currentHeapEnd, this.targetSpace, this.targetSpaceFreePtr :=
        mem, currentHeap, currentHeapEnd, targetSpace, targetSpace;
      this.spaces, this.progress := spaces, Progress(map[], [], {}, map[]);
    }

    /** The new value of a pointer; the object is copied unless it has been copied before. */
    method UpdatePointer(value: Cell) returns (result: Cell)
      requires Valid() && PointsToObject(spaces, value)
      requires (InHeap(spaces.lo, spaces.hi, value) ==> HeaderAt(value) in spaces.reachable)
      modifies mem, this`targetSpaceFreePtr, this`progress
      ensures Valid() && Extends(progress, old(progress)) && HasCopy(spaces, progress.where, value)
      ensures result == Forwarded(spaces, progress.where, value)
    {
      hide Copied, Good, Headers, Tiled, TargetFree, Forwarded, JustCopied;
      CopiedFacts(mem[..], spaces, progress);
      HeapAligned(currentHeap, currentHeapEnd, value);
      result := value;
      if value != NULL && currentHeap * CELL <= value < currentHeapEnd * CELL {
        result := Forward(value);
      } else {
        NotForwarded(spaces, progress.where, value);
      }
    }

    method Forward(value: Cell) returns (result: Cell)
      requires Valid() && InHeap(spaces.lo, spaces.hi, value) && value % CELL == 0
      requires Tiled(spaces.m0, spaces.lo, spaces.free)
      requires HeaderAt(value) in Headers(spaces.m0, spaces.lo, spaces.free) && HeaderAt(value) in spaces.reachable
      modifies mem, this`targetSpaceFreePtr, this`progress
      ensures Valid() && Extends(progress, old(progress)) && HeaderAt(value) in progress.where
      ensures result == Forwarded(spaces, progress.where, value)
    {
      hide Copied, Good, Headers, Tiled, TargetFree, Forwarded, JustCopied, IsMarked, Holds, OldSpace,
        NewSpace, InOrder, IsInside, HasCopy;
      var at := value / CELL - HEADERSIZE;
      CopiedFacts(mem[..], spaces, progress);
      ObjectBounds(spaces, at);
      var valueHeader := mem[at];
      ghost var copiedBefore := at in progress.where;
      if copiedBefore {
        CopiedAlready(mem[..], spaces, progress, value);
      } else {
        NotCopiedYet(mem[..], spaces, progress, at);
      }
      if IsMarked(valueHeader) {
        result := valueHeader - 1;
      } else {
        CopyObject(at, valueHeader);
        CopiedAlready(mem[..], spaces, progress, value);
        result := mem[at] - 1;
      }
    }

    method CopyObject(at: nat, valueHeader: Cell)
      requires Valid() && Tiled(spaces.m0, spaces.lo, spaces.free) && at in Headers(spaces.m0, spaces.lo, spaces.free)
      requires at in spaces.reachable && at !in progress.where && at < mem.Length
      requires mem[at] == valueHeader == spaces.m0[at]
      modifies mem, this`targetSpaceFreePtr, this`progress
      ensures Valid() && progress == OneMore(spaces, old(progress), at)
    {
      hide Copied, Good, Headers, Tiled, TargetFree, Forwarded, JustCopied, Holds, Framed, OldSpace, NewSpace, InOrder,
        Apart, SizeOf, IsMarked, OneMore;
      ghost var m, p := mem[..], progress;
      CopiedFacts(m, spaces, p);
      ObjectBounds(spaces, at);
      NotCopiedYet(m, spaces, p, at);
      OneMoreInOrder(spaces, p, at);
      RoomForCopy(spaces, p, at);
      var size := SizeOf(valueHeader) + HEADERSIZE;
      Memmove(mem, targetSpaceFreePtr, at, size, spaces.m0[at..at + size]);
      ghost var m1 := mem[..];
      mem[at] := CELL * (targetSpaceFreePtr + HEADERSIZE) + 1;
      JustCopiedFrom(mem[..], m1, m, spaces, p, at, targetSpaceFreePtr);
      OneMoreCopied(mem[..], m, spaces, p, at);
      targetSpaceFreePtr := targetSpaceFreePtr + size;
      progress := OneMore(spaces, p, at);
    }
  }

  lemma NotForwarded(sp: Spaces, where: map<nat, nat>, v: Cell)
    requires !InHeap(sp.lo, sp.hi, v) || (v == NULL && 1 <= sp.lo)
    ensures Forwarded(sp, where, v) == v && HasCopy(sp, where, v)
  {
    HeapAligned(sp.lo, sp.hi, v);
  }
}
