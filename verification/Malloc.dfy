/** mallocHeapObject: allocation with a garbage collection when no chunk is large enough. */
module Malloc {
  import opened Cells
  import opened FreeList
  import opened Objects
  import opened HeapShape
  import opened Marking
  import opened Reachability
  import opened Roots
  import opened Tracing
  import opened Clearing
  import Relocation
  import opened Sweeping
  import opened Outcomes
  import opened Preservation
  import opened Isomorphism
  import opened Collecting
  import opened CollectionTheorems
  import opened Allocation
  import opened HeapObjects
  import opened WeakPointers

  /** The cells of the heap that no reachable object holds. */
  ghost function UnreachedCells(classOf: Cell -> Class, m: seq<Cell>, lo: nat, hi: nat, r: Roots): nat {
    if Tiled(m, lo, hi) then DeadCells(m, lo, hi, Alive(classOf, m, lo, hi, r)) else 0
  }

  lemma {:induction false} SweptApart(lo: nat, hi: nat, chunks: seq<Chunk>, i: nat, j: nat)
    requires Swept(lo, hi, chunks) && i < j < |chunks|
    ensures chunks[i].End() <= chunks[j].start
    decreases j - i
  {
    assert chunks[j - 1].End() + 2 <= GroupEnd(hi, chunks, j);
    if i < j - 1 {
      SweptApart(lo, hi, chunks, i, j - 1);
    }
  }

  /** After a collection the free list is that of the heap. */
  lemma FreeHeapAfterCollection(o: Outcome, m5: seq<Cell>, chunks: seq<Chunk>, first: Cell)
    requires Preserved(o, m5, chunks, first) && Swept(o.g.lo, o.g.hi, chunks)
    ensures FreeHeap(m5, o.g.lo, o.g.hi, chunks, first)
  {
    hide AtRest, Startable, Preserved, Tiled, Headers, KindOf, Outcome.Place, ChunkHeader, Swept, Free, Starts, Places;
    PreservedFacts(o, m5, chunks, first);
    forall i, j | 0 <= i < j < |chunks|
      ensures chunks[i].End() <= chunks[j].start
    {
      SweptApart(o.g.lo, o.g.hi, chunks, i, j);
    }
    forall h | h in Headers(m5, o.g.lo, o.g.hi) && h < |m5| && KindOf(m5[h]) == GCT_FREE
      ensures h in Starts(chunks)
    {
      var before := CopyOrChunk(o, m5, chunks, first, h);
      var c :| c in chunks && c.start == h && 2 <= c.cells && c.End() <= |m5| <= MAX_CELLS
        && m5[h] == ChunkHeader(c.cells);
      var k :| 0 <= k < |chunks| && chunks[k] == c;
      StartIn(chunks, k);
    }
    FreeHeapFrom(m5, o.g.lo, o.g.hi, chunks, first);
  }

  /** An unmarked object is part of the dead cells. */
  lemma {:induction false} DeadAtLeast(m: seq<Cell>, p: nat, hi: nat, marked: set<nat>, h: nat)
    requires Tiled(m, p, hi) && h in Headers(m, p, hi) && h !in marked
    ensures h < |m| && Next(m, h) - h <= DeadCells(m, p, hi, marked)
    decreases hi - p
  {
    if h != p {
      DeadAtLeast(m, Next(m, p), hi, marked, h);
    }
  }

  /** Free chunks are not reachable. */
  lemma AliveIsUsed(classOf: Cell -> Class, m: seq<Cell>, lo: nat, hi: nat, r: Roots, h: nat)
    requires Ready(classOf, m, lo, hi, r) && Tiled(m, lo, hi) && h in Alive(classOf, m, lo, hi, r)
    ensures h < |m| && KindOf(m[h]) != GCT_FREE
  {
    hide Tiled, Headers, KindOf, WeakSound, InUse, ReachedIn;
    var g := Start(classOf, m, lo, hi, {});
    var targets := r.Targets(m, lo, hi);
    forall t | t in targets
      ensures InUse(g, t)
    {
      TargetInUse(g, r, t);
    }
    var n: nat :| ReachedIn(g, targets, n, h);
    ReachedAreInUse(g, targets, n, h);
    InUseFacts(g, h);
  }

  /** A chunk that is large enough is made of unreached cells. */
  lemma RoomInChunk(classOf: Cell -> Class, m: seq<Cell>, lo: nat, hi: nat, r: Roots, chunks: seq<Chunk>, first: Cell,
                    k: nat)
    requires Ready(classOf, m, lo, hi, r) && FreeHeap(m, lo, hi, chunks, first) && k < |chunks|
    ensures chunks[k].cells <= UnreachedCells(classOf, m, lo, hi, r)
  {
    hide Ready, FreeHeap, Tiled, Headers, KindOf, Alive, DeadCells;
    ChunkObject(m, lo, hi, chunks, first, k);
    var h := chunks[k].start;
    var alive := Alive(classOf, m, lo, hi, r);
    if h in alive {
      AliveIsUsed(classOf, m, lo, hi, r, h);
    }
    DeadAtLeast(m, lo, hi, alive, h);
  }

  lemma {:induction false} ChunkInDead(chunks: seq<Chunk>, k: nat, n: nat)
    requires k < n <= |chunks|
    ensures chunks[k].cells <= Dead(chunks, n)
  {
    if k < n - 1 {
      ChunkInDead(chunks, k, n - 1);
    }
  }

  /** After a collection a request can be served exactly if there are enough free cells in all. */
  lemma RoomAfterCollection(o: Outcome, chunks: seq<Chunk>, realSize: nat)
    requires Defragmented(o, chunks, realSize) && 0 < realSize
    ensures (exists c | c in chunks :: realSize <= c.cells) <==> realSize <= FreeCells(o.g)
  {
    hide FreeCells;
    if c :| c in chunks && realSize <= c.cells {
      var k :| 0 <= k < |chunks| && chunks[k] == c;
      ChunkInDead(chunks, k, |chunks|);
    }
    if |chunks| == 1 {
      assert Dead(chunks, 1) == Dead(chunks, 0) + chunks[0].cells;
      assert chunks[0] in chunks;
    }
  }

  /** What allocation has done: at most one collection, then at most one request served from the free list `chunks`. */
  datatype Trace = Trace(collected: bool, o: Outcome, m2: seq<Cell>, first: Cell, m: seq<Cell>, r: Roots,
                         chunks: seq<Chunk>, k: nat)

  /** The heap and the roots from which the request was served. */
  ghost predicate Prepared(t: Trace, classOf: Cell -> Class, m0: seq<Cell>, lo: nat, hi: nat, r0: Roots) {
    && Ready(classOf, t.m, lo, hi, t.r) && FreeHeap(t.m, lo, hi, t.chunks, t.first)
    && if t.collected then Collection(t.o, classOf, m0, lo, hi, r0, t.m, t.r, t.m2, t.chunks, t.first)
       else t.m == m0 && t.r == r0
  }

  /** The type bits of the header that allocateFreeChunk has written. */
  method SetType(mem: array<Cell>, dataArea: nat, kind: nat, ghost cells: nat)
    requires dataArea < mem.Length && kind < 64 && 2 <= cells <= MAX_CELLS && mem[dataArea] == ChunkHeader(cells)
    modifies mem
    ensures mem[..] == old(mem[..])[dataArea := HeaderOf(cells - HEADERSIZE, kind)]
  {
    mem[dataArea] := mem[dataArea] + kind * 4;
  }

  /** Looks for room; if there is none, collects garbage and looks again. */
  method FindRoom(heap: Heap, classOf: Cell -> Class, roots: RootSet, realSize: nat)
    returns (dataArea: nat, ghost t: Trace)
    requires heap.Valid() && Ready(classOf, heap.mem[..], heap.currentHeap, heap.currentHeapEnd, roots.Now())
    requires roots.variables != heap.mem && 2 <= realSize
    modifies heap, heap.mem, roots.variables, roots.temporaryRoots
    ensures Prepared(t, classOf, old(heap.mem[..]), heap.currentHeap, heap.currentHeapEnd, old(roots.Now()))
    ensures roots.Now() == t.r
    ensures t.collected <==> forall c | c in old(heap.chunks) :: c.cells < realSize
    ensures dataArea == 0
            <==> UnreachedCells(classOf, old(heap.mem[..]), heap.currentHeap, heap.currentHeapEnd,
                                old(roots.Now())) < realSize
    ensures dataArea == 0 ==> heap.Valid() && heap.mem[..] == t.m
    ensures dataArea != 0 ==>
              && FirstFit(t.chunks, t.k, realSize) && dataArea == Taken(t.chunks[t.k], realSize)
              && heap.chunks == Rest(t.chunks, t.k, realSize)
              && Free(heap.mem[..], heap.currentHeapEnd, heap.chunks, heap.firstFreeChunk) && Apart(heap.chunks)
              && Allocated(heap.mem[..], t.m, t.chunks, t.k, realSize)
  {
    hide Ready, FreeHeap, UnreachedCells, Collection, Free, Apart, Allocated, FinalizedOnce, Swept, Preserved,
      Defragmented, FreeCells, ChunkHeader;
    ghost var m0, r0, c0, f0 := heap.mem[..], roots.Now(), heap.chunks, heap.firstFreeChunk;
    ghost var k;
    dataArea, k := heap.AllocateFreeChunk(realSize);
    ghost var none: Outcome :=
      Outcome(Start(classOf, m0, heap.currentHeap, heap.currentHeapEnd, {}), false, Relocation.Table(0, 0, [], 0, 0));
    t := Trace(false, none, m0, f0, m0, r0, c0, k);
    if dataArea == 0 {
      ghost var o, m2, chunks;
      var first, calls;
      first, calls, o, m2, chunks :=
        GarbageCollectForReal(heap.mem, heap.currentHeap, heap.currentHeapEnd, classOf, roots, realSize);
      AfterGarbage(o, classOf, m0, heap.currentHeap, heap.currentHeapEnd, r0, heap.mem[..], roots.Now(), m2, chunks,
                   first, realSize);
      heap.firstFreeChunk := first;
      heap.chunks := chunks;
      ghost var m, r := heap.mem[..], roots.Now();
      dataArea, k := heap.AllocateFreeChunk(realSize);
      t := Trace(true, o, m2, first, m, r, chunks, k);
      if dataArea != 0 {
        assert chunks[k] in chunks;
      }
    } else {
      RoomInChunk(classOf, m0, heap.currentHeap, heap.currentHeapEnd, r0, c0, f0, k);
    }
  }

  /** What is known after the collection in the middle of an allocation. */
  lemma AfterGarbage(o: Outcome, classOf: Cell -> Class, m0: seq<Cell>, lo: nat, hi: nat, r0: Roots,
                     m5: seq<Cell>, r: Roots, m2: seq<Cell>, chunks: seq<Chunk>, first: Cell, realSize: nat)
    requires Ready(classOf, m0, lo, hi, r0) && Collection(o, classOf, m0, lo, hi, r0, m5, r, m2, chunks, first)
    requires Defragmented(o, chunks, realSize) && Swept(lo, hi, chunks) && 0 < realSize
    ensures Ready(classOf, m5, lo, hi, r) && FreeHeap(m5, lo, hi, chunks, first)
    ensures UnreachedCells(classOf, m0, lo, hi, r0) < realSize <==> forall c | c in chunks :: c.cells < realSize
  {
    ReadyAgain(o, classOf, m0, lo, hi, r0, m5, r, m2, chunks, first);
    CollectionIsCorrect(o, classOf, m0, lo, hi, r0, m5, r, m2, chunks, first);
    assert UnreachedCells(classOf, m0, lo, hi, r0) == FreeCells(o.g);
    hide Ready, Collection, FreeHeap, UnreachedCells, FreeCells, Preserved, Swept, Defragmented, Alive;
    FreeHeapAfterCollection(o, m5, chunks, first);
    RoomAfterCollection(o, chunks, realSize);
  }

  /** The size of the request in cells, header included; a request for nothing is one for a single cell. */
  function RealSize(size: nat): nat {
    (if size == 0 then 1 else size) + HEADERSIZE
  }

  lemma NewObjectFrom(m': seq<Cell>, m1: seq<Cell>, m: seq<Cell>, chunks: seq<Chunk>, k: nat, size: nat, kind: nat,
                      at: nat)
    requires Allocated(m1, m, chunks, k, size) && kind < 64 && at == Taken(chunks[k], size)
    requires m' == m1[at := HeaderOf(Given(chunks[k], size) - HEADERSIZE, kind)]
    requires chunks[k].End() <= |m| <= MAX_CELLS
    requires chunks[k].cells > size + HEADERSIZE ==> m1[chunks[k].start] == ChunkHeader(chunks[k].cells - size)
    ensures NewObject(m', m, chunks, k, size, kind)
  {
    hide ChunkHeader, HeaderOf;
  }

  /** Writing the header of the object leaves the free list alone. */
  lemma FreeWithType(m': seq<Cell>, m1: seq<Cell>, hi: nat, chunks: seq<Chunk>, first: Cell, at: nat, header: Cell)
    requires Free(m1, hi, chunks, first) && at < |m1| && m' == m1[at := header]
    requires forall c | c in chunks :: at < c.start || c.End() <= at
    ensures Free(m', hi, chunks, first)
  {
    hide ChunkHeader, SizeOf;
    FreeHead(m1, hi, chunks, first);
    hide Free;
    forall j | 0 <= j < |chunks|
      ensures Listed(m', hi, chunks, j)
    {
      FreeListed(m1, hi, chunks, first, j);
      assert chunks[j] in chunks;
    }
    FreeFromListed(m', hi, chunks, first);
  }

  /** The allocated cells belong to no chunk any more. */
  lemma TakenOutside(chunks: seq<Chunk>, k: nat, size: nat, c: Chunk)
    requires Apart(chunks) && k < |chunks| && size <= chunks[k].cells && 2 <= size && c in Rest(chunks, k, size)
    requires forall d | d in chunks :: 2 <= d.cells
    ensures Taken(chunks[k], size) < c.start || c.End() <= Taken(chunks[k], size)
  {
    hide Apart;
    var rest := Rest(chunks, k, size);
    var j :| 0 <= j < |rest| && rest[j] == c;
    var i := if |rest| == |chunks| || j < k then j else j + 1;
    assert chunks[i] in chunks && chunks[k] in chunks;
    if i != k {
      ApartAt(chunks, i, k);
    }
  }

  lemma PreparedFacts(t: Trace, classOf: Cell -> Class, m0: seq<Cell>, lo: nat, hi: nat, r0: Roots)
    requires Prepared(t, classOf, m0, lo, hi, r0)
    ensures FreeHeap(t.m, lo, hi, t.chunks, t.first)
  {
    hide Ready, FreeHeap, Collection;
  }

  /** A request served from a chunk. */
  ghost predicate Served(m1: seq<Cell>, m: seq<Cell>, lo: nat, hi: nat, chunks: seq<Chunk>, first: Cell, k: nat,
                         size: nat) {
    FreeHeap(m, lo, hi, chunks, first) && 2 <= size && FirstFit(chunks, k, size) && Allocated(m1, m, chunks, k, size)
  }

  lemma ServedFacts(m1: seq<Cell>, m: seq<Cell>, lo: nat, hi: nat, chunks: seq<Chunk>, first: Cell, k: nat, size: nat)
    requires Served(m1, m, lo, hi, chunks, first, k, size)
    ensures k < |chunks| && size <= chunks[k].cells && 2 <= Given(chunks[k], size) <= MAX_CELLS && Apart(chunks)
    ensures 1 <= Taken(chunks[k], size) < |m1| == |m| <= MAX_CELLS
    ensures m1[Taken(chunks[k], size)] == ChunkHeader(Given(chunks[k], size))
    ensures forall c | c in chunks :: 2 <= c.cells && c.End() <= hi <= |m|
  {
    hide FreeHeap, ChunkHeader, Free, Apart;
    FreeHeapFacts(m, lo, hi, chunks, first);
    ChunkEnds(m, hi, chunks, first);
    assert chunks[k] in chunks;
  }

  lemma ChunkEnds(m: seq<Cell>, hi: nat, chunks: seq<Chunk>, first: Cell)
    requires Free(m, hi, chunks, first)
    ensures forall c | c in chunks :: 2 <= c.cells && c.End() <= hi <= |m|
  {
  }

  /** The chunk that a request has been split from is still free. */
  lemma SplitHeader(m1: seq<Cell>, hi: nat, chunks: seq<Chunk>, k: nat, size: nat, newFirst: Cell)
    requires k < |chunks| && size <= chunks[k].cells && Free(m1, hi, Rest(chunks, k, size), newFirst)
    requires chunks[k].cells > size + HEADERSIZE
    ensures chunks[k].start < |m1| && 2 <= chunks[k].cells - size <= MAX_CELLS
    ensures m1[chunks[k].start] == ChunkHeader(chunks[k].cells - size)
  {
    hide Free, ChunkHeader, SizeOf;
    FreeListed(m1, hi, Rest(chunks, k, size), newFirst, k);
  }

  /** Giving the allocated object its type completes the allocation. */
  lemma Typed(m': seq<Cell>, m1: seq<Cell>, m: seq<Cell>, lo: nat, hi: nat, chunks: seq<Chunk>, first: Cell,
              newFirst: Cell,
              k: nat, size: nat, kind: nat, at: nat)
    requires Served(m1, m, lo, hi, chunks, first, k, size) && GCT_FREE < kind < 64
    requires k < |chunks| && size <= chunks[k].cells && 2 <= Given(chunks[k], size) <= MAX_CELLS
    requires at == Taken(chunks[k], size) < |m1|
    requires Free(m1, hi, Rest(chunks, k, size), newFirst) && Apart(Rest(chunks, k, size))
    requires m' == m1[at := HeaderOf(Given(chunks[k], size) - HEADERSIZE, kind)]
    ensures Allocates(m', m, lo, hi, chunks, first, k, size, kind)
    ensures FreeHeap(m', lo, hi, Rest(chunks, k, size), newFirst)
  {
    hide FreeHeap, Free, Apart, Allocated, ChunkHeader, Rest, HeaderOf, NewObject, FirstFit;
    ServedFacts(m1, m, lo, hi, chunks, first, k, size);
    assert chunks[k] in chunks;
    if chunks[k].cells > size + HEADERSIZE {
      SplitHeader(m1, hi, chunks, k, size, newFirst);
    }
    NewObjectFrom(m', m1, m, chunks, k, size, kind, at);
    forall c | c in Rest(chunks, k, size)
      ensures at < c.start || c.End() <= at
    {
      TakenOutside(chunks, k, size, c);
    }
    FreeWithType(m', m1, hi, Rest(chunks, k, size), newFirst, at, HeaderOf(Given(chunks[k], size) - HEADERSIZE, kind));
    FreeHeapAfterAllocation(m', m, lo, hi, chunks, first, newFirst, k, size, kind);
  }

  /**
   * mallocHeapObject.  It fails exactly when the cells that no reachable object holds, taken together, are too few for
   * the object and its header; fragmentation alone never makes it fail. It collects exactly when no free chunk is large
   * enough.
   */
  method MallocHeapObject(heap: Heap, classOf: Cell -> Class, roots: RootSet, size: nat, kind: nat)
    returns (result: Cell, ghost t: Trace)
    requires heap.Valid() && Ready(classOf, heap.mem[..], heap.currentHeap, heap.currentHeapEnd, roots.Now())
    requires roots.variables != heap.mem && GCT_FREE < kind <= GCT_WEAKREFERENCE
    modifies heap, heap.mem, roots.variables, roots.temporaryRoots
    ensures heap.Valid()
    ensures Prepared(t, classOf, old(heap.mem[..]), heap.currentHeap, heap.currentHeapEnd, old(roots.Now()))
    ensures roots.Now() == t.r
    ensures t.collected <==> forall c | c in old(heap.chunks) :: c.cells < RealSize(size)
    ensures result == NULL <==>
              UnreachedCells(classOf, old(heap.mem[..]), heap.currentHeap, heap.currentHeapEnd,
                             old(roots.Now())) < RealSize(size)
    ensures result == NULL ==> heap.mem[..] == t.m
    ensures result != NULL ==>
              HoldsRequest(heap.mem[..], heap.currentHeap, heap.currentHeapEnd, result, size, kind)
    ensures result != NULL ==>
              && FirstFit(t.chunks, t.k, RealSize(size))
                 && result == CELL * (Taken(t.chunks[t.k], RealSize(size)) + HEADERSIZE)
              && heap.chunks == Rest(t.chunks, t.k, RealSize(size))
              && Allocates(heap.mem[..], t.m, heap.currentHeap, heap.currentHeapEnd, t.chunks, t.first, t.k,
                           RealSize(size), kind)
  {
    hide Ready, FreeHeap, UnreachedCells, Free, Apart, Allocated, ChunkHeader, Prepared, Rest, HeaderOf, NewObject,
      FirstFit, KindOf, SizeOf, IsMarked;
    ghost var m0, r0 := heap.mem[..], roots.Now();
    var realSize := RealSize(size);
    var dataArea;
    dataArea, t := FindRoom(heap, classOf, roots, realSize);
    if dataArea == 0 {
      return NULL, t;
    }
    ghost var m1 := heap.mem[..];
    PreparedFacts(t, classOf, m0, heap.currentHeap, heap.currentHeapEnd, r0);
    assert Served(m1, t.m, heap.currentHeap, heap.currentHeapEnd, t.chunks, t.first, t.k, realSize);
    hide Served;
    ServedFacts(m1, t.m, heap.currentHeap, heap.currentHeapEnd, t.chunks, t.first, t.k, realSize);
    SetType(heap.mem, dataArea, kind, Given(t.chunks[t.k], realSize));
    Typed(heap.mem[..], m1, t.m, heap.currentHeap, heap.currentHeapEnd, t.chunks, t.first, heap.firstFreeChunk, t.k,
          realSize, kind, dataArea);
    result := CELL * (dataArea + HEADERSIZE);
    HeaderOfNew(heap.mem[..], t.m, heap.currentHeap, heap.currentHeapEnd, t.chunks, t.first, t.k, realSize, kind);
  }
}
