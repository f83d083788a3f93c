/**
 * callocObject (garbage.c), instantiate and instantiateArray (class.c): new objects are filled before anybody sees
 * them.
 */
module ObjectInitialization {
  import opened Cells
  import opened FreeList
  import opened Objects
  import opened HeapShape
  import opened Marking
  import opened Roots
  import opened HeapUpdate
  import opened WeakPointers
  import opened Tracing
  import opened Outcomes
  import opened Collecting
  import opened Allocation
  import opened HeapObjects
  import opened Malloc
  import Relocation

  /** m2 is m1 but for the cells of the object at h, its header excepted. */
  ghost predicate Filled(m2: seq<Cell>, m1: seq<Cell>, h: nat) {
    && |m2| == |m1| && h < |m1| && Next(m1, h) <= |m1|
    && forall x {:trigger m2[x]} | 0 <= x < |m2| && !(h < x < Next(m1, h)) :: m2[x] == m1[x]
  }

  /** All pointers of the object are NULL. */
  ghost predicate NullObject(classOf: Cell -> Class, m: seq<Cell>, h: nat) {
    && Fits(classOf, m, h) && HasReferent(classOf, m, h) && !IsMarked(m[h]) && KindOf(m[h]) != GCT_FREE
       && !HasRealMonitor(m, h)
    && (forall s | s in StrongSlots(classOf, m, h) :: s < |m| ==> m[s] == NULL)
    && (forall x: nat | IsWeakSlot(m, h, x) :: x < |m| && m[x] == NULL)
  }

  /** Objects stay where they are. */
  lemma FilledRow(m2: seq<Cell>, m1: seq<Cell>, lo: nat, hi: nat, h: nat)
    requires Filled(m2, m1, h) && Tiled(m1, lo, hi) && h in Headers(m1, lo, hi)
    ensures Tiled(m2, lo, hi) && Headers(m2, lo, hi) == Headers(m1, lo, hi) && hi <= |m1| == |m2|
    ensures forall n | n in Headers(m1, lo, hi) :: n < |m1| && m2[n] == m1[n]
  {
    hide Tiled, Headers, SizeOf;
    forall n | n in Headers(m1, lo, hi)
      ensures n < |m1| && m2[n] == m1[n]
    {
      HeaderBounds(m1, lo, hi, n);
      if h < n < Next(m1, h) {
        InsideIsNoHeader(m1, lo, hi, h, n);
      }
    }
    SameTiling(m2, m1, lo, hi);
    HeaderBounds(m1, lo, hi, h);
  }

  /** The cells of other objects do not change. */
  lemma OtherObject(m2: seq<Cell>, m1: seq<Cell>, lo: nat, hi: nat, h: nat, n: nat, x: nat)
    requires Filled(m2, m1, h) && Tiled(m1, lo, hi) && h in Headers(m1, lo, hi) && n in Headers(m1, lo, hi) && n != h
    requires n < |m1| && n <= x < Next(m1, n)
    ensures x < |m2| == |m1| && m2[x] == m1[x]
  {
    hide Tiled, Headers, SizeOf;
    FilledRow(m2, m1, lo, hi, h);
    HeaderBounds(m1, lo, hi, n);
    if n < h {
      HeadersApart(m1, lo, hi, n, h);
    } else {
      HeadersApart(m1, lo, hi, h, n);
    }
  }

  lemma PointsWellFilled(m2: seq<Cell>, m1: seq<Cell>, lo: nat, hi: nat, h: nat, v: int)
    requires Filled(m2, m1, h) && Tiled(m1, lo, hi) && h in Headers(m1, lo, hi) && PointsWell(m1, lo, hi, v)
    ensures Tiled(m2, lo, hi) && PointsWell(m2, lo, hi, v)
  {
    hide Tiled, Headers, SizeOf, KindOf;
    FilledRow(m2, m1, lo, hi, h);
  }

  /** The cells that say where an object has its pointers. */
  lemma OtherShape(classOf: Cell -> Class, m2: seq<Cell>, m1: seq<Cell>, lo: nat, hi: nat, h: nat, n: nat)
    requires Filled(m2, m1, h) && Tiled(m1, lo, hi) && h in Headers(m1, lo, hi) && n in Headers(m1, lo, hi) && n != h
    requires Fits(classOf, m1, n)
    ensures n + 1 < |m2| == |m1| && m2[n] == m1[n] && m2[n + 1] == m1[n + 1] && Next(m2, n) == Next(m1, n)
    ensures Fits(classOf, m2, n)
    ensures HasReferent(classOf, m1, n) ==> HasReferent(classOf, m2, n)
    ensures StrongSlots(classOf, m2, n) == StrongSlots(classOf, m1, n)
    ensures HasRealMonitor(m2, n) <==> HasRealMonitor(m1, n)
    ensures HasRealMonitor(m1, n) ==> MonitorOf(m2, n) == MonitorOf(m1, n)
  {
    hide Tiled, Headers, SizeOf, KindOf, Filled;
    OtherObject(m2, m1, lo, hi, h, n, n);
    OtherObject(m2, m1, lo, hi, h, n, n + 1);
    if HasMonitorCell(KindOf(m1[n])) {
      OtherObject(m2, m1, lo, hi, h, n, n + 2);
    }
    if KindOf(m1[n]) == GCT_OBJECTARRAY {
      OtherObject(m2, m1, lo, hi, h, n, n + 3);
    }
  }

  lemma OtherAtRest(classOf: Cell -> Class, m2: seq<Cell>, m1: seq<Cell>, lo: nat, hi: nat, h: nat, n: nat)
    requires Filled(m2, m1, h) && Tiled(m1, lo, hi) && h in Headers(m1, lo, hi) && n in Headers(m1, lo, hi) && n != h
    requires HeaderAtRest(classOf, m1, lo, hi, n)
    ensures Tiled(m2, lo, hi) && HeaderAtRest(classOf, m2, lo, hi, n)
  {
    hide Tiled, Headers, SizeOf, KindOf, Filled, Fits, IsMarked, PointsWell, HasReferent, HasRealMonitor, MonitorOf,
      StrongSlots, InHeap;
    FilledRow(m2, m1, lo, hi, h);
    OtherShape(classOf, m2, m1, lo, hi, h, n);
    if KindOf(m1[n]) != GCT_FREE {
      OtherSound(classOf, m2, m1, lo, hi, h, n);
    }
  }

  lemma OtherSound(classOf: Cell -> Class, m2: seq<Cell>, m1: seq<Cell>, lo: nat, hi: nat, h: nat, n: nat)
    requires Filled(m2, m1, h) && Tiled(m1, lo, hi) && h in Headers(m1, lo, hi) && n in Headers(m1, lo, hi) && n != h
    requires Fits(classOf, m1, n) && Fits(classOf, m2, n) && Sound(classOf, m1, lo, hi, n)
    ensures Tiled(m2, lo, hi) && Sound(classOf, m2, lo, hi, n)
  {
    hide Tiled, Headers, SizeOf, KindOf, Filled, PointsWell, MonitorOf, StrongSlots;
    FilledRow(m2, m1, lo, hi, h);
    OtherShape(classOf, m2, m1, lo, hi, h, n);
    forall s | s in StrongSlots(classOf, m2, n)
      ensures n < s < Next(m2, n) && s < |m2| && PointsWell(m2, lo, hi, m2[s])
    {
      OtherObject(m2, m1, lo, hi, h, n, s);
      PointsWellFilled(m2, m1, lo, hi, h, m1[s]);
    }
    if HasRealMonitor(m1, n) && InHeap(lo, hi, MonitorOf(m1, n)) {
      PointsWellFilled(m2, m1, lo, hi, h, MonitorOf(m1, n));
      PointedHeader(m1, lo, hi, MonitorOf(m1, n));
    }
  }

  lemma PointedHeader(m: seq<Cell>, lo: nat, hi: nat, v: int)
    requires Tiled(m, lo, hi) && PointsWell(m, lo, hi, v) && InHeap(lo, hi, v)
    ensures HeaderAt(v) in Headers(m, lo, hi)
  {
  }

  lemma StrongSlotsInside(classOf: Cell -> Class, m: seq<Cell>, h: nat)
    requires Fits(classOf, m, h)
    ensures forall s | s in StrongSlots(classOf, m, h) :: h < s < Next(m, h) <= |m|
  {
    hide KindOf;
    if KindOf(m[h]) == GCT_INSTANCE {
      var offsets := InstanceOffsets(classOf(m[h + 1]));
      forall i | 0 <= i < |offsets|
        ensures offsets[i] < Extent(offsets)
      {
        ExtentBounds(offsets, i);
      }
    }
  }

  lemma NullIsWell(m: seq<Cell>, lo: nat, hi: nat)
    requires Tiled(m, lo, hi) && 1 <= lo
    ensures PointsWell(m, lo, hi, NULL)
  {
  }

  lemma NullAtRest(classOf: Cell -> Class, m: seq<Cell>, lo: nat, hi: nat, h: nat)
    requires Tiled(m, lo, hi) && 1 <= lo && NullObject(classOf, m, h)
    ensures HeaderAtRest(classOf, m, lo, hi, h)
  {
    hide Tiled, Headers, KindOf, IsMarked, PointsWell, Fits, StrongSlots, HasReferent, HasRealMonitor, IsWeakSlot;
    StrongSlotsInside(classOf, m, h);
    NullIsWell(m, lo, hi);
  }

  /** The heap after an object has been allocated and filled. */
  ghost predicate NewlyFilled(m2: seq<Cell>, m1: seq<Cell>, m: seq<Cell>, lo: nat, hi: nat, chunks: seq<Chunk>,
                              first: Cell, k: nat,
                              size: nat, kind: nat, h: nat) {
    Allocates(m1, m, lo, hi, chunks, first, k, size, kind) && k < |chunks| && h == Taken(chunks[k], size)
      && Filled(m2, m1, h)
  }

  lemma NewlyFilledFacts(m2: seq<Cell>, m1: seq<Cell>, m: seq<Cell>, lo: nat, hi: nat, chunks: seq<Chunk>, first: Cell,
                         k: nat,
                         size: nat, kind: nat, h: nat)
    requires NewlyFilled(m2, m1, m, lo, hi, chunks, first, k, size, kind, h)
    ensures Allocates(m1, m, lo, hi, chunks, first, k, size, kind) && k < |chunks| && h == Taken(chunks[k], size)
    ensures Filled(m2, m1, h)
    ensures 1 <= lo && |m2| == |m1| == |m| <= MAX_CELLS && Tiled(m, lo, hi) && Tiled(m1, lo, hi) && Tiled(m2, lo, hi)
    ensures h in Headers(m1, lo, hi) && Headers(m2, lo, hi) == Headers(m1, lo, hi)
  {
    hide Tiled, Headers, SizeOf, Allocates, Taken;
    AllocationShape(m1, m, lo, hi, chunks, first, k, size, kind);
    FilledRow(m2, m1, lo, hi, h);
  }

  lemma FilledObjectAtRest(classOf: Cell -> Class, m2: seq<Cell>, m1: seq<Cell>, m: seq<Cell>, lo: nat, hi: nat,
                           chunks: seq<Chunk>, first: Cell,
                           k: nat, size: nat, kind: nat, h: nat, n: nat)
    requires NewlyFilled(m2, m1, m, lo, hi, chunks, first, k, size, kind, h) && AtRest(classOf, m, lo, hi)
    requires NullObject(classOf, m2, h)
    requires Tiled(m2, lo, hi) && n in Headers(m2, lo, hi)
    ensures HeaderAtRest(classOf, m2, lo, hi, n)
  {
    hide Tiled, Headers, SizeOf, Allocates, Taken, Filled, AtRest, NullObject, HeaderAtRest, NewlyFilled;
    NewlyFilledFacts(m2, m1, m, lo, hi, chunks, first, k, size, kind, h);
    if n == h {
      NullAtRest(classOf, m2, lo, hi, h);
    } else {
      ObjectAfterAllocation(classOf, m1, m, lo, hi, chunks, first, k, size, kind, n);
      OtherAtRest(classOf, m2, m1, lo, hi, h, n);
    }
  }

  lemma FilledWeakSlot(classOf: Cell -> Class, m2: seq<Cell>, m1: seq<Cell>, m: seq<Cell>, lo: nat, hi: nat,
                       chunks: seq<Chunk>, first: Cell,
                       k: nat, size: nat, kind: nat, h: nat, n: nat, x: nat)
    requires NewlyFilled(m2, m1, m, lo, hi, chunks, first, k, size, kind, h) && AtRest(classOf, m, lo, hi)
    requires NullObject(classOf, m2, h)
    requires Tiled(m2, lo, hi) && n in Headers(m2, lo, hi) && IsWeakSlot(m2, n, x)
    ensures x < |m2| && WeakPointer(m2, lo, hi, m2[x])
  {
    hide Tiled, Headers, SizeOf, Allocates, Taken, Filled, AtRest, PointsWell, NewlyFilled, KindOf, HeaderAtRest, Fits,
      HasReferent, StrongSlots;
    NewlyFilledFacts(m2, m1, m, lo, hi, chunks, first, k, size, kind, h);
    if n != h {
      ObjectAfterAllocation(classOf, m1, m, lo, hi, chunks, first, k, size, kind, n);
      RestFits(classOf, m1, lo, hi, n);
      OtherShape(classOf, m2, m1, lo, hi, h, n);
      SameWeakSlot(m2, m1, n, x);
      WeakStill(classOf, m1, m, lo, hi, chunks, first, k, size, kind, n, x);
      WeakSlotInObject(classOf, m1, n, x);
      OtherObject(m2, m1, lo, hi, h, n, x);
      if m1[x] != NULL {
        PointsWellFilled(m2, m1, lo, hi, h, m1[x]);
      }
    }
  }

  lemma RestFits(classOf: Cell -> Class, m: seq<Cell>, lo: nat, hi: nat, n: nat)
    requires Tiled(m, lo, hi) && HeaderAtRest(classOf, m, lo, hi, n)
    ensures Fits(classOf, m, n)
  {
  }

  lemma SameWeakSlot(m2: seq<Cell>, m1: seq<Cell>, n: nat, x: nat)
    requires n + 1 < |m2| == |m1| && m2[n] == m1[n] && m2[n + 1] == m1[n + 1]
    ensures IsWeakSlot(m2, n, x) <==> IsWeakSlot(m1, n, x)
  {
  }

  /**
   * An object of any type can be allocated at any time: when its pointers have been set to NULL, the heap and its roots
   * are as ready for a collection as before.
   */
  lemma ReadyAfterFilling(classOf: Cell -> Class, m2: seq<Cell>, m1: seq<Cell>, m: seq<Cell>, lo: nat, hi: nat,
                          r: Roots, chunks: seq<Chunk>,
                          first: Cell, k: nat, size: nat, kind: nat, h: nat)
    requires NewlyFilled(m2, m1, m, lo, hi, chunks, first, k, size, kind, h) && Ready(classOf, m, lo, hi, r)
    requires NullObject(classOf, m2, h)
    ensures Ready(classOf, m2, lo, hi, r)
  {
    hide Allocates, Headers, Tiled, AtRest, SizeOf, Taken, PointsWell, KindOf, Roots.Distinct, LaidOut, Roots.HasValue,
      HeaderAtRest, IsWeakSlot,
      WeakPointer, NewlyFilled, Filled, NullObject;
    NewlyFilledFacts(m2, m1, m, lo, hi, chunks, first, k, size, kind, h);
    forall n | n in Headers(m2, lo, hi)
      ensures HeaderAtRest(classOf, m2, lo, hi, n)
    {
      FilledObjectAtRest(classOf, m2, m1, m, lo, hi, chunks, first, k, size, kind, h, n);
    }
    forall n, x: nat | n in Headers(m2, lo, hi) && IsWeakSlot(m2, n, x)
      ensures x < |m2| && WeakPointer(m2, lo, hi, m2[x])
    {
      FilledWeakSlot(classOf, m2, m1, m, lo, hi, chunks, first, k, size, kind, h, n, x);
    }
    AllAtRest(classOf, m2, lo, hi);
    forall v: Cell | r.HasValue(v)
      ensures PointsWell(m2, lo, hi, v)
    {
      PointsWellStill(m1, m, lo, hi, chunks, first, k, size, kind, v);
      PointsWellFilled(m2, m1, lo, hi, h, v);
    }
  }

  /** The free list is not touched by filling. */
  lemma FreeHeapFilled(m2: seq<Cell>, m1: seq<Cell>, lo: nat, hi: nat, chunks: seq<Chunk>, first: Cell, h: nat)
    requires FreeHeap(m1, lo, hi, chunks, first) && Filled(m2, m1, h) && Tiled(m1, lo, hi) && h in Headers(m1, lo, hi)
    requires KindOf(m1[h]) != GCT_FREE
    ensures FreeHeap(m2, lo, hi, chunks, first)
  {
    hide Tiled, Headers, SizeOf, KindOf, Filled, FreeHeap, Free, Apart, Starts;
    FreeHeapFacts(m1, lo, hi, chunks, first);
    FilledRow(m2, m1, lo, hi, h);
    FreeHead(m1, hi, chunks, first);
    forall j | 0 <= j < |chunks|
      ensures Listed(m2, hi, chunks, j)
    {
      FreeListed(m1, hi, chunks, first, j);
      ChunkObject(m1, lo, hi, chunks, first, j);
      var c := chunks[j].start;
      assert c != h;
      OtherObject(m2, m1, lo, hi, h, c, c);
      OtherObject(m2, m1, lo, hi, h, c, c + 1);
    }
    FreeFromListed(m2, hi, chunks, first);
    forall n | n in Starts(chunks)
      ensures n in Headers(m2, lo, hi)
    {
      FreeHeapObjects(m1, lo, hi, chunks, first, n);
    }
    forall n | n in Headers(m2, lo, hi) && n < |m2| && KindOf(m2[n]) == GCT_FREE
      ensures n in Starts(chunks)
    {
      FreeHeapObjects(m1, lo, hi, chunks, first, n);
    }
    FreeHeapFrom(m2, lo, hi, chunks, first);
  }

  /** The first `size` cells of the object are 0, but for those that hold the class and the length of an array. */
  ghost predicate Zeroed(m: seq<Cell>, h: nat, size: nat, clazz: Cell, length: Cell) {
    && h + 1 < |m| && h + size < |m| && size <= SizeOf(m[h]) && m[h + 1] == clazz
    && (2 <= size ==> m[h + 2] == 0) && (3 <= size ==> m[h + 3] == length)
    && forall x {:trigger m[x]} | h + 4 <= x <= h + size :: m[x] == 0
  }

  /** The object is large enough, and has a class or a length only where its type has one. */
  ghost predicate WellTyped(classOf: Cell -> Class, kind: nat, size: nat, clazz: Cell, length: Cell) {
    && 1 <= size && GCT_FREE < kind <= GCT_WEAKREFERENCE && kind != GCT_METHODTABLE && kind != GCT_WEAKREFERENCE
    && (if kind == GCT_INSTANCE then 2 <= size && 2 + Extent(InstanceOffsets(classOf(clazz))) <= size && length == 0
        else if kind == GCT_ARRAY then 3 <= size
        else if kind == GCT_OBJECTARRAY then 3 + length <= size
        else clazz == 0 && length == 0)
    && (kind == GCT_WEAKPOINTERLIST ==> 3 <= size) && (kind == GCT_MONITOR ==> 5 <= size)
       && (kind == GCT_THREAD ==> 12 <= size)
  }

  lemma ZeroedSlots(classOf: Cell -> Class, m: seq<Cell>, h: nat, kind: nat, size: nat, clazz: Cell, length: Cell)
    requires Zeroed(m, h, size, clazz, length) && WellTyped(classOf, kind, size, clazz, length) && KindOf(m[h]) == kind
    requires Next(m, h) <= |m|
    ensures Fits(classOf, m, h) && !HasRealMonitor(m, h)
    ensures forall s | s in StrongSlots(classOf, m, h) ::
              h + 3 <= s <= h + size && (kind != GCT_INSTANCE ==> h + 4 <= s)
  {
    hide KindOf, SizeOf;
    if kind == GCT_INSTANCE {
      var offsets := InstanceOffsets(classOf(clazz));
      forall i | 0 <= i < |offsets|
        ensures offsets[i] < Extent(offsets)
      {
        ExtentBounds(offsets, i);
      }
    }
  }

  /** A zeroed object has only NULL pointers. */
  lemma ZeroedIsNull(classOf: Cell -> Class, m: seq<Cell>, h: nat, kind: nat, size: nat, clazz: Cell, length: Cell)
    requires Zeroed(m, h, size, clazz, length) && WellTyped(classOf, kind, size, clazz, length)
    requires KindOf(m[h]) == kind && !IsMarked(m[h]) && Next(m, h) <= |m|
    ensures NullObject(classOf, m, h)
  {
    hide KindOf, SizeOf, StrongSlots, HasRealMonitor, Fits;
    ZeroedSlots(classOf, m, h, kind, size, clazz, length);
  }

  /** What an allocation with zero fill has done: on failure only a collection, otherwise there is a new object at h. */
  ghost predicate Created(m2: seq<Cell>, classOf: Cell -> Class, lo: nat, hi: nat, t: Trace, m1: seq<Cell>,
                          result: Cell, size: nat, kind: nat,
                          clazz: Cell, length: Cell) {
    if result == NULL then m2 == t.m
    else
      && t.k < |t.chunks| && 0 <= Taken(t.chunks[t.k], RealSize(size))
         && result == CELL * (Taken(t.chunks[t.k], RealSize(size)) + HEADERSIZE)
      && NewlyFilled(m2, m1, t.m, lo, hi, t.chunks, t.first, t.k, RealSize(size), kind,
                     Taken(t.chunks[t.k], RealSize(size)))
      && Zeroed(m2, Taken(t.chunks[t.k], RealSize(size)), RealSize(size) - HEADERSIZE, clazz, length)
  }

  /** Whatever has been created, the next collection can start. */
  lemma ReadyAfterCreation(m2: seq<Cell>, classOf: Cell -> Class, m0: seq<Cell>, lo: nat, hi: nat, r0: Roots, t: Trace,
                           m1: seq<Cell>,
                           result: Cell, size: nat, kind: nat, clazz: Cell, length: Cell)
    requires Prepared(t, classOf, m0, lo, hi, r0)
    requires Created(m2, classOf, lo, hi, t, m1, result, size, kind, clazz, length)
    requires WellTyped(classOf, kind, RealSize(size) - HEADERSIZE, clazz, length)
    ensures Ready(classOf, m2, lo, hi, t.r)
  {
    hide Ready, FreeHeap, Collection, Zeroed, WellTyped, Filled, KindOf, SizeOf, IsMarked, NullObject, Taken, Allocates;
    if result != NULL {
      var h := Taken(t.chunks[t.k], RealSize(size));
      HeaderOfNew(m1, t.m, lo, hi, t.chunks, t.first, t.k, RealSize(size), kind);
      FilledHeader(m2, m1, h);
      ZeroedIsNull(classOf, m2, h, kind, RealSize(size) - HEADERSIZE, clazz, length);
      ReadyAfterFilling(classOf, m2, m1, t.m, lo, hi, t.r, t.chunks, t.first, t.k, RealSize(size), kind, h);
    }
  }

  lemma FilledHeader(m2: seq<Cell>, m1: seq<Cell>, h: nat)
    requires Filled(m2, m1, h)
    ensures |m2| == |m1| && h < |m1| && m2[h] == m1[h]
  {
  }

  lemma FilledHolds(m2: seq<Cell>, m1: seq<Cell>, lo: nat, hi: nat, address: Cell, size: nat, kind: nat)
    requires HoldsRequest(m1, lo, hi, address, size, kind) && Filled(m2, m1, address / CELL - HEADERSIZE)
    ensures HoldsRequest(m2, lo, hi, address, size, kind)
  {
    FilledHeader(m2, m1, address / CELL - HEADERSIZE);
  }

  /** memset over the object, and the cells for class and length. */
  method ZeroFill(mem: array<Cell>, h: nat, size: nat, clazz: Cell, length: Cell)
    requires h + 1 < mem.Length && 1 <= size <= SizeOf(mem[h]) && Next(mem[..], h) <= mem.Length
    requires length != 0 ==> 3 <= size
    modifies mem
    ensures Filled(mem[..], old(mem[..]), h) && Zeroed(mem[..], h, size, clazz, length)
  {
    hide SizeOf;
    forall x | h < x <= h + size {
      mem[x] := 0;
    }
    mem[h + 1] := clazz;
    if 3 <= size {
      mem[h + 3] := length;
    }
  }

  /** mallocHeapObject and zero fill, as in callocObject; class and length are stored in the places for them. */
  method CreateObject(heap: Heap, classOf: Cell -> Class, roots: RootSet, size: nat, kind: nat, clazz: Cell,
                      length: Cell)
    returns (result: Cell, ghost t: Trace, ghost m1: seq<Cell>)
    requires heap.Valid() && Ready(classOf, heap.mem[..], heap.currentHeap, heap.currentHeapEnd, roots.Now())
    requires roots.variables != heap.mem && WellTyped(classOf, kind, RealSize(size) - HEADERSIZE, clazz, length)
    modifies heap, heap.mem, roots.variables, roots.temporaryRoots
    ensures heap.Valid() && Ready(classOf, heap.mem[..], heap.currentHeap, heap.currentHeapEnd, roots.Now())
    ensures Prepared(t, classOf, old(heap.mem[..]), heap.currentHeap, heap.currentHeapEnd, old(roots.Now()))
    ensures roots.Now() == t.r
    ensures Created(heap.mem[..], classOf, heap.currentHeap, heap.currentHeapEnd, t, m1, result, size, kind, clazz,
                    length)
    ensures result != NULL ==>
              HoldsRequest(heap.mem[..], heap.currentHeap, heap.currentHeapEnd, result, size, kind)
    ensures result == NULL <==>
              UnreachedCells(classOf, old(heap.mem[..]), heap.currentHeap, heap.currentHeapEnd,
                             old(roots.Now())) < RealSize(size)
  {
    hide Ready, FreeHeap, UnreachedCells, Prepared, FirstFit, Allocates, Zeroed, Filled, WellTyped, KindOf, SizeOf,
      IsMarked, Taken, Rest;
    ghost var m0, r0 := heap.mem[..], roots.Now();
    TypedKind(classOf, kind, RealSize(size) - HEADERSIZE, clazz, length);
    result, t := MallocHeapObject(heap, classOf, roots, size, kind);
    m1 := heap.mem[..];
    if result != NULL {
      FirstFitIndex(t.chunks, t.k, RealSize(size));
      HeaderOfNew(m1, t.m, heap.currentHeap, heap.currentHeapEnd, t.chunks, t.first, t.k, RealSize(size), kind);
      var h := result / CELL - HEADERSIZE;
      ZeroFill(heap.mem, h, RealSize(size) - HEADERSIZE, clazz, length);
      FilledHolds(heap.mem[..], m1, heap.currentHeap, heap.currentHeapEnd, result, size, kind);
      AllocationShape(m1, t.m, heap.currentHeap, heap.currentHeapEnd, t.chunks, t.first, t.k, RealSize(size), kind);
      FreeHeapFilled(heap.mem[..], m1, heap.currentHeap, heap.currentHeapEnd, heap.chunks, heap.firstFreeChunk, h);
    }
    ReadyAfterCreation(heap.mem[..], classOf, m0, heap.currentHeap, heap.currentHeapEnd, r0, t, m1, result, size, kind,
                       clazz, length);
  }

  lemma FirstFitIndex(chunks: seq<Chunk>, k: nat, size: nat)
    requires FirstFit(chunks, k, size)
    ensures k < |chunks|
  {
  }

  lemma TypedKind(classOf: Cell -> Class, kind: nat, size: nat, clazz: Cell, length: Cell)
    requires WellTyped(classOf, kind, size, clazz, length)
    ensures GCT_FREE < kind <= GCT_WEAKREFERENCE && 1 <= size && (length != 0 ==> 3 <= size)
  {
  }

  /** instantiate: an instance with all fields zero. */
  method Instantiate(heap: Heap, classOf: Cell -> Class, roots: RootSet, thisClass: Cell, instSize: nat)
    returns (result: Cell, ghost t: Trace, ghost m1: seq<Cell>)
    requires heap.Valid() && Ready(classOf, heap.mem[..], heap.currentHeap, heap.currentHeapEnd, roots.Now())
    requires roots.variables != heap.mem
    requires Extent(InstanceOffsets(classOf(thisClass))) <= instSize
    modifies heap, heap.mem, roots.variables, roots.temporaryRoots
    ensures heap.Valid() && Ready(classOf, heap.mem[..], heap.currentHeap, heap.currentHeapEnd, roots.Now())
    ensures Prepared(t, classOf, old(heap.mem[..]), heap.currentHeap, heap.currentHeapEnd, old(roots.Now()))
    ensures roots.Now() == t.r
    ensures Created(heap.mem[..], classOf, heap.currentHeap, heap.currentHeapEnd, t, m1, result, 2 + instSize,
                    GCT_INSTANCE, thisClass, 0)
    ensures result != NULL ==>
              HoldsRequest(heap.mem[..], heap.currentHeap, heap.currentHeapEnd, result, 2 + instSize, GCT_INSTANCE)
    ensures result == NULL <==>
              UnreachedCells(classOf, old(heap.mem[..]), heap.currentHeap, heap.currentHeapEnd,
                             old(roots.Now())) < RealSize(2 + instSize)
  {
    hide Ready, FreeHeap, UnreachedCells, Prepared, Created;
    result, t, m1 := CreateObject(heap, classOf, roots, 2 + instSize, GCT_INSTANCE, thisClass, 0);
  }

  /** How an array request ends: with an array, or with one of the two exceptions. */
  datatype ArrayResult = NewArray(address: Cell) | NegativeSize | OutOfMemory

  /** The cells for `length` items of slotSize bytes. */
  function DataSize(length: nat, slotSize: nat): nat {
    (length * slotSize + (CELL - 1)) / CELL
  }

  /** The items fit, and less than a cell is wasted. */
  lemma DataFits(length: nat, slotSize: nat)
    ensures length * slotSize <= CELL * DataSize(length, slotSize) < length * slotSize + CELL
    ensures DataSize(length, CELL) == length
  {
  }

  /**
   * instantiateArray: an array with all items zero; items that are pointers take a cell each. The request is for n
   * cells: three for the class, the monitor and the length, and as few as possible for the items.
   */
  method InstantiateArray(heap: Heap, classOf: Cell -> Class, roots: RootSet, arrayClass: Cell, length: int,
                          slotSize: nat, gctype: nat)
    returns (result: ArrayResult, ghost n: nat, ghost t: Trace, ghost m1: seq<Cell>)
    requires heap.Valid() && Ready(classOf, heap.mem[..], heap.currentHeap, heap.currentHeapEnd, roots.Now())
    requires roots.variables != heap.mem
    requires gctype == GCT_ARRAY || (gctype == GCT_OBJECTARRAY && slotSize == CELL)
    modifies heap, heap.mem, roots.variables, roots.temporaryRoots
    ensures heap.Valid() && Ready(classOf, heap.mem[..], heap.currentHeap, heap.currentHeapEnd, roots.Now())
    ensures result.NegativeSize? <==> length < 0
    ensures length < 0 || length > 0x100_0000 ==> heap.mem[..] == old(heap.mem[..]) && roots.Now() == old(roots.Now())
    ensures 0 <= length ==> length * slotSize <= CELL * (n - 3) < length * slotSize + CELL
    ensures result.OutOfMemory? <==>
              length > 0x100_0000 || (0 <= length &&
                UnreachedCells(classOf, old(heap.mem[..]), heap.currentHeap, heap.currentHeapEnd,
                               old(roots.Now())) < n + HEADERSIZE)
    ensures result.NewArray? ==>
              && 0 <= length <= 0x100_0000
              && HoldsArray(heap.mem[..], heap.currentHeap, heap.currentHeapEnd, result.address, length, slotSize,
                            gctype)
              && Created(heap.mem[..], classOf, heap.currentHeap, heap.currentHeapEnd, t, m1, result.address, n,
                         gctype, arrayClass, length)
  {
    hide Ready, FreeHeap, UnreachedCells, Prepared, Created, DataSize, HoldsRequest, HoldsArray;
    m1 := heap.mem[..];
    ghost var none: Outcome :=
      Outcome(Start(classOf, m1, heap.currentHeap, heap.currentHeapEnd, {}), false, Relocation.Table(0, 0, [], 0, 0));
    t := Trace(false, none, m1, NULL, m1, roots.Now(), [], 0);
    n := 0;
    if length < 0 {
      return NegativeSize, n, t, m1;
    }
    DataFits(length, slotSize);
    n := 3 + DataSize(length, slotSize);
    if length > 0x100_0000 {
      return OutOfMemory, n, t, m1;
    }
    var address;
    address, t, m1 := CreateObject(heap, classOf, roots, 3 + DataSize(length, slotSize), gctype, arrayClass, length);
    if address == NULL {
      result := OutOfMemory;
    } else {
      result := NewArray(address);
      ArrayHeld(heap.mem[..], heap.currentHeap, heap.currentHeapEnd, address, n, length, slotSize, gctype);
    }
  }

  /** An array whose items lie inside the object: behind its first three cells, and before its end. */
  ghost predicate HoldsArray(m: seq<Cell>, lo: nat, hi: nat, address: Cell, length: nat, slotSize: nat, gctype: nat) {
    && address != NULL && address % CELL == 0 && lo + HEADERSIZE <= address / CELL < |m|
    && var h := address / CELL - HEADERSIZE;
       && Next(m, h) <= hi <= |m| && KindOf(m[h]) == gctype && !IsMarked(m[h])
       && 3 * CELL + length * slotSize <= CELL * SizeOf(m[h]) < 3 * CELL + length * slotSize + 2 * CELL
  }

  lemma ArrayHeld(m: seq<Cell>, lo: nat, hi: nat, address: Cell, n: nat, length: nat, slotSize: nat, gctype: nat)
    requires HoldsRequest(m, lo, hi, address, n, gctype) && address != NULL
    requires length * slotSize <= CELL * (n - 3) < length * slotSize + CELL
    ensures HoldsArray(m, lo, hi, address, length, slotSize, gctype)
  {
    hide KindOf, SizeOf, IsMarked;
    var bytes := length * slotSize;
    assert 3 <= n;
  }
}
