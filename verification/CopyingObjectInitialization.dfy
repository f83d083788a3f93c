/**
 * callocObject (garbage.c) over the copying collector: the space in use grows by an object without pointers, and the
 * next collection can start.
 */
module CopyingObjectInitialization {
  import opened Cells
  import opened FreeList
  import opened Objects
  import opened HeapShape
  import opened HeapUpdate
  import opened Marking
  import opened Roots
  import opened TwoSpaces
  import opened CheneyCopying
  import opened CheneyScanning
  import opened CheneyWeak
  import opened CheneyReachability
  import opened CheneyAfter
  import opened CheneyNext
  import CopyingHeap
  import HeapObjects
  import ObjectInitialization
  import Collecting

  /** The spaces sp2 are sp with an object of `size` cells behind those in use. */
  ghost predicate Grown(sp2: Spaces, sp: Spaces, size: nat) {
    && sp2 == sp.(m0 := sp2.m0, free := sp2.free) && sp2.free == sp.free + size + HEADERSIZE <= sp.hi <= |sp.m0|
    && |sp2.m0| == |sp.m0| && 1 <= size && SizeOf(sp2.m0[sp.free]) == size
    && forall x {:trigger sp2.m0[x]} | 0 <= x < |sp.m0| && !(sp.free <= x < sp2.free) :: sp2.m0[x] == sp.m0[x]
  }

  /** The objects are those that were there, and the new one. */
  lemma GrownRow(sp2: Spaces, sp: Spaces, size: nat)
    requires Grown(sp2, sp, size) && Tiled(sp.m0, sp.lo, sp.free)
    ensures Tiled(sp2.m0, sp.lo, sp2.free)
    ensures Headers(sp2.m0, sp.lo, sp2.free) == Headers(sp.m0, sp.lo, sp.free) + {sp.free}
  {
    hide Tiled, Headers, SizeOf;
    forall h | h in Headers(sp.m0, sp.lo, sp.free)
      ensures h < |sp2.m0| && SizeOf(sp2.m0[h]) == SizeOf(sp.m0[h])
    {
      HeaderBounds(sp.m0, sp.lo, sp.free, h);
    }
    SameTiling(sp2.m0, sp.m0, sp.lo, sp.free);
    LastObject(sp2.m0, sp.free, sp2.free);
    Collecting.HeadersJoin(sp2.m0, sp.lo, sp.free, sp2.free);
  }

  lemma LastObject(m: seq<Cell>, h: nat, end: nat)
    requires h < |m| && h + 2 <= Next(m, h) == end <= |m|
    ensures Tiled(m, h, end) && Headers(m, h, end) == {h}
  {
    assert Tiled(m, end, end) && Headers(m, end, end) == {};
  }

  lemma OldCell(sp2: Spaces, sp: Spaces, size: nat, h: nat, x: nat)
    requires Grown(sp2, sp, size) && Tiled(sp.m0, sp.lo, sp.free) && h in Headers(sp.m0, sp.lo, sp.free)
    requires h < |sp.m0| && h <= x < Next(sp.m0, h)
    ensures x < |sp.m0| == |sp2.m0| && sp2.m0[x] == sp.m0[x]
  {
    hide Tiled, Headers, SizeOf;
    HeaderBounds(sp.m0, sp.lo, sp.free, h);
  }

  /** The cells that say where an object has its pointers. */
  lemma OldShape(sp2: Spaces, sp: Spaces, size: nat, h: nat)
    requires Grown(sp2, sp, size) && Tiled(sp.m0, sp.lo, sp.free) && h in Headers(sp.m0, sp.lo, sp.free)
    requires Fits(sp.classOf, sp.m0, h)
    ensures h + 1 < |sp2.m0| == |sp.m0| && sp2.m0[h] == sp.m0[h] && Next(sp2.m0, h) == Next(sp.m0, h)
    ensures Fits(sp.classOf, sp2.m0, h) && ScanSlots(sp.classOf, sp2.m0, h) == ScanSlots(sp.classOf, sp.m0, h)
    ensures WeakCells(sp2.m0, h) == WeakCells(sp.m0, h)
  {
    hide Tiled, Headers, SizeOf, KindOf, Grown;
    OldCell(sp2, sp, size, h, h);
    OldCell(sp2, sp, size, h, h + 1);
    if HasMonitorCell(KindOf(sp.m0[h])) {
      OldCell(sp2, sp, size, h, h + 2);
    }
    if KindOf(sp.m0[h]) == GCT_OBJECTARRAY {
      OldCell(sp2, sp, size, h, h + 3);
    }
  }

  /** More objects can be pointed to. */
  lemma PointsStill(sp2: Spaces, sp: Spaces, size: nat, v: int)
    requires Grown(sp2, sp, size) && Tiled(sp.m0, sp.lo, sp.free) && PointsToObject(sp, v)
    ensures Tiled(sp2.m0, sp2.lo, sp2.free) && PointsToObject(sp2, v)
  {
    hide Tiled, Headers, SizeOf;
    GrownRow(sp2, sp, size);
  }

  lemma OldIsCopyable(sp2: Spaces, sp: Spaces, size: nat, h: nat)
    requires Grown(sp2, sp, size) && Tiled(sp.m0, sp.lo, sp.free) && h in Headers(sp.m0, sp.lo, sp.free)
    requires Copyable(sp, h)
    ensures Tiled(sp2.m0, sp2.lo, sp2.free) && Copyable(sp2, h)
    ensures forall s | s in ScanSlots(sp.classOf, sp.m0, h) :: s < |sp.m0| && sp2.m0[s] == sp.m0[s]
  {
    hide Tiled, Headers, SizeOf, KindOf, Grown, Fits, ScanSlots, PointsToObject, IsMarked, NoDuplicates;
    GrownRow(sp2, sp, size);
    GrownBounds(sp2, sp, size);
    OldShape(sp2, sp, size, h);
    forall s | s in ScanSlots(sp.classOf, sp.m0, h)
      ensures s < |sp2.m0| == |sp.m0| && sp2.m0[s] == sp.m0[s]
      ensures PointsToObject(sp2, PointerAt(sp2, h, s))
    {
      OldCell(sp2, sp, size, h, s);
      PointsStill(sp2, sp, size, PointerAt(sp, h, s));
    }
  }

  lemma ReadyFacts(sp: Spaces, r: Roots, from: nat, to: nat)
    requires Ready(sp, r, from, to)
    ensures Good(sp) && Tiled(sp.m0, sp.lo, sp.free) && GoodWeakPointers(sp) && Settled(sp, r, from, to)
    ensures WellRooted(sp, r) && 1 <= sp.lo && from <= sp.lo && sp.hi <= to && from <= sp.target
    ensures forall h | h in Headers(sp.m0, sp.lo, sp.free) :: Copyable(sp, h) && Fits(sp.classOf, sp.m0, h)
  {
    hide Copyable, SettledObject, GoodWeakCell, WellRooted, Tiled, Headers;
    forall h | h in Headers(sp.m0, sp.lo, sp.free)
      ensures Copyable(sp, h) && Fits(sp.classOf, sp.m0, h)
    {
      ObjectFits(sp, h);
    }
  }

  lemma OldWeakCell(sp2: Spaces, sp: Spaces, r: Roots, from: nat, to: nat, size: nat, h: nat, s: nat)
    requires Grown(sp2, sp, size) && Ready(sp, r, from, to) && sp2.target + (sp2.free - sp2.lo) <= to
    requires Tiled(sp.m0, sp.lo, sp.free) && h in Headers(sp.m0, sp.lo, sp.free) && s in WeakCells(sp.m0, h)
    ensures Tiled(sp2.m0, sp2.lo, sp2.free) && GoodWeakCell(sp2, h, s) && SettledWeak(sp2, from, to, sp2.m0[s])
  {
    hide Tiled, Headers, SizeOf, KindOf, Grown, WeakCells, PointsToObject, Good, WellRooted, SettledObject, Fits;
    ReadyFacts(sp, r, from, to);
    GoodWeakAt(sp, h, s);
    WeakIsSettled(sp, r, from, to, h, s);
    GrownRow(sp2, sp, size);
    OldCell(sp2, sp, size, h, h);
    OldCell(sp2, sp, size, h, s);
    PointsStill(sp2, sp, size, sp.m0[s]);
    GrownBounds(sp2, sp, size);
  }

  lemma GrownBounds(sp2: Spaces, sp: Spaces, size: nat)
    requires Grown(sp2, sp, size)
    ensures sp2 == sp.(m0 := sp2.m0, free := sp2.free) && |sp2.m0| == |sp.m0|
  {
  }

  /** An object whose pointers are all NULL. */
  ghost predicate NullCopyable(classOf: Cell -> Class, m: seq<Cell>, h: nat) {
    && Fits(classOf, m, h) && KindOf(m[h]) != GCT_FREE && !IsMarked(m[h]) && NoDuplicates(ScanSlots(classOf, m, h))
    && WeakCells(m, h) == []
    && forall s | s in ScanSlots(classOf, m, h) :: h < s < Next(m, h) && s < |m| && m[s] == NULL
  }

  lemma NewIsCopyable(sp2: Spaces, sp: Spaces, size: nat, from: nat, to: nat)
    requires Grown(sp2, sp, size) && Tiled(sp.m0, sp.lo, sp.free) && NullCopyable(sp.classOf, sp2.m0, sp.free)
    requires 1 <= from && 1 <= sp.lo
    ensures Tiled(sp2.m0, sp2.lo, sp2.free) && Copyable(sp2, sp.free) && SettledObject(sp2, from, to, sp.free)
  {
    hide Tiled, Headers, SizeOf, KindOf, Fits, ScanSlots, WeakCells, IsMarked, NoDuplicates;
    GrownRow(sp2, sp, size);
  }

  lemma GrownIsGood(sp2: Spaces, sp: Spaces, r: Roots, from: nat, to: nat, size: nat)
    requires Grown(sp2, sp, size) && Ready(sp, r, from, to) && Apart(sp2) && 1 <= from
    requires NullCopyable(sp.classOf, sp2.m0, sp.free)
    ensures Good(sp2) && Tiled(sp.m0, sp.lo, sp.free)
    ensures forall h | h in Headers(sp.m0, sp.lo, sp.free) && SettledObject(sp, from, to, h) && h < |sp2.m0| ::
              forall s | s in ScanSlots(sp.classOf, sp2.m0, h) && s < |sp2.m0| ::
                Local(sp2, from, to, PointerAt(sp2, h, s))
  {
    hide Tiled, Headers, SizeOf, KindOf, Fits, Grown, ScanSlots, WeakCells, IsMarked, NoDuplicates, Apart, WellRooted,
      NullCopyable, Copyable, SettledWeak, GoodWeak;
    ReadyFacts(sp, r, from, to);
    GrownRow(sp2, sp, size);
    GrownBounds(sp2, sp, size);
    NewIsCopyable(sp2, sp, size, from, to);
    forall h | h in Headers(sp.m0, sp.lo, sp.free)
      ensures Copyable(sp2, h)
      ensures SettledObject(sp, from, to, h) && h < |sp2.m0| ==>
                forall s | s in ScanSlots(sp.classOf, sp2.m0, h) && s < |sp2.m0| ::
                  Local(sp2, from, to, PointerAt(sp2, h, s))
    {
      OldIsCopyable(sp2, sp, size, h);
      OldShape(sp2, sp, size, h);
    }
  }

  /** With a new object that has no pointers, the next collection can start. */
  lemma ReadyAfterGrowth(sp2: Spaces, sp: Spaces, r: Roots, from: nat, to: nat, size: nat)
    requires Grown(sp2, sp, size) && Ready(sp, r, from, to) && Apart(sp2) && 1 <= from
    requires NullCopyable(sp.classOf, sp2.m0, sp.free) && sp2.target + (sp2.free - sp2.lo) <= to
    ensures Ready(sp2, r, from, to)
  {
    hide Tiled, Headers, SizeOf, KindOf, Fits, Grown, ScanSlots, WeakCells, IsMarked, NoDuplicates, Apart, Copyable,
      NullCopyable, Good, GoodWeak, SettledWeak, IsRootPointer, Roots.Distinct, GoodWeakCell, PointsToObject, PointerAt;
    ReadyFacts(sp, r, from, to);
    GrownRow(sp2, sp, size);
    GrownBounds(sp2, sp, size);
    GrownIsGood(sp2, sp, r, from, to, size);
    NewIsCopyable(sp2, sp, size, from, to);
    forall h | h in Headers(sp2.m0, sp2.lo, sp2.free)
      ensures SettledObject(sp2, from, to, h)
      ensures forall s | s in WeakCells(sp2.m0, h) :: GoodWeakCell(sp2, h, s)
    {
      ObjectAfterGrowth(sp2, sp, r, from, to, size, h);
    }
    forall v: Cell | IsRootPointer(r, v)
      ensures PointsToObject(sp2, v) && Local(sp2, from, to, v)
    {
      PointsStill(sp2, sp, size, v);
    }
  }

  lemma ObjectAfterGrowth(sp2: Spaces, sp: Spaces, r: Roots, from: nat, to: nat, size: nat, h: nat)
    requires Grown(sp2, sp, size) && Ready(sp, r, from, to) && Apart(sp2) && 1 <= from
    requires NullCopyable(sp.classOf, sp2.m0, sp.free) && sp2.target + (sp2.free - sp2.lo) <= to
    requires Tiled(sp2.m0, sp2.lo, sp2.free) && h in Headers(sp2.m0, sp2.lo, sp2.free)
    ensures SettledObject(sp2, from, to, h)
    ensures forall s | s in WeakCells(sp2.m0, h) :: GoodWeakCell(sp2, h, s)
  {
    hide Tiled, Headers, SizeOf, KindOf, Fits, Grown, ScanSlots, WeakCells, IsMarked, NoDuplicates, Apart, Good,
      GoodWeak, SettledWeak, IsRootPointer, Roots.Distinct, GoodWeakCell, PointsToObject, PointerAt, WellRooted;
    ReadyFacts(sp, r, from, to);
    GrownRow(sp2, sp, size);
    GrownBounds(sp2, sp, size);
    if h == sp.free {
      NewIsCopyable(sp2, sp, size, from, to);
    } else {
      GrownIsGood(sp2, sp, r, from, to, size);
      OldShape(sp2, sp, size, h);
      assert SettledObject(sp, from, to, h);
      forall s | s in WeakCells(sp2.m0, h)
        ensures GoodWeakCell(sp2, h, s) && (s < |sp2.m0| ==> SettledWeak(sp2, from, to, sp2.m0[s]))
      {
        OldWeakCell(sp2, sp, r, from, to, size, h, s);
      }
    }
  }

  lemma ObjectFits(sp: Spaces, h: nat)
    requires Good(sp) && Tiled(sp.m0, sp.lo, sp.free) && h in Headers(sp.m0, sp.lo, sp.free)
    ensures Fits(sp.classOf, sp.m0, h)
  {
    assert Copyable(sp, h);
  }

  /** A zeroed object has only NULL pointers. */
  lemma ZeroedIsNull(classOf: Cell -> Class, m: seq<Cell>, h: nat, kind: nat, size: nat, clazz: Cell, length: Cell)
    requires ObjectInitialization.Zeroed(m, h, size, clazz, length) && KindOf(m[h]) == kind && SizeOf(m[h]) == size
    requires ObjectInitialization.WellTyped(classOf, kind, size, clazz, length) && !IsMarked(m[h])
    requires LaidOut(classOf) && Next(m, h) <= |m|
    ensures NullCopyable(classOf, m, h)
  {
    hide KindOf, SizeOf, IsMarked, LaidOut, NoDuplicates;
    ObjectInitialization.ZeroedSlots(classOf, m, h, kind, size, clazz, length);
    FieldsDistinct(classOf, m[h + 1]);
    FitsUpdatable(classOf, m, h);
    ScanSlotsAreZero(classOf, m, h, kind, size, clazz, length);
  }

  lemma FieldsDistinct(classOf: Cell -> Class, c: Cell)
    requires LaidOut(classOf)
    ensures NoDuplicates(InstanceOffsets(classOf(c)))
  {
  }

  lemma ScanSlotsAreZero(classOf: Cell -> Class, m: seq<Cell>, h: nat, kind: nat, size: nat, clazz: Cell,
                         length: Cell)
    requires ObjectInitialization.Zeroed(m, h, size, clazz, length) && KindOf(m[h]) == kind && SizeOf(m[h]) == size
    requires ObjectInitialization.WellTyped(classOf, kind, size, clazz, length) && Fits(classOf, m, h)
    requires Updatable(classOf, m, h)
    ensures WeakCells(m, h) == [] && NoDuplicates(ScanSlots(classOf, m, h))
    ensures forall s | s in ScanSlots(classOf, m, h) :: h < s < Next(m, h) && s < |m| && m[s] == NULL
  {
    hide KindOf, SizeOf, NoDuplicates;
    if kind == GCT_INSTANCE {
      FieldsAreZero(classOf, m, h, size, clazz);
    } else {
      OtherSlotsAreZero(classOf, m, h, kind, size, clazz, length);
    }
  }

  lemma FieldsAreZero(classOf: Cell -> Class, m: seq<Cell>, h: nat, size: nat, clazz: Cell)
    requires ObjectInitialization.Zeroed(m, h, size, clazz, 0) && KindOf(m[h]) == GCT_INSTANCE && SizeOf(m[h]) == size
    requires 2 + Extent(InstanceOffsets(classOf(clazz))) <= size
    ensures ScanSlots(classOf, m, h) == PointerSlots(classOf, m, h)
    ensures forall s | s in ScanSlots(classOf, m, h) :: h < s < Next(m, h) && s < |m| && m[s] == NULL
  {
    hide KindOf, SizeOf, Extent, InstanceOffsets, SlotsAt;
    var offsets := InstanceOffsets(classOf(clazz));
    assert MonitorSlot(m, h) == [];
    var slots := SlotsAt(h + 3, offsets);
    assert PointerSlots(classOf, m, h) == slots && ScanSlots(classOf, m, h) == slots;
    forall s | s in slots
      ensures h + 3 <= s <= h + size
    {
      FieldIsInside(h, offsets, s);
    }
  }

  lemma FieldIsInside(h: nat, offsets: seq<nat>, s: nat)
    requires s in SlotsAt(h + 3, offsets)
    ensures h + 3 <= s < h + 3 + Extent(offsets)
  {
    hide Extent;
    var i :| 0 <= i < |offsets| && SlotsAt(h + 3, offsets)[i] == s;
    ExtentBounds(offsets, i);
  }

  lemma OtherSlotsAreZero(classOf: Cell -> Class, m: seq<Cell>, h: nat, kind: nat, size: nat, clazz: Cell,
                          length: Cell)
    requires ObjectInitialization.Zeroed(m, h, size, clazz, length) && KindOf(m[h]) == kind && SizeOf(m[h]) == size
    requires ObjectInitialization.WellTyped(classOf, kind, size, clazz, length) && kind != GCT_INSTANCE
    ensures WeakCells(m, h) == [] && ScanSlots(classOf, m, h) in {[], PointerSlots(classOf, m, h)}
    ensures forall s | s in ScanSlots(classOf, m, h) :: h < s < Next(m, h) && s < |m| && m[s] == NULL
  {
    hide KindOf, SizeOf, InstanceOffsets, Extent;
  }

  /** What has been done: the new object lies behind those in use, and is zero but for its class and its length. */
  ghost predicate Created(sp2: Spaces, sp: Spaces, result: nat, size: nat, kind: nat, clazz: Cell, length: Cell) {
    && Grown(sp2, sp, size) && result == sp.free + HEADERSIZE && KindOf(sp2.m0[sp.free]) == kind
    && !IsMarked(sp2.m0[sp.free]) && ObjectInitialization.Zeroed(sp2.m0, sp.free, size, clazz, length)
  }

  /** Whatever has been created, the next collection can start. */
  lemma ReadyAfterCreation(sp2: Spaces, sp: Spaces, r: Roots, from: nat, to: nat, result: nat, size: nat, kind: nat,
                           clazz: Cell, length: Cell)
    requires Created(sp2, sp, result, size, kind, clazz, length) && Ready(sp, r, from, to) && Apart(sp2) && 1 <= from
    requires ObjectInitialization.WellTyped(sp.classOf, kind, size, clazz, length) && LaidOut(sp.classOf)
    requires sp2.target + (sp2.free - sp2.lo) <= to
    ensures Ready(sp2, r, from, to)
  {
    hide KindOf, SizeOf, IsMarked, LaidOut, Apart, Ready, NullCopyable, ObjectInitialization.WellTyped,
      ObjectInitialization.Zeroed;
    ZeroedIsNull(sp.classOf, sp2.m0, sp.free, kind, size, clazz, length);
    ReadyAfterGrowth(sp2, sp, r, from, to, size);
  }

  /**
   * mallocHeapObject and zero fill, as in callocObject; class and length are stored in the places for them. Without
   * stray weak pointers the heap is ready again, so that any sequence of allocations and collections can go on.
   */
  method CreateObject(heap: CopyingHeap.Heap, classOf: Cell -> Class, roots: RootSet, size: nat, kind: nat,
                      clazz: Cell, length: Cell)
    returns (result: nat, ghost collected: bool, ghost sp: Spaces, ghost p: Progress)
    requires heap.Valid() && Ready(heap.SpacesNow(classOf), roots.Now(), heap.allHeapStart, heap.permanentSpace)
    requires heap.mem != roots.variables && LaidOut(classOf)
    requires ObjectInitialization.WellTyped(classOf, kind, size, clazz, length)
    modifies heap, heap.mem, roots.variables, roots.temporaryRoots
    ensures heap.Valid() && collected == (old(heap.currentHeapEnd - heap.currentHeapFreePtr) < size + HEADERSIZE)
    ensures result == 0
            <==> collected && heap.nHeapSize
                            < CopyingHeap.CellsKept(old(heap.SpacesNow(classOf)), old(roots.Now())) + size + HEADERSIZE
    ensures !collected ==> sp == old(heap.SpacesNow(classOf)) && roots.Now() == old(roots.Now())
    ensures collected ==>
              Collection(sp, roots.Now(), sp.m0, old(heap.SpacesNow(classOf)), p, old(roots.Now()), heap.allHeapStart,
                         heap.permanentSpace)
    ensures if result == 0 then heap.SpacesNow(classOf) == sp
            else Created(heap.SpacesNow(classOf), sp, result, size, kind, clazz, length)
    ensures !collected || StraysAreFine(old(heap.SpacesNow(classOf)), p, heap.allHeapStart, heap.permanentSpace) ==>
              Ready(heap.SpacesNow(classOf), roots.Now(), heap.allHeapStart, heap.permanentSpace)
  {
    hide Ready, Collection, CopyingHeap.CellsKept, Apart, StraysAreFine, Created, SizeOf,
      ObjectInitialization.Zeroed, ObjectInitialization.Filled, ObjectInitialization.WellTyped, LaidOut, HeaderOf;
    ObjectInitialization.TypedKind(classOf, kind, size, clazz, length);
    result, collected, sp, p := heap.MallocHeapObject(size, kind, classOf, roots);
    if result != 0 {
      ghost var m1 := heap.mem[..];
      heap.TargetIsApart(classOf);
      HeapObjects.HeaderOfFacts(size, kind);
      var h := result - HEADERSIZE;
      assert m1[h] == HeaderOf(size, kind) && Next(m1, h) == heap.currentHeapFreePtr;
      ObjectInitialization.ZeroFill(heap.mem, h, size, clazz, length);
      ghost var sp2 := heap.SpacesNow(classOf);
      heap.TargetIsApart(classOf);
      CreatedFrom(sp2, sp, m1, size, kind, clazz, length);
      if Ready(sp, roots.Now(), heap.allHeapStart, heap.permanentSpace) {
        ReadyAfterCreation(sp2, sp, roots.Now(), heap.allHeapStart, heap.permanentSpace, result, size, kind, clazz,
                           length);
      }
    }
  }

  lemma CreatedFrom(sp2: Spaces, sp: Spaces, m1: seq<Cell>, size: nat, kind: nat, clazz: Cell, length: Cell)
    requires sp.free < |sp.m0| && 1 <= size < MAX_CELLS && kind < 64 && m1 == sp.m0[sp.free := HeaderOf(size, kind)]
    requires sp2 == sp.(m0 := sp2.m0, free := sp.free + size + HEADERSIZE) && sp2.free <= sp.hi <= |sp.m0|
    requires ObjectInitialization.Filled(sp2.m0, m1, sp.free)
    requires ObjectInitialization.Zeroed(sp2.m0, sp.free, size, clazz, length)
    ensures Created(sp2, sp, sp.free + HEADERSIZE, size, kind, clazz, length)
  {
    hide KindOf, SizeOf, HeaderOf, IsMarked, ObjectInitialization.Zeroed;
    HeapObjects.HeaderOfFacts(size, kind);
    var h := sp.free;
    assert m1[h] == HeaderOf(size, kind) && Next(m1, h) == sp2.free;
    assert sp2.m0[h] == m1[h];
    forall x | 0 <= x < |sp.m0| && !(sp.free <= x < sp2.free)
      ensures sp2.m0[x] == sp.m0[x]
    {
      assert sp2.m0[x] == m1[x];
    }
  }
}
