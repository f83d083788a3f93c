/** The heap after the mark phase and the weak phases, in terms of the heap before the collection. */
module Clearing {
  import opened Cells
  import opened Objects
  import opened HeapShape
  import opened Marking
  import opened Roots
  import opened WeakPointers
  import opened Tracing

  /** What has become of cell x of the live object at h. */
  ghost predicate CellKept(g: Start, m2: seq<Cell>, h: nat, x: nat) {
    && x < |m2| && h < |g.m0| && x < |g.m0|
    && if IsWeakSlot(g.m0, h, x) then
         && (m2[x] == NULL || m2[x] == g.m0[x])
         && (InHeap(g.lo, g.hi, g.m0[x]) ==> (m2[x] == NULL <==> Unreached(g, g.reachable, g.m0[x])))
         && (!InHeap(g.lo, g.hi, g.m0[x]) && g.m0[x] != NULL ==>
               1 <= g.m0[x] / CELL <= |m2| && (m2[x] == NULL <==> !IsMarked(m2[g.m0[x] / CELL - HEADERSIZE])))
       else IsReserved(g.m0, h, x) || m2[x] == g.m0[x]
  }

  /** The cell in which the object at h, a weak one, is linked into its list. */
  predicate IsReserved(m: seq<Cell>, h: nat, x: nat) {
    h < |m| && IsWeak(KindOf(m[h])) && x == ReservedCell(KindOf(m[h]), h)
  }

  /** Nothing outside the heap has changed. */
  ghost predicate SameOutside(g: Start, m2: seq<Cell>) {
    |m2| == |g.m0| && forall k {:trigger m2[k]} | 0 <= k < |m2| && !(g.lo <= k < g.hi) :: m2[k] == g.m0[k]
  }

  /** The reachable objects are marked, and nothing about them has changed but their weak pointers. */
  ghost predicate Traced(g: Start, m2: seq<Cell>) {
    && Startable(g) && AtRest(g.classOf, g.m0, g.lo, g.hi) && |m2| == |g.m0| && SameOutside(g, m2)
    && (forall h | h in Headers(g.m0, g.lo, g.hi) :: h < |m2| && m2[h] == Stamped(g.m0[h], h in g.reachable))
    && (forall h, x: nat | h in g.reachable && h < |g.m0| && h < x < Next(g.m0, h) :: CellKept(g, m2, h, x))
  }

  /**
   * An object outside the heap is always alive, so that a weak pointer should become NULL exactly if its object is in
   * the heap and has not been reached. That is what happens exactly if the pointer is NULL, or leads into the heap, or
   * the cell in front of its object is odd; a cell outside the heap is as it was before the collection.
   */
  lemma ClearedIfUnreached(g: Start, m2: seq<Cell>, h: nat, x: nat)
    requires Traced(g, m2) && h in g.reachable && IsWeakSlot(g.m0, h, x) && h < |g.m0| && h < x < Next(g.m0, h)
    ensures x < |m2| == |g.m0|
    ensures (m2[x] == (if Unreached(g, g.reachable, g.m0[x]) then NULL else g.m0[x]))
            <==> g.m0[x] == NULL || InHeap(g.lo, g.hi, g.m0[x])
                 || (1 <= g.m0[x] / CELL <= |m2| && IsMarked(m2[g.m0[x] / CELL - HEADERSIZE]))
    ensures var k := g.m0[x] / CELL - HEADERSIZE; 0 <= k < |m2| && !(g.lo <= k < g.hi) ==> m2[k] == g.m0[k]
  {
    hide AtRest, Startable, IsWeakSlot, IsMarked, Headers, Tiled;
    assert CellKept(g, m2, h, x);
  }

  /** Exactly the pointers cleared in lists that have a finalizer are finalized, once each. */
  ghost predicate FinalizedOnce(g: Start, m2: seq<Cell>, calls: seq<Finalization>) {
    && (forall i, j | 0 <= i < j < |calls| :: calls[i].slot != calls[j].slot)
    && (forall c | c in calls :: exists h | h in g.reachable :: FinalizedIn(g, m2, c, h))
    && (forall h, k: nat | h in g.reachable && IsListSlot(g.m0, h, k) && k < |m2| == |g.m0| && m2[k] == NULL != g.m0[k]
        && FinalizerOf(g, h) != NULL ::
          Finalization(k, FinalizerOf(g, h), g.m0[k]) in calls)
  }

  function FinalizerOf(g: Start, h: nat): Cell {
    if h + 3 < |g.m0| then g.m0[h + 3] else NULL
  }

  /** Cell k holds one of the pointers of the weak pointer list at h. */
  predicate IsListSlot(m: seq<Cell>, h: nat, k: nat) {
    IsWeakSlot(m, h, k) && KindOf(m[h]) == GCT_WEAKPOINTERLIST
  }

  ghost predicate FinalizedIn(g: Start, m2: seq<Cell>, c: Finalization, h: nat) {
    && IsListSlot(g.m0, h, c.slot) && c.slot < |m2| == |g.m0|
    && c.finalizer == FinalizerOf(g, h) != NULL && c.referent == g.m0[c.slot] != NULL && m2[c.slot] == NULL
  }

  lemma HeaderKept(g: Start, m2: seq<Cell>, m1: seq<Cell>, s: State, h: nat)
    requires Marked(g, m1, s) && Weakened(m2, m1, WeakSlotsOf(g.m0, s.marked)) && h in Headers(g.m0, g.lo, g.hi)
    ensures h < |m2| == |g.m0| && m2[h] == Stamped(g.m0[h], h in s.marked)
  {
    HeaderBounds(g.m0, g.lo, g.hi, h);
    if h in WeakSlotsOf(g.m0, s.marked) {
      var o :| o in s.marked && IsWeakSlot(g.m0, o, h);
      WeakSlotInside(g, m1, s, o, h);
      InsideIsNoHeader(g.m0, g.lo, g.hi, o, h);
    }
  }

  lemma WeakCellKept(g: Start, m2: seq<Cell>, m1: seq<Cell>, s: State, h: nat, x: nat)
    requires Marked(g, m1, s) && Weakened(m2, m1, WeakSlotsOf(g.m0, s.marked)) && s.marked == g.reachable
    requires h in s.marked && IsWeakSlot(g.m0, h, x)
    ensures CellKept(g, m2, h, x)
  {
    hide Marked, Weakened, WeakSlotsOf, IsWeakSlot, IsMarked, KindOf, InUse, Headers, Tiled, Fits, Sound;
    WeakSlotInside(g, m1, s, h, x);
    WeakPointerAfter(g, m2, m1, s, h, x);
    if !InHeap(g.lo, g.hi, g.m0[x]) && g.m0[x] != NULL {
      WeakSlotsAreAligned(g, m1, s);
      WeakenedLength(m2, m1, WeakSlotsOf(g.m0, s.marked));
      WeakenedMarks(m2, m1, WeakSlotsOf(g.m0, s.marked), g.m0[x] / CELL - HEADERSIZE);
    }
  }

  lemma OtherCellKept(g: Start, m2: seq<Cell>, m1: seq<Cell>, s: State, h: nat, x: nat)
    requires Marked(g, m1, s) && Weakened(m2, m1, WeakSlotsOf(g.m0, s.marked)) && s.marked == g.reachable
    requires h in s.marked && h < |g.m0| && h < x < Next(g.m0, h)
    ensures CellKept(g, m2, h, x)
  {
    MarkedLength(g, m1, s, h);
    hide Marked, Weakened, WeakSlotsOf, KindOf, InUse;
    if IsWeakSlot(g.m0, h, x) {
      WeakCellKept(g, m2, m1, s, h, x);
    } else if !IsReserved(g.m0, h, x) {
      NotCleared(g, m2, m1, s, s.marked, h, x);
      PlainCell(g, m1, s, h, x);
    }
  }

  lemma PlainCell(g: Start, m1: seq<Cell>, s: State, h: nat, x: nat)
    requires Marked(g, m1, s) && h in s.marked && h < |g.m0| && h < x < Next(g.m0, h) && !IsReserved(g.m0, h, x)
    ensures x < |m1| && x < |g.m0| && m1[x] == g.m0[x]
  {
    MarkedLength(g, m1, s, h);
    CellUnchanged(g, m1, s, h, x);
  }

  lemma WeakSlotsAreAligned(g: Start, m1: seq<Cell>, s: State)
    requires Marked(g, m1, s)
    ensures Aligned(m1, WeakSlotsOf(g.m0, s.marked))
  {
    hide Marked, InUse;
    forall k | k in WeakSlotsOf(g.m0, s.marked) && k < |m1|
      ensures m1[k] % CELL == 0
    {
      var h :| h in s.marked && IsWeakSlot(g.m0, h, k);
      WeakSlotInside(g, m1, s, h, k);
    }
  }

  lemma UnmarkedOutside(g: Start, m1: seq<Cell>, s: State, k: nat)
    requires Marked(g, m1, s) && k < |m1| && !(g.lo <= k < g.hi)
    ensures |m1| == |g.m0| && m1[k] == g.m0[k]
  {
    StartTiled(g);
    hide Startable, Followed, Chained, Lists, WeakSound, Tiled, Headers, WellFormed;
    if k in Headers(g.m0, g.lo, g.hi) {
      HeaderBounds(g.m0, g.lo, g.hi, k);
    }
    if k in ReservedCells(g.m0, g.lo, g.hi) {
      var h :| h in Headers(g.m0, g.lo, g.hi) && h < |g.m0| && IsWeak(KindOf(g.m0[h]))
        && k == ReservedCell(KindOf(g.m0[h]), h);
      ReservedInside(g.classOf, g.m0, g.lo, g.hi, h);
      HeaderBounds(g.m0, g.lo, g.hi, h);
    }
  }

  lemma WeakSlotsInHeap(g: Start, m1: seq<Cell>, s: State, k: nat)
    requires Marked(g, m1, s) && k in WeakSlotsOf(g.m0, s.marked)
    ensures g.lo <= k < g.hi
  {
    hide Marked, InUse, Headers, Tiled;
    var h :| h in s.marked && IsWeakSlot(g.m0, h, k);
    WeakSlotInside(g, m1, s, h, k);
    HeaderBounds(g.m0, g.lo, g.hi, h);
  }

  lemma OutsideKept(g: Start, m2: seq<Cell>, m1: seq<Cell>, s: State)
    requires Marked(g, m1, s) && Weakened(m2, m1, WeakSlotsOf(g.m0, s.marked))
    ensures SameOutside(g, m2)
  {
    hide Marked, WeakSlotsOf, Unkept;
    SameLength(g, m1, s);
    forall k | 0 <= k < |m2| && !(g.lo <= k < g.hi)
      ensures m2[k] == g.m0[k]
    {
      UnmarkedOutside(g, m1, s, k);
      if k in WeakSlotsOf(g.m0, s.marked) {
        WeakSlotsInHeap(g, m1, s, k);
      }
    }
  }

  lemma SameLength(g: Start, m1: seq<Cell>, s: State)
    requires Marked(g, m1, s)
    ensures |m1| == |g.m0|
  {
  }

  lemma TracedFrom(g: Start, m2: seq<Cell>, m1: seq<Cell>, s: State)
    requires Marked(g, m1, s) && Weakened(m2, m1, WeakSlotsOf(g.m0, s.marked)) && s.marked == g.reachable
    requires AtRest(g.classOf, g.m0, g.lo, g.hi)
    ensures Traced(g, m2)
  {
    StartFacts(g, m1, s);
    OutsideKept(g, m2, m1, s);
    hide Marked, Weakened, WeakSlotsOf, WellFormed, Startable, CellKept, AtRest, Headers, Tiled, SameOutside;
    forall h | h in Headers(g.m0, g.lo, g.hi)
      ensures h < |m2| && m2[h] == Stamped(g.m0[h], h in g.reachable)
    {
      HeaderKept(g, m2, m1, s, h);
    }
    forall h, x: nat | h in g.reachable && h < |g.m0| && h < x < Next(g.m0, h)
      ensures CellKept(g, m2, h, x)
    {
      OtherCellKept(g, m2, m1, s, h, x);
    }
    WeakenedLength(m2, m1, WeakSlotsOf(g.m0, s.marked));
  }

  lemma WeakenedLength(m2: seq<Cell>, m1: seq<Cell>, slots: set<nat>)
    requires Weakened(m2, m1, slots)
    ensures |m2| == |m1|
  {
  }

  lemma StartFacts(g: Start, m1: seq<Cell>, s: State)
    requires Marked(g, m1, s)
    ensures Startable(g) && Tiled(g.m0, g.lo, g.hi) && |m1| == |g.m0|
  {
  }

  lemma ListMember(g: Start, m1: seq<Cell>, s: State, h: nat)
    requires Marked(g, m1, s)
    ensures h in s.weakLists <==> h in s.marked && h < |g.m0| && KindOf(g.m0[h]) == GCT_WEAKPOINTERLIST
  {
  }

  /** What is known of one pointer of a live weak pointer list. */
  lemma ListSlotAfter(g: Start, m2: seq<Cell>, m1: seq<Cell>, s: State, h: nat, k: nat)
    requires Marked(g, m1, s) && Weakened(m2, m1, WeakSlotsOf(g.m0, s.marked)) && h in s.marked
    requires IsWeakSlot(g.m0, h, k)
    ensures k < |m1| == |m2| == |g.m0| && m1[k] == g.m0[k]
    ensures Unkept(m1, k) <==> m2[k] == NULL && g.m0[k] != NULL
  {
    hide Marked, IsWeakSlot, InUse, Fits, Sound, Headers, Tiled;
    WeakSlotInside(g, m1, s, h, k);
    assert HasWeakSlot(g.m0, s.marked, k);
  }

  lemma FinalizedOnceFrom(g: Start, m2: seq<Cell>, m1: seq<Cell>, s: State, calls: seq<Finalization>)
    requires Marked(g, m1, s) && Weakened(m2, m1, WeakSlotsOf(g.m0, s.marked)) && s.marked == g.reachable
    requires Finalized(calls, m1, g.m0, Elements(s.weakLists))
    ensures FinalizedOnce(g, m2, calls)
  {
    hide Marked, Weakened, WeakSlotsOf, KindOf, IsWeakSlot, Unkept;
    forall c | c in calls
      ensures exists h | h in g.reachable :: FinalizedIn(g, m2, c, h)
    {
      var h :| h in Elements(s.weakLists) && FinalizedFor(c, m1, g.m0, h);
      ListMember(g, m1, s, h);
      ListSlotAfter(g, m2, m1, s, h, c.slot);
      assert FinalizedIn(g, m2, c, h);
    }
    forall h, k: nat | h in g.reachable && IsListSlot(g.m0, h, k) && k < |m2| == |g.m0| && m2[k] == NULL != g.m0[k]
      && FinalizerOf(g, h) != NULL
      ensures Finalization(k, FinalizerOf(g, h), g.m0[k]) in calls
    {
      ListOwner(g.m0, h, k);
      ListMember(g, m1, s, h);
      ListSlotAfter(g, m2, m1, s, h, k);
      assert h in Elements(s.weakLists);
    }
  }

  lemma ListOwner(m: seq<Cell>, h: nat, k: nat)
    requires IsListSlot(m, h, k)
    ensures h < |m|
  {
  }

  /**
   * Marking and the two weak phases: what the collection has to keep is marked, and weak pointers to anything else are
   * cleared.
   */
  method TraceHeap(mem: array<Cell>, currentHeap: nat, currentHeapEnd: nat, classOf: Cell -> Class, roots: RootSet)
    returns (calls: seq<Finalization>, ghost g: Start)
    requires AtRest(classOf, mem[..], currentHeap, currentHeapEnd) && roots.variables != mem
    requires roots.Now().Sound(mem[..], currentHeap, currentHeapEnd) && roots.Now().Distinct()
    modifies mem
    ensures g == Start(classOf, old(mem[..]), currentHeap, currentHeapEnd, g.reachable)
    ensures Tiled(g.m0, g.lo, g.hi) && g.reachable == Alive(classOf, g.m0, g.lo, g.hi, roots.Now())
    ensures Traced(g, mem[..]) && FinalizedOnce(g, mem[..], calls)
  {
    hide AtRest, Alive, Roots.Sound, Roots.Distinct, Marked, Finalized, Weakened, WeakSlotsOf, Traced, FinalizedOnce,
      Elements;
    var marker := MarkHeap(mem, currentHeap, currentHeapEnd, classOf, roots);
    g := marker.start;
    ghost var s, m1 := marker.Now(), mem[..];
    var weakPointers, weakReferences := marker.weakPointers, marker.weakReferences;
    calls := MarkWeakPointerLists(mem, weakPointers, g, s);
    MarkWeakReferences(mem, weakReferences, g, m1, s);
    TracedFrom(g, mem[..], m1, s);
    FinalizedOnceFrom(g, mem[..], m1, s, calls);
  }
}
