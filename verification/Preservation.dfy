/**
 * What a collection preserves: the reachable objects, cell for cell, with every pointer leading to the same object as
 * before.
 */
module Preservation {
  import opened Cells
  import opened FreeList
  import opened Objects
  import opened HeapShape
  import opened Marking
  import opened WeakPointers
  import opened Tracing
  import opened Clearing
  import opened Sweeping
  import opened Survivors
  import opened Relocation
  import opened HeapUpdate
  import opened Outcomes

  /** v is the address of a cell, or of a byte, of the object at c. */
  ghost predicate Inside(g: Start, c: nat, v: Cell) {
    c in g.reachable && c < |g.m0| && CELL * c <= v < CELL * Next(g.m0, c)
  }

  /** w is what v has become: addresses in live objects move along with them, addresses outside the heap stay. */
  ghost predicate PointerMoved(o: Outcome, v: Cell, w: Cell) {
    && (!InHeap(o.g.lo, o.g.hi, v) ==> w == v) && w % 4 == v % 4
    && forall c: nat | Inside(o.g, c, v) :: w == v - CELL * c + CELL * o.Place(c)
  }

  /** w is what the weak pointer v has become. */
  ghost predicate WeakPointerMoved(o: Outcome, v: Cell, w: Cell) {
    if InHeap(o.g.lo, o.g.hi, v) then
      if HeaderAt(v) in o.g.reachable then w == CELL * (o.Place(HeaderAt(v)) + HEADERSIZE) else w == NULL
    else w == NULL || w == v
  }

  /** w is what has become of cell x of the object at h. */
  ghost predicate ValueMoved(o: Outcome, h: nat, x: nat, w: Cell) {
    && x < |o.g.m0|
    && var v := o.g.m0[x];
       if IsWeakSlot(o.g.m0, h, x) then WeakPointerMoved(o, v, w)
       else if IsReserved(o.g.m0, h, x) then true
       else if x in PointerSlots(o.g.classOf, o.g.m0, h) then PointerMoved(o, v, w)
       else w == v
  }

  /** Cell x of the object at h, where the collection has put it. */
  ghost predicate CellMoved(o: Outcome, m5: seq<Cell>, h: nat, x: nat) {
    0 <= x - h + o.Place(h) < |m5| && ValueMoved(o, h, x, m5[x - h + o.Place(h)])
  }

  /** The object at h, after the collection. */
  ghost predicate Copy(o: Outcome, m5: seq<Cell>, h: nat) {
    && h + 2 <= |o.g.m0| && h + 2 <= Next(o.g.m0, h) <= |o.g.m0| && o.Place(h) + (Next(o.g.m0, h) - h) <= |m5|
    && m5[o.Place(h)] == o.g.m0[h]
    && forall x: nat | h < x < Next(o.g.m0, h) :: CellMoved(o, m5, h, x)
  }

  /** An address inside a live object moves along with the object, interior addresses included. */
  lemma ForwardInside(o: Outcome, m5: seq<Cell>, m2: seq<Cell>, chunks: seq<Chunk>, first: Cell, c: nat, v: Cell)
    requires AfterCollection(o, m5, m2, chunks, first) && Inside(o.g, c, v)
    ensures o.Forward(v) == v - CELL * c + CELL * o.Place(c)
  {
    hide Traced, LaidOut, Row, Free, Survived, Tiled, Headers, DeadRuns, Relocated, Swept, NewIndex, WithoutMark,
      IsMarked, SizeOf, KindOf;
    PlaceIs(o, m2, c);
    if o.compacted {
      TracedFacts(o.g, m2);
      TracedTiling(o.g, m2);
      TracedHeader(o.g, m2, c);
      RelocatedInside(o.t, m2, o.g.reachable, c, v);
      NewIndexIs(m2, o.g.lo, c, o.g.reachable);
    }
  }

  lemma NewIndexIs(m: seq<Cell>, lo: nat, h: nat, marked: set<nat>)
    requires Tiled(m, lo, h)
    ensures NewIndex(m, lo, h, marked) == h - DeadCells(m, lo, h, marked)
  {
  }

  lemma ForwardOutside(o: Outcome, v: Cell)
    requires o.t.lo == o.g.lo && o.t.hi == o.g.hi
    ensures !InHeap(o.g.lo, o.g.hi, v) ==> o.Forward(v) == v
    ensures o.Forward(v) % 4 == v % 4
  {
  }

  lemma PointerForwarded(o: Outcome, m5: seq<Cell>, m2: seq<Cell>, chunks: seq<Chunk>, first: Cell, v: Cell)
    requires AfterCollection(o, m5, m2, chunks, first)
    ensures PointerMoved(o, v, o.Forward(v))
  {
    ForwardOutside(o, v);
    hide AfterCollection, Inside;
    forall c: nat | Inside(o.g, c, v)
      ensures o.Forward(v) == v - CELL * c + CELL * o.Place(c)
    {
      ForwardInside(o, m5, m2, chunks, first, c, v);
    }
  }

  lemma SurvivedFacts(o: Outcome, m5: seq<Cell>, m2: seq<Cell>, chunks: seq<Chunk>, first: Cell, h: nat)
    requires AfterCollection(o, m5, m2, chunks, first) && h in o.g.reachable
    ensures Traced(o.g, m2) && LaidOut(o.g.classOf) && Survived(o, m5, m2, h) && |m5| == |m2|
  {
    hide Traced, LaidOut, Row, Free, Survived, Tiled, DeadRuns;
  }

  lemma SurvivedCell(o: Outcome, m5: seq<Cell>, m2: seq<Cell>, h: nat, x: nat)
    requires Survived(o, m5, m2, h) && h < |m2| && h < x < Next(m2, h)
    ensures x < |m2| && 0 <= x - h + o.Place(h) < |m5|
    ensures m5[x - h + o.Place(h)] == if x in PointerSlots(o.g.classOf, m2, h) then o.Forward(m2[x]) else m2[x]
  {
    assert m2[x] == m2[x];
  }

  /** Where cell x of the object at h goes, and what it is made from. */
  lemma CellFrom(o: Outcome, m5: seq<Cell>, m2: seq<Cell>, chunks: seq<Chunk>, first: Cell, h: nat, x: nat)
    requires AfterCollection(o, m5, m2, chunks, first) && h in o.g.reachable && h < |o.g.m0| && h < x < Next(o.g.m0, h)
    ensures x < |m2| == |o.g.m0| && 0 <= x - h + o.Place(h) < |m5| && CellKept(o.g, m2, h, x)
    ensures m5[x - h + o.Place(h)] == if x in PointerSlots(o.g.classOf, o.g.m0, h) then o.Forward(m2[x]) else m2[x]
  {
    hide AfterCollection, LaidOut, Survived, Tiled, Headers, PointerSlots, KindOf, SizeOf, CellKept, WithoutMark,
      IsMarked;
    SurvivedFacts(o, m5, m2, chunks, first, h);
    AliveInUse(o.g, m2, h);
    TracedHeader(o.g, m2, h);
    SurvivedCell(o, m5, m2, h, x);
    TracedFits(o.g, m2, h);
    KeptCell(o.g, m2, h, x);
  }

  lemma KeptCell(g: Start, m2: seq<Cell>, h: nat, x: nat)
    requires Traced(g, m2) && h in g.reachable && h < |g.m0| && h < x < Next(g.m0, h)
    ensures CellKept(g, m2, h, x)
  {
  }

  /** Weak pointers are rewritten like all others. */
  lemma TracedAtRest(g: Start, m2: seq<Cell>)
    requires Traced(g, m2)
    ensures AtRest(g.classOf, g.m0, g.lo, g.hi)
  {
    hide AtRest, Startable, CellKept, SameOutside;
  }

  lemma WeakSlotIsSlot(g: Start, m2: seq<Cell>, h: nat, x: nat)
    requires Traced(g, m2) && h in g.reachable && IsWeakSlot(g.m0, h, x)
    ensures x in PointerSlots(g.classOf, g.m0, h) && x < |g.m0|
    ensures Tiled(g.m0, g.lo, g.hi) && 1 <= g.lo && WeakPointer(g.m0, g.lo, g.hi, g.m0[x])
  {
    hide Traced, InUse, Leads, Fits, Tiled, Headers, KindOf, WeakPointer, AtRest;
    AliveInUse(g, m2, h);
    TracedAtRest(g, m2);
    AtRestFacts(g.classOf, g.m0, g.lo, g.hi, h, x);
    if KindOf(g.m0[h]) == GCT_WEAKPOINTERLIST {
      assert Range(h + 4, g.m0[h + 1])[x - h - 4] == x;
    } else {
      var offsets := InstanceOffsets(g.classOf(g.m0[h + 1]));
      var i :| 0 <= i < |offsets| && offsets[i] == 0;
      assert SlotsAt(h + 3, offsets)[i] == h + 3;
    }
  }

  lemma AtRestFacts(classOf: Cell -> Class, m: seq<Cell>, lo: nat, hi: nat, h: nat, x: nat)
    requires AtRest(classOf, m, lo, hi) && Tiled(m, lo, hi) && h in Headers(m, lo, hi) && IsWeakSlot(m, h, x)
    ensures 1 <= lo && x < |m| && WeakPointer(m, lo, hi, m[x]) && HasReferent(classOf, m, h)
  {
  }

  /** A weak pointer after the collection. */
  lemma WeakCell(o: Outcome, m5: seq<Cell>, m2: seq<Cell>, chunks: seq<Chunk>, first: Cell, h: nat, x: nat)
    requires AfterCollection(o, m5, m2, chunks, first) && h in o.g.reachable && IsWeakSlot(o.g.m0, h, x)
    requires h < |o.g.m0| && h < x < Next(o.g.m0, h)
    ensures CellMoved(o, m5, h, x)
  {
    hide AfterCollection, LaidOut, Tiled, Headers, PointerSlots, KindOf, SizeOf, IsWeakSlot, Traced, WeakPointer,
      WeakPointerMoved, Unreached;
    SurvivedFacts(o, m5, m2, chunks, first, h);
    CellFrom(o, m5, m2, chunks, first, h, x);
    WeakSlotIsSlot(o.g, m2, h, x);
    WeakForwarded(o, m5, m2, chunks, first, o.g.m0[x], m2[x]);
  }

  lemma WeakForwarded(o: Outcome, m5: seq<Cell>, m2: seq<Cell>, chunks: seq<Chunk>, first: Cell, v: Cell, kept: Cell)
    requires AfterCollection(o, m5, m2, chunks, first) && 1 <= o.g.lo
    requires Tiled(o.g.m0, o.g.lo, o.g.hi) && WeakPointer(o.g.m0, o.g.lo, o.g.hi, v)
    requires kept == NULL || kept == v
    requires InHeap(o.g.lo, o.g.hi, v) ==> (kept == NULL <==> Unreached(o.g, o.g.reachable, v))
    ensures WeakPointerMoved(o, v, o.Forward(kept))
  {
    hide AfterCollection, Tiled, Headers, KindOf;
    PointerForwarded(o, m5, m2, chunks, first, kept);
    if InHeap(o.g.lo, o.g.hi, v) && HeaderAt(v) in o.g.reachable {
      ObjectPointerInside(o, m5, m2, chunks, first, v);
    }
  }

  /** An object pointer points into its object. */
  lemma ObjectPointerInside(o: Outcome, m5: seq<Cell>, m2: seq<Cell>, chunks: seq<Chunk>, first: Cell, v: Cell)
    requires AfterCollection(o, m5, m2, chunks, first)
    requires CELL <= v && v % CELL == 0 && HeaderAt(v) in o.g.reachable
    ensures Inside(o.g, HeaderAt(v), v)
  {
    hide Row, Free, Survived, Tiled, Headers, KindOf, Traced, LaidOut;
    AliveInUse(o.g, m2, HeaderAt(v));
  }

  lemma OtherCell(o: Outcome, m5: seq<Cell>, m2: seq<Cell>, chunks: seq<Chunk>, first: Cell, h: nat, x: nat)
    requires AfterCollection(o, m5, m2, chunks, first) && h in o.g.reachable && h < |o.g.m0| && h < x < Next(o.g.m0, h)
    ensures CellMoved(o, m5, h, x)
  {
    hide AfterCollection, LaidOut, Tiled, Headers, PointerSlots, KindOf, SizeOf, IsWeakSlot, Traced, PointerMoved,
      IsReserved;
    CellFrom(o, m5, m2, chunks, first, h, x);
    if IsWeakSlot(o.g.m0, h, x) {
      WeakCell(o, m5, m2, chunks, first, h, x);
    } else if !IsReserved(o.g.m0, h, x) {
      PointerForwarded(o, m5, m2, chunks, first, o.g.m0[x]);
    }
  }

  /** Every reachable object has survived, cell for cell. */
  lemma ObjectPreserved(o: Outcome, m5: seq<Cell>, m2: seq<Cell>, chunks: seq<Chunk>, first: Cell, h: nat)
    requires AfterCollection(o, m5, m2, chunks, first) && h in o.g.reachable
    ensures Copy(o, m5, h)
  {
    hide AfterCollection, LaidOut, Tiled, Headers, KindOf, SizeOf, Traced, CellMoved, Next, WithoutMark;
    SurvivedFacts(o, m5, m2, chunks, first, h);
    AliveInUse(o.g, m2, h);
    TracedHeader(o.g, m2, h);
    forall x: nat | h < x < Next(o.g.m0, h)
      ensures CellMoved(o, m5, h, x)
    {
      OtherCell(o, m5, m2, chunks, first, h, x);
    }
  }

  /** The heap before and after a collection, all that is needed to compare the two. */
  ghost predicate Preserved(o: Outcome, m5: seq<Cell>, chunks: seq<Chunk>, first: Cell) {
    && Startable(o.g) && AtRest(o.g.classOf, o.g.m0, o.g.lo, o.g.hi) && LaidOut(o.g.classOf) && |m5| == |o.g.m0|
    && Row(o, m5, chunks) && Free(m5, o.g.hi, chunks, first)
    && forall h | h in o.g.reachable :: Copy(o, m5, h)
  }

  lemma CollectionPreserves(o: Outcome, m5: seq<Cell>, m2: seq<Cell>, chunks: seq<Chunk>, first: Cell)
    requires AfterCollection(o, m5, m2, chunks, first)
    ensures Preserved(o, m5, chunks, first)
  {
    hide Copy, LaidOut, Row, Free, Survived, Traced, Startable, AtRest;
    TracedFacts(o.g, m2);
    forall h | h in o.g.reachable
      ensures Copy(o, m5, h)
    {
      ObjectPreserved(o, m5, m2, chunks, first, h);
    }
  }
}
