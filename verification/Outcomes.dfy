/** What a collection leaves behind. */
module Outcomes {
  import opened Cells
  import opened FreeList
  import opened Objects
  import opened HeapShape
  import opened Marking
  import opened WeakPointers
  import opened Tracing
  import opened Clearing
  import opened Sweeping
  import opened Survivors
  import opened Relocation
  import opened HeapUpdate

  /** A collection: the heap it started from and the objects it kept, and whether and how it compacted the heap. */
  datatype Outcome = Outcome(g: Start, compacted: bool, t: Table) {
    /** Where the object at h is after the collection. */
    ghost function Place(h: nat): nat {
      if compacted && Tiled(g.m0, g.lo, h) then NewIndex(g.m0, g.lo, h, g.reachable) else h
    }

    /** Where the address v points after the collection. */
    ghost function Forward(v: Cell): Cell {
      if compacted && Swept(t.lo, t.hi, t.chunks) then Relocated(t, v) else v
    }
  }

  /** The object at h of m2, where the collection has put it. */
  ghost predicate Survived(o: Outcome, m5: seq<Cell>, m2: seq<Cell>, h: nat) {
    && h + 2 <= |m2| && h + 2 <= Next(m2, h) <= |m2| && o.Place(h) + (Next(m2, h) - h) <= |m5|
    && m5[o.Place(h)] == WithoutMark(m2[h])
    && forall x {:trigger m2[x]} | h < x < Next(m2, h) ::
         m5[x - h + o.Place(h)] == if x in PointerSlots(o.g.classOf, m2, h) then o.Forward(m2[x]) else m2[x]
  }

  ghost function Starts(chunks: seq<Chunk>): set<nat> {
    set c | c in chunks :: c.start
  }

  /** The free chunks of the heap. */
  ghost predicate Free(m5: seq<Cell>, hi: nat, chunks: seq<Chunk>, first: Cell) {
    && Linked(m5, chunks) && first == Link(chunks, 0)
    && forall c | c in chunks ::
         2 <= c.cells && c.End() <= hi <= |m5| <= MAX_CELLS && m5[c.start] == ChunkHeader(c.cells)
  }

  ghost function Places(o: Outcome): set<nat> {
    set h | h in o.g.reachable :: o.Place(h)
  }

  /** The heap is a row of the surviving objects and the free chunks. */
  ghost predicate Row(o: Outcome, m5: seq<Cell>, chunks: seq<Chunk>) {
    && Tiled(m5, o.g.lo, o.g.hi) && Headers(m5, o.g.lo, o.g.hi) == Places(o) + Starts(chunks)
  }

  /** The state after a collection. */
  ghost predicate AfterCollection(o: Outcome, m5: seq<Cell>, m2: seq<Cell>, chunks: seq<Chunk>, first: Cell) {
    && Traced(o.g, m2) && LaidOut(o.g.classOf) && |m5| == |m2|
    && o.t.lo == o.g.lo && o.t.hi == o.g.hi
    && (o.compacted ==> Tiled(m2, o.g.lo, o.g.hi) && o.t.chunks == DeadRuns(m2, o.g.lo, o.g.hi, o.g.reachable))
    && Row(o, m5, chunks) && Free(m5, o.g.hi, chunks, first)
    && forall h | h in o.g.reachable :: Survived(o, m5, m2, h)
  }

  /** Memories whose headers have the same sizes have the same dead cells. */
  lemma {:induction false} SameDead(m2: seq<Cell>, m0: seq<Cell>, p: nat, x: nat, marked: set<nat>)
    requires Tiled(m0, p, x) && Tiled(m2, p, x) && |m2| == |m0|
    requires forall h | h in Headers(m0, p, x) :: h < |m2| && SizeOf(m2[h]) == SizeOf(m0[h])
    ensures DeadCells(m2, p, x, marked) == DeadCells(m0, p, x, marked)
    decreases x - p
  {
    if p < x {
      assert p in Headers(m0, p, x);
      SameDead(m2, m0, Next(m0, p), x, marked);
    }
  }

  lemma TracedFacts(g: Start, m2: seq<Cell>)
    requires Traced(g, m2)
    ensures Startable(g) && AtRest(g.classOf, g.m0, g.lo, g.hi) && |m2| == |g.m0| <= MAX_CELLS
    ensures 1 <= g.lo <= g.hi <= |g.m0| && Tiled(g.m0, g.lo, g.hi)
    ensures g.reachable <= Headers(g.m0, g.lo, g.hi)
    ensures forall h | h in Headers(g.m0, g.lo, g.hi) :: h < |m2| && m2[h] == Stamped(g.m0[h], h in g.reachable)
  {
    forall h | h in g.reachable
      ensures h in Headers(g.m0, g.lo, g.hi)
    {
      Usable(g, h);
    }
  }

  lemma TracedHeader(g: Start, m2: seq<Cell>, h: nat)
    requires Traced(g, m2) && Tiled(g.m0, g.lo, g.hi) && h in Headers(g.m0, g.lo, g.hi)
    ensures h + 2 <= |m2| == |g.m0| && SizeOf(m2[h]) == SizeOf(g.m0[h]) && KindOf(m2[h]) == KindOf(g.m0[h])
    ensures WithoutMark(m2[h]) == g.m0[h] && (IsMarked(m2[h]) <==> h in g.reachable)
    ensures Next(m2, h) == Next(g.m0, h) <= g.hi && h + 2 <= Next(m2, h)
  {
    HeaderBounds(g.m0, g.lo, g.hi, h);
    MarkKeepsSizeAndKind(g.m0[h]);
    assert m2[h] == Stamped(g.m0[h], h in g.reachable);
  }

  /** The traced heap has the same objects, in the same places. */
  lemma TracedTiling(g: Start, m2: seq<Cell>)
    requires Traced(g, m2)
    ensures Tiled(g.m0, g.lo, g.hi) && Tiled(m2, g.lo, g.hi) && Headers(m2, g.lo, g.hi) == Headers(g.m0, g.lo, g.hi)
    ensures Sweepable(m2, g.lo, g.hi, g.reachable) && g.reachable <= Headers(m2, g.lo, g.hi)
  {
    TracedFacts(g, m2);
    hide Traced, Tiled, Headers, SizeOf, IsMarked, Stamped, WithoutMark, KindOf;
    forall h | h in Headers(g.m0, g.lo, g.hi)
      ensures h < |m2| && SizeOf(m2[h]) == SizeOf(g.m0[h]) && (IsMarked(m2[h]) <==> h in g.reachable)
    {
      TracedHeader(g, m2, h);
    }
    SameTiling(m2, g.m0, g.lo, g.hi);
  }

  lemma {:induction false} HeadersPrefix(m: seq<Cell>, lo: nat, x: nat, hi: nat)
    requires Tiled(m, lo, x) && Tiled(m, x, hi)
    ensures Tiled(m, lo, hi) && Headers(m, lo, x) <= Headers(m, lo, hi)
    decreases x - lo
  {
    if lo < x {
      HeadersPrefix(m, Next(m, lo), x, hi);
    }
  }

  /** Objects move by the same distance whether the dead cells are counted before or after marking. */
  lemma SameIndex(g: Start, m2: seq<Cell>, x: nat)
    requires Traced(g, m2) && Tiled(g.m0, g.lo, x) && Tiled(g.m0, x, g.hi) && Tiled(m2, g.lo, x)
    ensures NewIndex(m2, g.lo, x, g.reachable) == NewIndex(g.m0, g.lo, x, g.reachable)
  {
    TracedFacts(g, m2);
    hide Traced, Tiled, Headers, SizeOf, KindOf, WithoutMark, IsMarked, DeadCells, Stamped;
    HeadersPrefix(g.m0, g.lo, x, g.hi);
    forall h | h in Headers(g.m0, g.lo, x)
      ensures h < |m2| && SizeOf(m2[h]) == SizeOf(g.m0[h])
    {
      TracedHeader(g, m2, h);
    }
    SameDead(m2, g.m0, g.lo, x, g.reachable);
  }

  lemma PlaceIs(o: Outcome, m2: seq<Cell>, h: nat)
    requires Traced(o.g, m2) && h in o.g.reachable
    ensures Tiled(o.g.m0, o.g.lo, o.g.hi) && h in Headers(o.g.m0, o.g.lo, o.g.hi) && Tiled(o.g.m0, o.g.lo, h)
    ensures Tiled(m2, o.g.lo, h)
    ensures o.Place(h) == if o.compacted then NewIndex(m2, o.g.lo, h, o.g.reachable) else h
  {
    hide Traced, Tiled, Headers, NewIndex;
    TracedFacts(o.g, m2);
    TracedTiling(o.g, m2);
    TiledUpTo(o.g.m0, o.g.lo, o.g.hi, h);
    TiledUpTo(m2, o.g.lo, o.g.hi, h);
    SameIndex(o.g, m2, h);
  }

  /** A cell of a live object that holds no weak pointer and no link. */
  lemma TracedCell(g: Start, m2: seq<Cell>, h: nat, x: nat)
    requires Traced(g, m2) && h in g.reachable && h < |g.m0| && h < x < Next(g.m0, h) && !IsWeakSlot(g.m0, h, x)
    requires !IsReserved(g.m0, h, x)
    ensures x < |m2| == |g.m0| && m2[x] == g.m0[x]
  {
    assert CellKept(g, m2, h, x);
  }

  lemma AliveInUse(g: Start, m2: seq<Cell>, h: nat)
    requires Traced(g, m2) && h in g.reachable
    ensures InUse(g, h) && Tiled(g.m0, g.lo, g.hi) && h in Headers(g.m0, g.lo, g.hi) && Leads(g, h) <= g.reachable
    ensures Fits(g.classOf, g.m0, h) && h + 2 <= |g.m0| && h + 2 <= Next(g.m0, h) <= g.hi <= |g.m0|
    ensures KindOf(g.m0[h]) != GCT_FREE
  {
    hide CellKept, AtRest;
    Usable(g, h);
    HeaderBounds(g.m0, g.lo, g.hi, h);
  }

  /** The first cells of a live object: all that says where its pointers are. */
  lemma TracedFirstCells(g: Start, m2: seq<Cell>, h: nat)
    requires Traced(g, m2) && h in g.reachable
    ensures h + 1 < |m2| == |g.m0| && m2[h + 1] == g.m0[h + 1]
    ensures HasMonitorCell(KindOf(g.m0[h])) ==> h + 2 < |m2| && m2[h + 2] == g.m0[h + 2]
    ensures KindOf(g.m0[h]) == GCT_OBJECTARRAY ==> h + 3 < |m2| && m2[h + 3] == g.m0[h + 3]
  {
    hide Traced, KindOf, InUse, Leads, Tiled, Headers, SizeOf;
    AliveInUse(g, m2, h);
    TracedCell(g, m2, h, h + 1);
    if HasMonitorCell(KindOf(g.m0[h])) {
      TracedCell(g, m2, h, h + 2);
    }
    if KindOf(g.m0[h]) == GCT_OBJECTARRAY {
      TracedCell(g, m2, h, h + 3);
    }
  }

  /** Live objects still fit, and have their pointers where they had them. */
  lemma TracedFits(g: Start, m2: seq<Cell>, h: nat)
    requires Traced(g, m2) && h in g.reachable && LaidOut(g.classOf)
    ensures Fits(g.classOf, m2, h) && Updatable(g.classOf, m2, h)
    ensures PointerSlots(g.classOf, m2, h) == PointerSlots(g.classOf, g.m0, h)
  {
    AliveInUse(g, m2, h);
    TracedHeader(g, m2, h);
    TracedFirstCells(g, m2, h);
    FieldsDistinct(g.classOf, m2[h + 1]);
    hide Traced, InUse, Leads, LaidOut, KindOf, SizeOf, Updatable;
    SameFits(g, m2, h);
    SamePointerSlots(g, m2, h);
    FitsUpdatable(g.classOf, m2, h);
  }

  lemma FieldsDistinct(classOf: Cell -> Class, c: Cell)
    requires LaidOut(classOf)
    ensures NoDuplicates(InstanceOffsets(classOf(c)))
  {
  }

  lemma SameFits(g: Start, m2: seq<Cell>, h: nat)
    requires h + 2 <= |m2| == |g.m0| && SizeOf(m2[h]) == SizeOf(g.m0[h]) && KindOf(m2[h]) == KindOf(g.m0[h])
    requires m2[h + 1] == g.m0[h + 1]
    requires (KindOf(g.m0[h]) == GCT_OBJECTARRAY ==> h + 3 < |m2| && m2[h + 3] == g.m0[h + 3])
    requires Fits(g.classOf, g.m0, h)
    ensures Fits(g.classOf, m2, h)
  {
    hide KindOf, SizeOf;
  }

  lemma SamePointerSlots(g: Start, m2: seq<Cell>, h: nat)
    requires h + 2 <= |m2| == |g.m0| && KindOf(m2[h]) == KindOf(g.m0[h]) && m2[h + 1] == g.m0[h + 1]
    requires HasMonitorCell(KindOf(g.m0[h])) ==> h + 2 < |m2| && m2[h + 2] == g.m0[h + 2]
    requires KindOf(g.m0[h]) == GCT_OBJECTARRAY ==> h + 3 < |m2| && m2[h + 3] == g.m0[h + 3]
    ensures PointerSlots(g.classOf, m2, h) == PointerSlots(g.classOf, g.m0, h)
  {
    hide KindOf, SlotsAt, Range;
  }
}
