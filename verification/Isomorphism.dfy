/** The heap after a collection: well formed again, and the same graph as the reachable part of the heap before. */
module Isomorphism {
  import opened Cells
  import opened FreeList
  import opened Objects
  import opened HeapShape
  import opened Marking
  import opened WeakPointers
  import opened Tracing
  import opened Clearing
  import opened Sweeping
  import opened HeapUpdate
  import opened Sliding
  import opened Outcomes
  import opened Preservation

  lemma PreservedFacts(o: Outcome, m5: seq<Cell>, chunks: seq<Chunk>, first: Cell)
    requires Preserved(o, m5, chunks, first)
    ensures Startable(o.g) && AtRest(o.g.classOf, o.g.m0, o.g.lo, o.g.hi) && Row(o, m5, chunks)
    ensures Free(m5, o.g.hi, chunks, first)
    ensures Tiled(o.g.m0, o.g.lo, o.g.hi) && Tiled(m5, o.g.lo, o.g.hi) && |m5| == |o.g.m0| <= MAX_CELLS
    ensures 1 <= o.g.lo <= o.g.hi <= |m5|
  {
    hide Copy, LaidOut, Free;
  }

  /** A reachable object and its copy. */
  lemma CopyFacts(o: Outcome, m5: seq<Cell>, chunks: seq<Chunk>, first: Cell, h: nat)
    requires Preserved(o, m5, chunks, first) && h in o.g.reachable
    ensures Copy(o, m5, h) && InUse(o.g, h) && Leads(o.g, h) <= o.g.reachable && Fits(o.g.classOf, o.g.m0, h)
    ensures h + 2 <= |o.g.m0| && KindOf(o.g.m0[h]) != GCT_FREE
    ensures Tiled(o.g.m0, o.g.lo, o.g.hi) && h in Headers(o.g.m0, o.g.lo, o.g.hi)
    ensures Tiled(m5, o.g.lo, o.g.hi) && o.Place(h) in Headers(m5, o.g.lo, o.g.hi)
    ensures o.Place(h) + 2 <= |m5| && m5[o.Place(h)] == o.g.m0[h]
  {
    hide AtRest, LaidOut, Free, CellMoved, InUse, Leads, Tiled, Headers, Fits;
    PreservedFacts(o, m5, chunks, first);
    Usable(o.g, h);
    InUseFacts(o.g, h);
    assert o.Place(h) in Places(o);
  }

  lemma InUseFacts(g: Start, h: nat)
    requires InUse(g, h)
    ensures Tiled(g.m0, g.lo, g.hi) && h in Headers(g.m0, g.lo, g.hi) && h + 2 <= |g.m0|
    ensures Fits(g.classOf, g.m0, h) && KindOf(g.m0[h]) != GCT_FREE
  {
  }

  /** No other cell than those behind the common ones of an object is rewritten, but in monitors and threads. */
  lemma SlotsBehind(classOf: Cell -> Class, m: seq<Cell>, h: nat, x: nat)
    requires h + 1 < |m| && KindOf(m[h]) != GCT_MONITOR && KindOf(m[h]) != GCT_THREAD
    requires x in PointerSlots(classOf, m, h)
    ensures h + 2 <= x && (KindOf(m[h]) == GCT_OBJECTARRAY ==> x != h + 3)
  {
    hide KindOf;
  }

  /** The copy of an object has the same type, size, class and lengths. */
  lemma CopyFirstCells(o: Outcome, m5: seq<Cell>, chunks: seq<Chunk>, first: Cell, h: nat)
    requires Preserved(o, m5, chunks, first) && h in o.g.reachable
    requires h < |o.g.m0| && KindOf(o.g.m0[h]) != GCT_MONITOR && KindOf(o.g.m0[h]) != GCT_THREAD
    ensures h + 1 < |o.g.m0| && o.Place(h) + 1 < |m5| && m5[o.Place(h) + 1] == o.g.m0[h + 1]
    ensures KindOf(o.g.m0[h]) == GCT_OBJECTARRAY ==>
              h + 3 < |o.g.m0| && o.Place(h) + 3 < |m5| && m5[o.Place(h) + 3] == o.g.m0[h + 3]
  {
    hide Preserved, InUse, Leads, LaidOut, Tiled, Headers, KindOf, PointerMoved, WeakPointerMoved, PointerSlots;
    CopyFacts(o, m5, chunks, first, h);
    assert CellMoved(o, m5, h, h + 1);
    if h + 1 in PointerSlots(o.g.classOf, o.g.m0, h) {
      SlotsBehind(o.g.classOf, o.g.m0, h, h + 1);
    }
    if KindOf(o.g.m0[h]) == GCT_OBJECTARRAY {
      assert CellMoved(o, m5, h, h + 3);
      if h + 3 in PointerSlots(o.g.classOf, o.g.m0, h) {
        SlotsBehind(o.g.classOf, o.g.m0, h, h + 3);
      }
    }
  }

  lemma FitsMoved(classOf: Cell -> Class, m4: seq<Cell>, n: nat, m: seq<Cell>, h: nat)
    requires Fits(classOf, m, h) && n + 2 <= |m4| && m4[n] == m[h] && n + (Next(m, h) - h) <= |m4|
    requires KindOf(m[h]) != GCT_MONITOR && KindOf(m[h]) != GCT_THREAD ==> m4[n + 1] == m[h + 1]
    requires KindOf(m[h]) == GCT_OBJECTARRAY ==> n + 3 < |m4| && h + 3 < |m| && m4[n + 3] == m[h + 3]
    ensures Fits(classOf, m4, n)
  {
    hide KindOf, SizeOf;
  }

  lemma CopyFits(o: Outcome, m5: seq<Cell>, chunks: seq<Chunk>, first: Cell, h: nat)
    requires Preserved(o, m5, chunks, first) && h in o.g.reachable
    ensures Fits(o.g.classOf, m5, o.Place(h))
  {
    hide Preserved, InUse, Leads, LaidOut, Tiled, Headers, KindOf, SizeOf, CellMoved, Fits;
    CopyFacts(o, m5, chunks, first, h);
    if KindOf(o.g.m0[h]) != GCT_MONITOR && KindOf(o.g.m0[h]) != GCT_THREAD {
      CopyFirstCells(o, m5, chunks, first, h);
    }
    FitsMoved(o.g.classOf, m5, o.Place(h), o.g.m0, h);
  }

  /** Strong pointers stay where they are in their object. */
  lemma CopyStrongSlots(o: Outcome, m5: seq<Cell>, chunks: seq<Chunk>, first: Cell, h: nat)
    requires Preserved(o, m5, chunks, first) && h in o.g.reachable
    ensures h + 1 < |o.g.m0| && (KindOf(o.g.m0[h]) == GCT_OBJECTARRAY ==> h + 3 < |o.g.m0|)
    ensures o.Place(h) + 1 < |m5| && (KindOf(m5[o.Place(h)]) == GCT_OBJECTARRAY ==> o.Place(h) + 3 < |m5|)
    ensures Shifted(StrongSlots(o.g.classOf, m5, o.Place(h)), StrongSlots(o.g.classOf, o.g.m0, h), o.Place(h), h)
  {
    hide Preserved, InUse, Leads, LaidOut, Tiled, Headers, KindOf, SizeOf, CellMoved, Fits, Shifted, SlotsAt, Range,
      InstanceOffsets;
    CopyFacts(o, m5, chunks, first, h);
    var n, m := o.Place(h), o.g.m0;
    var kind := KindOf(m[h]);
    if kind != GCT_MONITOR && kind != GCT_THREAD {
      CopyFirstCells(o, m5, chunks, first, h);
    }
    if kind == GCT_INSTANCE {
      FieldsShifted(InstanceOffsets(o.g.classOf(m[h + 1])), n + 3, h + 3, n, h);
    } else if kind == GCT_OBJECTARRAY {
      RangeShifted(m[h + 3], n + 4, h + 4, n, h);
    } else if kind == GCT_POINTERLIST {
      RangeShifted(m[h + 1], n + 2, h + 2, n, h);
    } else {
      ListShifted(kind, n, h);
    }
  }

  /** Strong pointers are among the pointers that are rewritten, and none of them is weak. */
  lemma StrongIsSlot(classOf: Cell -> Class, m: seq<Cell>, h: nat, x: nat)
    requires h + 1 < |m| && (KindOf(m[h]) == GCT_OBJECTARRAY ==> h + 3 < |m|) && x in StrongSlots(classOf, m, h)
    ensures x in PointerSlots(classOf, m, h) && !IsWeakSlot(m, h, x) && !IsReserved(m, h, x)
  {
    hide KindOf;
  }

  /** The address of the object that the collection has put at Place(c). */
  ghost function NewPointer(o: Outcome, c: nat): int {
    CELL * (o.Place(c) + HEADERSIZE)
  }

  /** w is what a strong pointer, or an untagged monitor pointer, v has become. */
  ghost predicate Follows(o: Outcome, v: int, w: int) {
    if InHeap(o.g.lo, o.g.hi, v) then HeaderAt(v) in o.g.reachable && w == NewPointer(o, HeaderAt(v)) else w == v
  }

  /** A strong pointer of a live object leads to a live object. */
  lemma StrongTarget(g: Start, h: nat, x: nat)
    requires InUse(g, h) && Leads(g, h) <= g.reachable && 1 <= g.lo
    requires x in StrongSlots(g.classOf, g.m0, h)
    ensures h < x < Next(g.m0, h) && x < |g.m0|
    ensures InHeap(g.lo, g.hi, g.m0[x]) ==> CELL <= g.m0[x] && g.m0[x] % CELL == 0 && HeaderAt(g.m0[x]) in g.reachable
  {
    hide Fits, KindOf, SizeOf, StrongSlots;
    if InHeap(g.lo, g.hi, g.m0[x]) {
      assert HeaderAt(g.m0[x]) in Leads(g, h);
    }
  }

  lemma InsideObject(o: Outcome, m5: seq<Cell>, chunks: seq<Chunk>, first: Cell, v: Cell, tag: nat)
    requires Preserved(o, m5, chunks, first) && tag < 4 && CELL + tag <= v && (v - tag) % CELL == 0
    requires HeaderAt(v - tag) in o.g.reachable
    ensures Inside(o.g, HeaderAt(v - tag), v) && v == CELL * (HeaderAt(v - tag) + HEADERSIZE) + tag
  {
    hide Preserved, InUse, Leads, Tiled, Headers, KindOf;
    CopyFacts(o, m5, chunks, first, HeaderAt(v - tag));
  }

  /** A strong pointer after the collection. */
  lemma StrongMoved(o: Outcome, m5: seq<Cell>, chunks: seq<Chunk>, first: Cell, h: nat, x: nat)
    requires Preserved(o, m5, chunks, first) && h in o.g.reachable
    requires h + 1 < |o.g.m0| && (KindOf(o.g.m0[h]) == GCT_OBJECTARRAY ==> h + 3 < |o.g.m0|)
    requires x in StrongSlots(o.g.classOf, o.g.m0, h)
    ensures h < x < |o.g.m0| && 0 <= x - h + o.Place(h) < |m5|
    ensures Follows(o, o.g.m0[x], m5[x - h + o.Place(h)])
  {
    hide AtRest, Row, Free, Startable, Preserved, Copy, CellMoved, InUse, Leads, Tiled, Headers, KindOf, Fits,
      StrongSlots, Follows, Outcome.Place, HeaderAt, InHeap, PointerMoved, Inside;
    CopyFacts(o, m5, chunks, first, h);
    PreservedFacts(o, m5, chunks, first);
    StrongTarget(o.g, h, x);
    CopyCell(o, m5, h, x);
    StrongValue(o, m5, h, x);
    var v := o.g.m0[x];
    if InHeap(o.g.lo, o.g.hi, v) {
      InsideObject(o, m5, chunks, first, v, 0);
    }
    FollowsFrom(o, v, m5[x - h + o.Place(h)], 0);
  }

  lemma CopyCell(o: Outcome, m5: seq<Cell>, h: nat, x: nat)
    requires Copy(o, m5, h) && h < |o.g.m0| && h < x < Next(o.g.m0, h)
    ensures x < |o.g.m0| && 0 <= x - h + o.Place(h) < |m5| && CellMoved(o, m5, h, x)
  {
  }

  lemma StrongValue(o: Outcome, m5: seq<Cell>, h: nat, x: nat)
    requires x < |o.g.m0| && 0 <= x - h + o.Place(h) < |m5| && CellMoved(o, m5, h, x)
    requires h + 1 < |o.g.m0| && (KindOf(o.g.m0[h]) == GCT_OBJECTARRAY ==> h + 3 < |o.g.m0|)
    requires x in StrongSlots(o.g.classOf, o.g.m0, h)
    ensures PointerMoved(o, o.g.m0[x], m5[x - h + o.Place(h)])
  {
    hide PointerMoved, WeakPointerMoved, StrongSlots, PointerSlots, IsWeakSlot, IsReserved;
    StrongIsSlot(o.g.classOf, o.g.m0, h, x);
  }

  /** A pointer, tagged or not, that has moved along with its object. */
  lemma FollowsFrom(o: Outcome, v: Cell, w: Cell, tag: nat)
    requires PointerMoved(o, v, w) && tag < 4 && (tag == 0 || (v - tag) % CELL == 0)
    requires InHeap(o.g.lo, o.g.hi, v - tag) ==>
               && CELL + tag <= v && HeaderAt(v - tag) in o.g.reachable
               && Inside(o.g, HeaderAt(v - tag), v) && v == CELL * (HeaderAt(v - tag) + HEADERSIZE) + tag
    ensures Follows(o, v - tag, w - tag)
  {
    hide Inside, Outcome.Place;
  }

  /** The monitor of a live object is live. */
  lemma MonitorTarget(g: Start, h: nat)
    requires InUse(g, h) && Leads(g, h) <= g.reachable && 1 <= g.lo && HasRealMonitor(g.m0, h)
    ensures h + 2 < |g.m0| && (g.m0[h + 2] - MHC_MONITOR) % CELL == 0
    ensures InHeap(g.lo, g.hi, MonitorOf(g.m0, h)) ==>
              && CELL + MHC_MONITOR <= g.m0[h + 2] && HeaderAt(MonitorOf(g.m0, h)) in g.reachable
              && HeaderAt(MonitorOf(g.m0, h)) < |g.m0| && KindOf(g.m0[HeaderAt(MonitorOf(g.m0, h))]) == GCT_MONITOR
  {
    hide Fits, SizeOf, StrongSlots;
    if InHeap(g.lo, g.hi, MonitorOf(g.m0, h)) {
      assert HeaderAt(MonitorOf(g.m0, h)) in Leads(g, h);
      assert PointsWell(g.m0, g.lo, g.hi, MonitorOf(g.m0, h));
      HeaderBounds(g.m0, g.lo, g.hi, HeaderAt(MonitorOf(g.m0, h)));
    }
  }

  /** The monitorOrHashCode cell after the collection: a hash code is kept, a tagged pointer is rewritten. */
  lemma MhcMoved(o: Outcome, m5: seq<Cell>, chunks: seq<Chunk>, first: Cell, h: nat)
    requires Preserved(o, m5, chunks, first) && h in o.g.reachable && h < |o.g.m0| && HasMonitorCell(KindOf(o.g.m0[h]))
    ensures h + 2 < |o.g.m0| && o.Place(h) + 2 < |m5|
    ensures var v, w := o.g.m0[h + 2], m5[o.Place(h) + 2];
            w % 4 == v % 4 && if v % 4 == MHC_UNLOCKED then w == v else PointerMoved(o, v, w)
  {
    hide Preserved, InUse, Leads, Tiled, Headers, KindOf, PointerMoved, WeakPointerMoved, SlotsAt, Range,
      InstanceOffsets, CellMoved;
    CopyFacts(o, m5, chunks, first, h);
    assert CellMoved(o, m5, h, h + 2);
    MhcSlot(o, m5, h);
  }

  lemma MhcSlot(o: Outcome, m5: seq<Cell>, h: nat)
    requires h + 2 < |o.g.m0| && HasMonitorCell(KindOf(o.g.m0[h])) && CellMoved(o, m5, h, h + 2)
    requires KindOf(o.g.m0[h]) == GCT_OBJECTARRAY ==> h + 3 < |o.g.m0|
    ensures var v, w := o.g.m0[h + 2], m5[o.Place(h) + 2];
            w % 4 == v % 4 && if v % 4 == MHC_UNLOCKED then w == v else PointerMoved(o, v, w)
  {
    hide KindOf, InstanceOffsets, Inside, WeakPointerMoved;
    var offsets := InstanceOffsets(o.g.classOf(o.g.m0[h + 1]));
    assert h + 2 !in SlotsAt(h + 3, offsets);
    if o.g.m0[h + 2] % 4 != MHC_UNLOCKED {
      assert MonitorSlot(o.g.m0, h)[0] == h + 2;
    } else {
      assert MonitorSlot(o.g.m0, h) == [];
    }
  }

  /** A real monitor after the collection. */
  lemma MonitorMoved(o: Outcome, m5: seq<Cell>, chunks: seq<Chunk>, first: Cell, h: nat)
    requires Preserved(o, m5, chunks, first) && h in o.g.reachable
    ensures h < |o.g.m0| && o.Place(h) < |m5| && (HasRealMonitor(m5, o.Place(h)) <==> HasRealMonitor(o.g.m0, h))
    ensures HasRealMonitor(o.g.m0, h) ==>
              && h + 2 < |o.g.m0| && o.Place(h) + 2 < |m5|
                 && Follows(o, MonitorOf(o.g.m0, h), MonitorOf(m5, o.Place(h)))
  {
    hide AtRest, Row, Free, Startable, Preserved, Copy, CellMoved, InUse, Leads, Tiled, Headers, KindOf, Fits, Follows,
      Outcome.Place, PointerMoved, Inside, HeaderAt, InHeap;
    CopyFacts(o, m5, chunks, first, h);
    PreservedFacts(o, m5, chunks, first);
    if HasMonitorCell(KindOf(o.g.m0[h])) {
      MhcMoved(o, m5, chunks, first, h);
      if HasRealMonitor(o.g.m0, h) {
        MonitorTarget(o.g, h);
        if InHeap(o.g.lo, o.g.hi, MonitorOf(o.g.m0, h)) {
          InsideObject(o, m5, chunks, first, o.g.m0[h + 2], MHC_MONITOR);
        }
        FollowsFrom(o, o.g.m0[h + 2], m5[o.Place(h) + 2], MHC_MONITOR);
      }
    }
  }

  /** The new address of a live object is a sound pointer. */
  lemma WellPlaced(o: Outcome, m5: seq<Cell>, chunks: seq<Chunk>, first: Cell, c: nat)
    requires Preserved(o, m5, chunks, first) && c in o.g.reachable
    ensures Tiled(m5, o.g.lo, o.g.hi) && PointsWell(m5, o.g.lo, o.g.hi, NewPointer(o, c))
    ensures InHeap(o.g.lo, o.g.hi, NewPointer(o, c))
    ensures NewPointer(o, c) % CELL == 0 && HeaderAt(NewPointer(o, c)) == o.Place(c)
    ensures c < |o.g.m0| && o.Place(c) < |m5| && m5[o.Place(c)] == o.g.m0[c]
  {
    hide AtRest, Row, Free, Startable, Preserved, Copy, InUse, Leads, Tiled, Headers, KindOf, Fits, Outcome.Place;
    CopyFacts(o, m5, chunks, first, c);
    HeaderBounds(m5, o.g.lo, o.g.hi, o.Place(c));
  }

  /** What a strong pointer or a monitor becomes is a sound pointer. */
  lemma FollowsWell(o: Outcome, m5: seq<Cell>, chunks: seq<Chunk>, first: Cell, v: int, w: int)
    requires Preserved(o, m5, chunks, first) && Follows(o, v, w)
    ensures Tiled(m5, o.g.lo, o.g.hi) && PointsWell(m5, o.g.lo, o.g.hi, w)
    ensures (InHeap(o.g.lo, o.g.hi, w) <==> InHeap(o.g.lo, o.g.hi, v))
    ensures InHeap(o.g.lo, o.g.hi, v) ==>
              && HeaderAt(v) in o.g.reachable && HeaderAt(w) == o.Place(HeaderAt(v))
              && HeaderAt(v) < |o.g.m0| && o.Place(HeaderAt(v)) < |m5|
                 && m5[o.Place(HeaderAt(v))] == o.g.m0[HeaderAt(v)]
  {
    hide AtRest, Row, Free, Startable, Preserved, Tiled, Headers, KindOf, Outcome.Place, NewPointer, InHeap;
    PreservedFacts(o, m5, chunks, first);
    if InHeap(o.g.lo, o.g.hi, v) {
      WellPlaced(o, m5, chunks, first, HeaderAt(v));
    } else {
      OutsideIsWell(m5, o.g.lo, o.g.hi, w);
    }
  }

  lemma OutsideIsWell(m: seq<Cell>, lo: nat, hi: nat, v: int)
    requires Tiled(m, lo, hi) && !InHeap(lo, hi, v)
    ensures PointsWell(m, lo, hi, v)
  {
  }

  /** The slot of the copy that corresponds to a strong slot. */
  lemma OldStrongSlot(o: Outcome, m5: seq<Cell>, chunks: seq<Chunk>, first: Cell, h: nat, y: nat) returns (x: nat)
    requires Preserved(o, m5, chunks, first) && h in o.g.reachable
    requires o.Place(h) + 1 < |m5| && (KindOf(m5[o.Place(h)]) == GCT_OBJECTARRAY ==> o.Place(h) + 3 < |m5|)
    requires y in StrongSlots(o.g.classOf, m5, o.Place(h))
    ensures h + 1 < |o.g.m0| && (KindOf(o.g.m0[h]) == GCT_OBJECTARRAY ==> h + 3 < |o.g.m0|)
    ensures x in StrongSlots(o.g.classOf, o.g.m0, h) && y == x - h + o.Place(h)
    ensures h < x < Next(o.g.m0, h) && x < |o.g.m0| && y < |m5| && Follows(o, o.g.m0[x], m5[y])
  {
    hide AtRest, Row, Free, Startable, Preserved, Copy, InUse, Leads, Tiled, Headers, KindOf, Fits, StrongSlots,
      Outcome.Place, Follows, InHeap;
    CopyFacts(o, m5, chunks, first, h);
    PreservedFacts(o, m5, chunks, first);
    CopyStrongSlots(o, m5, chunks, first, h);
    var s, s4 := StrongSlots(o.g.classOf, o.g.m0, h), StrongSlots(o.g.classOf, m5, o.Place(h));
    ShiftedMember(s4, s, o.Place(h), h, y);
    x := y - o.Place(h) + h;
    StrongTarget(o.g, h, x);
    StrongMoved(o, m5, chunks, first, h, x);
  }

  /** The copy of a live object is sound. */
  lemma CopySound(o: Outcome, m5: seq<Cell>, chunks: seq<Chunk>, first: Cell, h: nat)
    requires Preserved(o, m5, chunks, first) && h in o.g.reachable
    ensures Tiled(m5, o.g.lo, o.g.hi) && Fits(o.g.classOf, m5, o.Place(h))
    ensures Sound(o.g.classOf, m5, o.g.lo, o.g.hi, o.Place(h))
  {
    hide AtRest, Row, Free, Startable, Preserved, Copy, InUse, Leads, Tiled, Headers, KindOf, StrongSlots,
      Outcome.Place, Follows, InHeap, PointsWell;
    CopyFacts(o, m5, chunks, first, h);
    CopyFits(o, m5, chunks, first, h);
    CopyStrongSlots(o, m5, chunks, first, h);
    PreservedFacts(o, m5, chunks, first);
    var n := o.Place(h);
    forall y | y in StrongSlots(o.g.classOf, m5, n)
      ensures n < y < Next(m5, n) && y < |m5| && PointsWell(m5, o.g.lo, o.g.hi, m5[y])
    {
      var x := OldStrongSlot(o, m5, chunks, first, h, y);
      FollowsWell(o, m5, chunks, first, o.g.m0[x], m5[y]);
    }
    MonitorMoved(o, m5, chunks, first, h);
    if HasRealMonitor(m5, n) && InHeap(o.g.lo, o.g.hi, MonitorOf(m5, n)) {
      FollowsWell(o, m5, chunks, first, MonitorOf(o.g.m0, h), MonitorOf(m5, n));
      MonitorTarget(o.g, h);
    }
  }

  /** Whatever is no copy of a live object is a free chunk. */
  lemma CopyOrChunk(o: Outcome, m5: seq<Cell>, chunks: seq<Chunk>, first: Cell, n: nat) returns (h: nat)
    requires Preserved(o, m5, chunks, first) && Tiled(m5, o.g.lo, o.g.hi) && n in Headers(m5, o.g.lo, o.g.hi)
    ensures n < |m5| && if KindOf(m5[n]) == GCT_FREE then exists c | c in chunks ::
              c.start == n && 2 <= c.cells && c.End() <= |m5| <= MAX_CELLS && m5[n] == ChunkHeader(c.cells)
            else h in o.g.reachable && n == o.Place(h)
  {
    hide AtRest, Startable, Preserved, Copy, InUse, Leads, Tiled, Headers, KindOf, StrongSlots, Outcome.Place,
      ChunkHeader, Linked;
    PreservedFacts(o, m5, chunks, first);
    HeaderBounds(m5, o.g.lo, o.g.hi, n);
    if n in Places(o) {
      h :| h in o.g.reachable && n == o.Place(h);
      CopyFacts(o, m5, chunks, first, h);
    } else {
      var c :| c in chunks && c.start == n;
      ChunkHeaderFacts(c.cells);
      h := 0;
    }
  }

  lemma ChunkFits(classOf: Cell -> Class, m: seq<Cell>, h: nat)
    requires h < |m| && h + 2 <= Next(m, h) <= |m| && KindOf(m[h]) == GCT_FREE
    ensures Fits(classOf, m, h)
  {
    hide KindOf;
  }

  /** After the collection the heap is well formed. */
  lemma WellFormedAfter(o: Outcome, m5: seq<Cell>, chunks: seq<Chunk>, first: Cell)
    requires Preserved(o, m5, chunks, first)
    ensures WellFormed(o.g.classOf, m5, o.g.lo, o.g.hi)
  {
    hide AtRest, Startable, Preserved, Row, Free, Fits, Sound, Headers, KindOf, Outcome.Place, ChunkHeader, Next;
    PreservedFacts(o, m5, chunks, first);
    forall n | n in Headers(m5, o.g.lo, o.g.hi)
      ensures n < |m5| && Fits(o.g.classOf, m5, n)
      ensures (KindOf(m5[n]) != GCT_FREE ==> Sound(o.g.classOf, m5, o.g.lo, o.g.hi, n))
    {
      HeaderBounds(m5, o.g.lo, o.g.hi, n);
      var h := CopyOrChunk(o, m5, chunks, first, n);
      if KindOf(m5[n]) == GCT_FREE {
        ChunkFits(o.g.classOf, m5, n);
      } else {
        CopySound(o, m5, chunks, first, h);
      }
    }
  }

  /** The weak slot of the copy that corresponds to a weak slot. */
  lemma OldWeakSlot(o: Outcome, m5: seq<Cell>, chunks: seq<Chunk>, first: Cell, h: nat, k: nat) returns (x: nat)
    requires Preserved(o, m5, chunks, first) && h in o.g.reachable && IsWeakSlot(m5, o.Place(h), k)
    ensures IsWeakSlot(o.g.m0, h, x) && k == x - h + o.Place(h) && h < |o.g.m0| && h < x < Next(o.g.m0, h)
    ensures x < |o.g.m0| && k < |m5| && WeakPointerMoved(o, o.g.m0[x], m5[k])
  {
    hide AtRest, Row, Free, Startable, Preserved, Copy, InUse, Leads, Tiled, Headers, KindOf, Outcome.Place,
      WeakPointerMoved, PointerMoved;
    CopyFacts(o, m5, chunks, first, h);
    CopyFirstCells(o, m5, chunks, first, h);
    x := k - o.Place(h) + h;
    CopyCell(o, m5, h, x);
  }

  /** A weak pointer of the heap before, as what it has become. */
  lemma WeakPointerAfter(o: Outcome, m5: seq<Cell>, chunks: seq<Chunk>, first: Cell, v: Cell, w: Cell)
    requires Preserved(o, m5, chunks, first) && Tiled(o.g.m0, o.g.lo, o.g.hi) && WeakPointer(o.g.m0, o.g.lo, o.g.hi, v)
    requires WeakPointerMoved(o, v, w)
    ensures Tiled(m5, o.g.lo, o.g.hi) && WeakPointer(m5, o.g.lo, o.g.hi, w)
  {
    hide AtRest, Row, Free, Startable, Preserved, Tiled, Headers, KindOf, Outcome.Place;
    PreservedFacts(o, m5, chunks, first);
    if InHeap(o.g.lo, o.g.hi, v) && HeaderAt(v) in o.g.reachable {
      WellPlaced(o, m5, chunks, first, HeaderAt(v));
    }
  }

  lemma WeakSoundAfter(o: Outcome, m5: seq<Cell>, chunks: seq<Chunk>, first: Cell)
    requires Preserved(o, m5, chunks, first)
    ensures Tiled(m5, o.g.lo, o.g.hi) && WeakSound(m5, o.g.lo, o.g.hi)
  {
    hide AtRest, Row, Free, Startable, Preserved, Tiled, Headers, KindOf, Outcome.Place, IsWeakSlot, WeakPointer,
      ChunkHeader;
    PreservedFacts(o, m5, chunks, first);
    forall n, k: nat | n in Headers(m5, o.g.lo, o.g.hi) && IsWeakSlot(m5, n, k)
      ensures k < |m5| && WeakPointer(m5, o.g.lo, o.g.hi, m5[k])
    {
      WeakIsNotFree(m5, n, k);
      var h := CopyOrChunk(o, m5, chunks, first, n);
      CopyFacts(o, m5, chunks, first, h);
      var x := OldWeakSlot(o, m5, chunks, first, h, k);
      AtRestFacts(o.g.classOf, o.g.m0, o.g.lo, o.g.hi, h, x);
      WeakPointerAfter(o, m5, chunks, first, o.g.m0[x], m5[k]);
    }
  }

  lemma WeakIsNotFree(m: seq<Cell>, h: nat, k: nat)
    requires IsWeakSlot(m, h, k)
    ensures h < |m| && KindOf(m[h]) != GCT_FREE
  {
  }

  lemma RestingHeader(classOf: Cell -> Class, m: seq<Cell>, lo: nat, hi: nat, h: nat)
    requires AtRest(classOf, m, lo, hi) && Tiled(m, lo, hi) && h in Headers(m, lo, hi)
    ensures h + 1 < |m| && !IsMarked(m[h]) && HasReferent(classOf, m, h)
  {
  }

  /** After the collection the heap is ready for the next one. */
  lemma AtRestAfter(o: Outcome, m5: seq<Cell>, chunks: seq<Chunk>, first: Cell)
    requires Preserved(o, m5, chunks, first)
    ensures AtRest(o.g.classOf, m5, o.g.lo, o.g.hi)
  {
    hide AtRest, Row, Free, Startable, Preserved, Tiled, Headers, KindOf, Outcome.Place, ChunkHeader, WellFormed,
      WeakSound, IsMarked, InUse, Leads, Copy;
    WellFormedAfter(o, m5, chunks, first);
    WeakSoundAfter(o, m5, chunks, first);
    PreservedFacts(o, m5, chunks, first);
    forall n | n in Headers(m5, o.g.lo, o.g.hi)
      ensures n < |m5| && !IsMarked(m5[n]) && HasReferent(o.g.classOf, m5, n)
    {
      var h := CopyOrChunk(o, m5, chunks, first, n);
      HeaderBounds(m5, o.g.lo, o.g.hi, n);
      if KindOf(m5[n]) == GCT_FREE {
        var c :| c in chunks && c.start == n && 2 <= c.cells && c.End() <= |m5| <= MAX_CELLS
          && m5[n] == ChunkHeader(c.cells);
        ChunkHeaderFacts(c.cells);
      } else {
        CopyFacts(o, m5, chunks, first, h);
        RestingHeader(o.g.classOf, o.g.m0, o.g.lo, o.g.hi, h);
        if KindOf(m5[n]) == GCT_WEAKREFERENCE {
          CopyFirstCells(o, m5, chunks, first, h);
        }
      }
    }
    AtRestFrom(o.g.classOf, m5, o.g.lo, o.g.hi);
  }

  lemma AtRestFrom(classOf: Cell -> Class, m: seq<Cell>, lo: nat, hi: nat)
    requires WellFormed(classOf, m, lo, hi) && Tiled(m, lo, hi) && WeakSound(m, lo, hi)
    requires forall h | h in Headers(m, lo, hi) :: h < |m| && !IsMarked(m[h]) && HasReferent(classOf, m, h)
    ensures AtRest(classOf, m, lo, hi)
  {
  }

  /** The heap after the collection, as a graph. */
  ghost function After(o: Outcome, m5: seq<Cell>): Start {
    Start(o.g.classOf, m5, o.g.lo, o.g.hi, {})
  }

  lemma CopyInUse(o: Outcome, m5: seq<Cell>, chunks: seq<Chunk>, first: Cell, h: nat)
    requires Preserved(o, m5, chunks, first) && h in o.g.reachable
    ensures InUse(After(o, m5), o.Place(h))
  {
    hide AtRest, Row, Free, Startable, Preserved, Tiled, Headers, KindOf, Outcome.Place, WellFormed, Copy, Fits, Sound,
      Leads;
    WellFormedAfter(o, m5, chunks, first);
    CopyFacts(o, m5, chunks, first, h);
    CopySound(o, m5, chunks, first, h);
  }

  /**
   * c is one of the objects that the object at h leads to, by a strong pointer in cell x or, if x is h + 2, as its
   * monitor.
   */
  ghost predicate LeadsBy(g: Start, h: nat, x: nat, v: int) {
    && InUse(g, h) && InHeap(g.lo, g.hi, v)
    && ((x in StrongSlots(g.classOf, g.m0, h) && x < |g.m0| && v == g.m0[x])
        || (HasRealMonitor(g.m0, h) && v == MonitorOf(g.m0, h)))
  }

  lemma LeadsFrom(g: Start, h: nat, x: nat, v: int)
    requires LeadsBy(g, h, x, v)
    ensures HeaderAt(v) in Leads(g, h)
  {
    hide KindOf, Fits, StrongSlots;
  }

  lemma LeadsVia(g: Start, h: nat, c: int) returns (x: nat, v: int)
    requires c in Leads(g, h)
    ensures LeadsBy(g, h, x, v) && c == HeaderAt(v)
  {
    hide KindOf, StrongSlots;
    if HasRealMonitor(g.m0, h) && InHeap(g.lo, g.hi, MonitorOf(g.m0, h)) && c == HeaderAt(MonitorOf(g.m0, h)) {
      x, v := h + 2, MonitorOf(g.m0, h);
    } else {
      x :| x in StrongSlots(g.classOf, g.m0, h) && InHeap(g.lo, g.hi, g.m0[x]) && c == HeaderAt(g.m0[x]);
      v := g.m0[x];
    }
  }

  /** Every edge of the graph before is an edge of the graph after. */
  lemma EdgeKept(o: Outcome, m5: seq<Cell>, chunks: seq<Chunk>, first: Cell, h: nat, c: int)
    requires Preserved(o, m5, chunks, first) && h in o.g.reachable && c in Leads(o.g, h)
    ensures c >= 0 && c in o.g.reachable && o.Place(c) in Leads(After(o, m5), o.Place(h))
  {
    hide AtRest, Row, Free, Startable, Preserved, Tiled, Headers, KindOf, Outcome.Place, Copy, Fits, Leads,
      StrongSlots, InUse, Follows, InHeap;
    CopyFacts(o, m5, chunks, first, h);
    CopyInUse(o, m5, chunks, first, h);
    var x, v := LeadsVia(o.g, h, c);
    CopyStrongSlots(o, m5, chunks, first, h);
    if x in StrongSlots(o.g.classOf, o.g.m0, h) && x < |o.g.m0| && v == o.g.m0[x] {
      StrongMoved(o, m5, chunks, first, h, x);
      var y := x - h + o.Place(h);
      ShiftedMember(StrongSlots(o.g.classOf, m5, o.Place(h)), StrongSlots(o.g.classOf, o.g.m0, h), o.Place(h), h, x);
      FollowsWell(o, m5, chunks, first, v, m5[y]);
      LeadsFrom(After(o, m5), o.Place(h), y, m5[y]);
    } else {
      MonitorMoved(o, m5, chunks, first, h);
      FollowsWell(o, m5, chunks, first, v, MonitorOf(m5, o.Place(h)));
      LeadsFrom(After(o, m5), o.Place(h), 0, MonitorOf(m5, o.Place(h)));
    }
  }

  /** Every edge of the graph after was an edge of the graph before. */
  lemma EdgeFrom(o: Outcome, m5: seq<Cell>, chunks: seq<Chunk>, first: Cell, h: nat, d: int) returns (c: nat)
    requires Preserved(o, m5, chunks, first) && h in o.g.reachable && d in Leads(After(o, m5), o.Place(h))
    ensures c in Leads(o.g, h) && c in o.g.reachable && d == o.Place(c)
  {
    hide AtRest, Row, Free, Startable, Preserved, Tiled, Headers, KindOf, Outcome.Place, Copy, Fits, Leads,
      StrongSlots, InUse, Follows, InHeap;
    CopyFacts(o, m5, chunks, first, h);
    var y, w := LeadsVia(After(o, m5), o.Place(h), d);
    CopyStrongSlots(o, m5, chunks, first, h);
    if y in StrongSlots(o.g.classOf, m5, o.Place(h)) && y < |m5| && w == m5[y] {
      var x := OldStrongSlot(o, m5, chunks, first, h, y);
      FollowsWell(o, m5, chunks, first, o.g.m0[x], w);
      LeadsFrom(o.g, h, x, o.g.m0[x]);
      c := HeaderAt(o.g.m0[x]);
    } else {
      MonitorMoved(o, m5, chunks, first, h);
      var v := MonitorOf(o.g.m0, h);
      FollowsWell(o, m5, chunks, first, v, w);
      LeadsFrom(o.g, h, 0, v);
      c := HeaderAt(v);
    }
  }

  /** The graph is the same: an object leads to the copies of exactly the objects that it led to. */
  lemma SameGraph(o: Outcome, m5: seq<Cell>, chunks: seq<Chunk>, first: Cell, h: nat)
    requires Preserved(o, m5, chunks, first) && h in o.g.reachable
    ensures InUse(After(o, m5), o.Place(h))
    ensures forall d: int ::
              d in Leads(After(o, m5), o.Place(h))
              <==> exists c: nat :: c in Leads(o.g, h) && d == o.Place(c)
  {
    hide AtRest, Row, Free, Startable, Preserved, Tiled, Headers, KindOf, Outcome.Place, Copy, Fits, Leads,
      StrongSlots, InUse;
    CopyInUse(o, m5, chunks, first, h);
    forall d: int
      ensures d in Leads(After(o, m5), o.Place(h)) <==> exists c: nat :: c in Leads(o.g, h) && d == o.Place(c)
    {
      if d in Leads(After(o, m5), o.Place(h)) {
        var c := EdgeFrom(o, m5, chunks, first, h, d);
      }
      if exists c: nat :: c in Leads(o.g, h) && d == o.Place(c) {
        var c: nat :| c in Leads(o.g, h) && d == o.Place(c);
        EdgeKept(o, m5, chunks, first, h, c);
      }
    }
  }
}
