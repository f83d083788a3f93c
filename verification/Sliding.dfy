/** What compaction and the rewriting of pointers make of each live object. */
module Sliding {
  import opened Cells
  import opened FreeList
  import opened Objects
  import opened HeapShape
  import opened Marking
  import opened Sweeping
  import opened Survivors
  import opened Relocation
  import opened HeapUpdate

  /** The object at h of m stands at n in m4, without its mark. */
  ghost predicate ObjectAt(m4: seq<Cell>, n: nat, m: seq<Cell>, h: nat) {
    && h + 2 <= |m| && h + 2 <= Next(m, h) <= |m| && n + (Next(m, h) - h) <= |m4|
    && m4[n] == WithoutMark(m[h])
    && forall x {:trigger m[x]} | h < x < Next(m, h) :: m4[x - h + n] == m[x]
  }

  /** The object at h of m stands at n in m5, without its mark and with its pointers relocated. */
  ghost predicate MovedTo(classOf: Cell -> Class, m5: seq<Cell>, n: nat, m: seq<Cell>, h: nat, t: Table) {
    && Swept(t.lo, t.hi, t.chunks)
    && h + 2 <= |m| && h + 2 <= Next(m, h) <= |m| && n + (Next(m, h) - h) <= |m5|
    && m5[n] == WithoutMark(m[h])
    && forall x {:trigger m[x]} | h < x < Next(m, h) ::
         m5[x - h + n] == if x in PointerSlots(classOf, m, h) then Relocated(t, m[x]) else m[x]
  }

  ghost predicate Shifted(s4: seq<nat>, s: seq<nat>, n: nat, h: nat) {
    |s4| == |s| && forall i | 0 <= i < |s| :: s4[i] == s[i] - h + n
  }

  lemma ShiftedJoin(a4: seq<nat>, a: seq<nat>, b4: seq<nat>, b: seq<nat>, n: nat, h: nat)
    requires Shifted(a4, a, n, h) && Shifted(b4, b, n, h)
    ensures Shifted(a4 + b4, a + b, n, h)
  {
  }

  lemma ShiftedMember(s4: seq<nat>, s: seq<nat>, n: nat, h: nat, k: nat)
    requires Shifted(s4, s, n, h)
    ensures k in s4 ==> k - n + h >= 0 && k - n + h in s
    ensures k in s && k - h + n >= 0 ==> k - h + n in s4
  {
    if k in s4 {
      var i :| 0 <= i < |s4| && s4[i] == k;
      assert s[i] == k - n + h;
    }
    if k in s {
      var i :| 0 <= i < |s| && s[i] == k;
      assert s4[i] == k - h + n;
    }
  }

  /** The slots move along with the object. */
  lemma ShiftedSlots(classOf: Cell -> Class, m4: seq<Cell>, n: nat, m: seq<Cell>, h: nat)
    requires ObjectAt(m4, n, m, h) && Fits(classOf, m, h)
    ensures Shifted(PointerSlots(classOf, m4, n), PointerSlots(classOf, m, h), n, h)
  {
    FirstCells(classOf, m4, n, m, h);
    hide KindOf, ObjectAt, Fits, Shifted, SlotsAt, Range, InstanceOffsets;
    var kind := KindOf(m[h]);
    if HasMonitorCell(kind) {
      MonitorShifted(m4, n, m, h);
    }
    if kind == GCT_INSTANCE || kind == GCT_WEAKREFERENCE {
      var offsets := InstanceOffsets(classOf(m[h + 1]));
      FieldsShifted(offsets, n + 3, h + 3, n, h);
      ShiftedJoin(MonitorSlot(m4, n), MonitorSlot(m, h), SlotsAt(n + 3, offsets), SlotsAt(h + 3, offsets), n, h);
    } else if kind == GCT_OBJECTARRAY {
      RangeShifted(m[h + 3], n + 4, h + 4, n, h);
      ShiftedJoin(MonitorSlot(m4, n), MonitorSlot(m, h), Range(n + 4, m[h + 3]), Range(h + 4, m[h + 3]), n, h);
    } else if kind == GCT_POINTERLIST {
      RangeShifted(m[h + 1], n + 2, h + 2, n, h);
    } else if kind == GCT_WEAKPOINTERLIST {
      RangeShifted(m[h + 1], n + 4, h + 4, n, h);
    } else if kind != GCT_ARRAY {
      ListShifted(kind, n, h);
    }
  }

  lemma MonitorShifted(m4: seq<Cell>, n: nat, m: seq<Cell>, h: nat)
    requires n + 2 < |m4| && h + 2 < |m| && m4[n + 2] == m[h + 2]
    ensures Shifted(MonitorSlot(m4, n), MonitorSlot(m, h), n, h)
  {
  }

  lemma FieldsShifted(offsets: seq<nat>, to: nat, from: nat, n: nat, h: nat)
    requires to - n == from - h
    ensures Shifted(SlotsAt(to, offsets), SlotsAt(from, offsets), n, h)
  {
  }

  lemma RangeShifted(length: nat, to: nat, from: nat, n: nat, h: nat)
    requires to - n == from - h
    ensures Shifted(Range(to, length), Range(from, length), n, h)
  {
  }

  lemma ListShifted(kind: nat, n: nat, h: nat)
    ensures Shifted([n + 1, n + 2, n + 3], [h + 1, h + 2, h + 3], n, h)
    ensures Shifted([n + 1, n + 2, n + 3, n + 10, n + 12, n + 5], [h + 1, h + 2, h + 3, h + 10, h + 12, h + 5], n, h)
    ensures Shifted([], [], n, h)
  {
  }

  lemma FirstCells(classOf: Cell -> Class, m4: seq<Cell>, n: nat, m: seq<Cell>, h: nat)
    requires ObjectAt(m4, n, m, h) && Fits(classOf, m, h)
    ensures n + 1 < |m4| && h + 1 < |m| && KindOf(m4[n]) == KindOf(m[h]) && SizeOf(m4[n]) == SizeOf(m[h])
    ensures m4[n + 1] == m[h + 1]
    ensures HasMonitorCell(KindOf(m[h])) ==> n + 2 < |m4| && h + 2 < |m| && m4[n + 2] == m[h + 2]
    ensures KindOf(m[h]) == GCT_OBJECTARRAY ==> n + 3 < |m4| && h + 3 < |m| && m4[n + 3] == m[h + 3]
    ensures Next(m4, n) - n == Next(m, h) - h && Next(m4, n) <= |m4|
  {
    MarkKeepsSizeAndKind(m[h]);
    assert m[h + 1] == m4[n + 1];
    if HasMonitorCell(KindOf(m[h])) {
      assert m[h + 2] == m4[n + 2];
    }
    if KindOf(m[h]) == GCT_OBJECTARRAY {
      assert m[h + 3] == m4[n + 3];
    }
  }

  lemma MovedUpdatable(classOf: Cell -> Class, m4: seq<Cell>, n: nat, m: seq<Cell>, h: nat)
    requires ObjectAt(m4, n, m, h) && Fits(classOf, m, h) && Updatable(classOf, m, h)
    ensures Updatable(classOf, m4, n)
  {
    FirstCells(classOf, m4, n, m, h);
    ShiftedSlots(classOf, m4, n, m, h);
    hide PointerSlots, ObjectAt, Fits, SizeOf, Shifted;
    var s, s4 := PointerSlots(classOf, m, h), PointerSlots(classOf, m4, n);
    ShiftedDistinct(s4, s, n, h);
    forall k | k in s4
      ensures n < k < Next(m4, n)
    {
      ShiftedMember(s4, s, n, h, k);
    }
  }

  lemma MovedSlot(classOf: Cell -> Class, m4: seq<Cell>, n: nat, m: seq<Cell>, h: nat, x: nat)
    requires ObjectAt(m4, n, m, h) && Fits(classOf, m, h) && h < x
    ensures x in PointerSlots(classOf, m, h) <==> x - h + n in PointerSlots(classOf, m4, n)
  {
    hide *;
    ShiftedSlots(classOf, m4, n, m, h);
    ShiftedMember(PointerSlots(classOf, m4, n), PointerSlots(classOf, m, h), n, h, x);
    ShiftedMember(PointerSlots(classOf, m4, n), PointerSlots(classOf, m, h), n, h, x - h + n);
  }

  lemma ShiftedDistinct(s4: seq<nat>, s: seq<nat>, n: nat, h: nat)
    requires Shifted(s4, s, n, h) && NoDuplicates(s)
    ensures NoDuplicates(s4)
  {
  }

  /** Every marked object of the heap m stands at its new place in m4, fits its class, and can be updated there. */
  ghost predicate Slid(classOf: Cell -> Class, m4: seq<Cell>, m: seq<Cell>, lo: nat, hi: nat, marked: set<nat>) {
    && Tiled(m, lo, hi) && hi <= |m| == |m4| && marked <= Headers(m, lo, hi)
    && forall h | h in marked :: SlidOne(classOf, m4, m, lo, marked, h)
  }

  ghost predicate SlidOne(classOf: Cell -> Class, m4: seq<Cell>, m: seq<Cell>, lo: nat, marked: set<nat>, h: nat) {
    && Tiled(m, lo, h) && ObjectAt(m4, NewIndex(m, lo, h, marked), m, h)
    && Fits(classOf, m, h) && Updatable(classOf, m, h)
  }

  /** m4 is the heap m after sweeping it to m3 and sliding its live cells together. */
  ghost predicate SweptAndSlid(m4: seq<Cell>, m3: seq<Cell>, m: seq<Cell>, lo: nat, hi: nat, marked: set<nat>) {
    && Clean(m3, m, lo, hi, marked) && Tiled(m, lo, hi) && marked <= Headers(m, lo, hi)
    && Swept(lo, hi, DeadRuns(m, lo, hi, marked)) && hi <= |m3| == |m4|
    && Holds(m4, lo, Live(m3, lo, hi, DeadRuns(m, lo, hi, marked)))
  }

  lemma SlidLength(m4: seq<Cell>, m3: seq<Cell>, m: seq<Cell>, lo: nat, hi: nat, marked: set<nat>)
    requires SweptAndSlid(m4, m3, m, lo, hi, marked)
    ensures Tiled(m, lo, hi) && marked <= Headers(m, lo, hi) && hi <= |m3| == |m| == |m4|
  {
    hide Clean, Holds, Live, DeadRuns, Swept;
    CleanLength(m3, m, lo, hi, marked);
  }

  lemma CleanLength(m3: seq<Cell>, m: seq<Cell>, lo: nat, hi: nat, marked: set<nat>)
    requires Clean(m3, m, lo, hi, marked)
    ensures |m3| == |m| && hi <= |m|
  {
    SweepableTiled(m, lo, hi, marked);
    LiveKeptLength(m3, m, lo, hi, marked, hi);
  }

  lemma MovedCell(m4: seq<Cell>, m3: seq<Cell>, m: seq<Cell>, lo: nat, hi: nat, marked: set<nat>, h: nat, x: nat)
    requires SweptAndSlid(m4, m3, m, lo, hi, marked) && h in marked && h < |m| && h <= x < Next(m, h)
    ensures Tiled(m, lo, h) && x < |m| && x - h + NewIndex(m, lo, h, marked) < |m4|
    ensures m4[x - h + NewIndex(m, lo, h, marked)] == if x == h then WithoutMark(m[h]) else m[x]
  {
    hide Clean, Holds, Swept, DeadRuns, Tiled, Headers, Next, Live;
    CleanLength(m3, m, lo, hi, marked);
    SlidCell(m4, m3, m, lo, hi, marked, h, x);
    CleanCell(m3, m, lo, hi, marked, h, x);
  }

  lemma ObjectSlides(m4: seq<Cell>, m3: seq<Cell>, m: seq<Cell>, lo: nat, hi: nat, marked: set<nat>, h: nat)
    requires SweptAndSlid(m4, m3, m, lo, hi, marked) && h in marked
    ensures Tiled(m, lo, h) && ObjectAt(m4, NewIndex(m, lo, h, marked), m, h)
  {
    hide SweptAndSlid, Tiled, Headers, NewIndex, Next;
    SlidLength(m4, m3, m, lo, hi, marked);
    HeaderBounds(m, lo, hi, h);
    MovedCell(m4, m3, m, lo, hi, marked, h, h);
    MovedCell(m4, m3, m, lo, hi, marked, h, Next(m, h) - 1);
    var n := NewIndex(m, lo, h, marked);
    forall x: nat | h < x < Next(m, h)
      ensures x - h + n < |m4| && m4[x - h + n] == m[x]
    {
      MovedCell(m4, m3, m, lo, hi, marked, h, x);
    }
  }

  /** Compaction puts every marked object at its new place. */
  lemma CompactionSlides(classOf: Cell -> Class, m4: seq<Cell>, m3: seq<Cell>, m: seq<Cell>, lo: nat, hi: nat,
                         marked: set<nat>)
    requires SweptAndSlid(m4, m3, m, lo, hi, marked) && forall h | h in marked ::
               Fits(classOf, m, h) && Updatable(classOf, m, h)
    ensures Slid(classOf, m4, m, lo, hi, marked)
  {
    hide SweptAndSlid, Tiled, Headers, Fits, Updatable, NewIndex, ObjectAt;
    SlidLength(m4, m3, m, lo, hi, marked);
    forall h | h in marked
      ensures SlidOne(classOf, m4, m, lo, marked, h)
    {
      ObjectSlides(m4, m3, m, lo, hi, marked, h);
    }
  }

  /** Where the slid objects end. */
  ghost function EndOf(m: seq<Cell>, lo: nat, hi: nat, marked: set<nat>): nat
    requires Tiled(m, lo, hi)
  {
    NewIndex(m, lo, hi, marked)
  }

  lemma SlidOneFacts(classOf: Cell -> Class, m4: seq<Cell>, m: seq<Cell>, lo: nat, hi: nat, marked: set<nat>, h: nat)
    requires Slid(classOf, m4, m, lo, hi, marked) && h in marked
    ensures Tiled(m, lo, hi) && h in Headers(m, lo, hi) && Tiled(m, lo, h) && hi <= |m| == |m4|
    ensures ObjectAt(m4, NewIndex(m, lo, h, marked), m, h) && Fits(classOf, m, h) && Updatable(classOf, m, h)
  {
    assert SlidOne(classOf, m4, m, lo, marked, h);
  }

  /** The slid objects form a row. */
  lemma SlidRow(classOf: Cell -> Class, m4: seq<Cell>, m: seq<Cell>, lo: nat, hi: nat, marked: set<nat>)
    requires Slid(classOf, m4, m, lo, hi, marked)
    ensures Tiled(m, lo, hi) && Tiled(m, lo, lo) && lo <= EndOf(m, lo, hi, marked) <= hi
    ensures Tiled(m4, lo, EndOf(m, lo, hi, marked))
    ensures Headers(m4, lo, EndOf(m, lo, hi, marked)) == NewHeaders(m, lo, lo, hi, marked)
  {
    hide SlidOne;
    forall h | h in Headers(m, lo, hi) && h in marked
      ensures SizeMoved(m4, m, lo, marked, h)
    {
      SlidSize(classOf, m4, m, lo, hi, marked, h);
    }
    assert NewIndex(m, lo, lo, marked) == lo;
    SlidTiling(m4, m, lo, lo, hi, marked);
  }

  lemma SlidSize(classOf: Cell -> Class, m4: seq<Cell>, m: seq<Cell>, lo: nat, hi: nat, marked: set<nat>, h: nat)
    requires Slid(classOf, m4, m, lo, hi, marked) && h in marked
    ensures SizeMoved(m4, m, lo, marked, h)
  {
    hide Slid, Fits, Updatable, ObjectAt, Tiled, Headers, SizeOf, NewIndex;
    SlidOneFacts(classOf, m4, m, lo, hi, marked, h);
    FirstCells(classOf, m4, NewIndex(m, lo, h, marked), m, h);
  }

  /** The slid objects can be updated where they are. */
  lemma SlidUpdatable(classOf: Cell -> Class, m4: seq<Cell>, m: seq<Cell>, t: Table, marked: set<nat>, end: nat)
    requires Slid(classOf, m4, m, t.lo, t.hi, marked) && TableIn(m4, t) && Tiled(m, t.lo, t.hi)
    requires end == EndOf(m, t.lo, t.hi, marked) <= t.location
    ensures Compact(classOf, m4, t, end)
  {
    hide Slid, Updatable, Tiled, Headers, TableIn, EndOf, NewHeaders, NewIndex;
    SlidRow(classOf, m4, m, t.lo, t.hi, marked);
    forall n | n in Headers(m4, t.lo, end)
      ensures Updatable(classOf, m4, n)
    {
      var h := OldHeaderOf(m, t.lo, t.lo, t.hi, marked, n);
      SlidOneFacts(classOf, m4, m, t.lo, t.hi, marked, h);
      MovedUpdatable(classOf, m4, n, m, h);
    }
  }

  /** The cells rewritten in one object are its own slots. */
  lemma OwnSlots(classOf: Cell -> Class, m4: seq<Cell>, t: Table, end: nat, n: nat, k: nat)
    requires Compact(classOf, m4, t, end) && Tiled(m4, t.lo, end) && n in Headers(m4, t.lo, end) && n < |m4|
    requires n <= k < Next(m4, n)
    ensures k in PointerSlotsOf(classOf, m4, Headers(m4, t.lo, end)) <==> k in PointerSlots(classOf, m4, n)
  {
    hide Compact, PointerSlots, Tiled, Updatable, Headers;
    CompactObject(classOf, m4, t, end, n);
    var all := Headers(m4, t.lo, end);
    if k in PointerSlotsOf(classOf, m4, all) {
      var o :| o in all && Updatable(classOf, m4, o) && k in PointerSlots(classOf, m4, o);
      SlotInside(classOf, m4, o, k);
      if o < n {
        HeadersApart(m4, t.lo, end, o, n);
      } else if n < o {
        HeadersApart(m4, t.lo, end, n, o);
      }
    }
    if k in PointerSlots(classOf, m4, n) {
      assert HasPointerSlot(classOf, m4, all, k);
    }
  }

  /** The state after the pointers of the slid heap m4 have been rewritten. */
  ghost predicate SlidAndUpdated(classOf: Cell -> Class, m5: seq<Cell>, m4: seq<Cell>, m: seq<Cell>, t: Table,
                                 marked: set<nat>, end: nat) {
    && Slid(classOf, m4, m, t.lo, t.hi, marked) && Tiled(m, t.lo, t.hi) && end == EndOf(m, t.lo, t.hi, marked)
    && Compact(classOf, m4, t, end) && Tiled(m4, t.lo, end)
    && Rewritten(m5, m4, t, PointerSlotsOf(classOf, m4, Headers(m4, t.lo, end)))
  }

  lemma UpdatedFacts(classOf: Cell -> Class, m5: seq<Cell>, m4: seq<Cell>, m: seq<Cell>, t: Table, marked: set<nat>,
                     end: nat, h: nat)
    requires SlidAndUpdated(classOf, m5, m4, m, t, marked, end) && h in marked
    ensures Compact(classOf, m4, t, end) && Tiled(m4, t.lo, end) && |m5| == |m4| && Swept(t.lo, t.hi, t.chunks)
    ensures Rewritten(m5, m4, t, PointerSlotsOf(classOf, m4, Headers(m4, t.lo, end)))
    ensures Tiled(m, t.lo, h) && NewIndex(m, t.lo, h, marked) in Headers(m4, t.lo, end)
    ensures ObjectAt(m4, NewIndex(m, t.lo, h, marked), m, h) && Fits(classOf, m, h)
  {
    hide Slid, Updatable, Tiled, Headers, Compact, EndOf, NewHeaders, NewIndex, PointerSlotsOf;
    SlidOneFacts(classOf, m4, m, t.lo, t.hi, marked, h);
    SlidRow(classOf, m4, m, t.lo, t.hi, marked);
    NewHeaderOf(m, t.lo, t.lo, t.hi, marked, h);
  }

  lemma ObjectCell(m4: seq<Cell>, n: nat, m: seq<Cell>, h: nat, x: nat)
    requires ObjectAt(m4, n, m, h) && h < x && h < |m| && x < Next(m, h)
    ensures x < |m| && x - h + n < |m4| && m4[x - h + n] == m[x]
  {
    assert m[x] == m4[x - h + n];
  }

  lemma UpdatedCell(classOf: Cell -> Class, m5: seq<Cell>, m4: seq<Cell>, m: seq<Cell>, t: Table, marked: set<nat>,
                    end: nat,
                    h: nat, x: nat)
    requires SlidAndUpdated(classOf, m5, m4, m, t, marked, end) && h in marked && h < |m| && h < x < Next(m, h)
    ensures Tiled(m, t.lo, h) && x < |m| && x - h + NewIndex(m, t.lo, h, marked) < |m5| && Swept(t.lo, t.hi, t.chunks)
    ensures m5[x - h + NewIndex(m, t.lo, h, marked)] == if x in PointerSlots(classOf, m, h) then Relocated(t, m[x])
                                                        else m[x]
  {
    hide SlidAndUpdated, Slid, Tiled, Headers, Compact, EndOf, NewIndex, PointerSlotsOf, PointerSlots, Fits, Relocated,
      Swept,
      ObjectAt, Rewritten;
    UpdatedFacts(classOf, m5, m4, m, t, marked, end, h);
    var n := NewIndex(m, t.lo, h, marked);
    FirstCells(classOf, m4, n, m, h);
    ObjectCell(m4, n, m, h, x);
    OwnSlots(classOf, m4, t, end, n, x - h + n);
    MovedSlot(classOf, m4, n, m, h, x);
    RewrittenAt(m5, m4, t, PointerSlotsOf(classOf, m4, Headers(m4, t.lo, end)), x - h + n);
  }

  lemma UpdatedHeader(classOf: Cell -> Class, m5: seq<Cell>, m4: seq<Cell>, m: seq<Cell>, t: Table, marked: set<nat>,
                      end: nat, h: nat)
    requires SlidAndUpdated(classOf, m5, m4, m, t, marked, end) && h in marked
    ensures Tiled(m, t.lo, h) && h + 2 <= |m| && h + 2 <= Next(m, h) <= |m|
    ensures NewIndex(m, t.lo, h, marked) + (Next(m, h) - h) <= |m5|
    ensures m5[NewIndex(m, t.lo, h, marked)] == WithoutMark(m[h])
  {
    hide SlidAndUpdated, Slid, Tiled, Headers, Compact, EndOf, NewIndex, PointerSlotsOf, PointerSlots, Fits, Relocated,
      Swept, Rewritten;
    UpdatedFacts(classOf, m5, m4, m, t, marked, end, h);
    var n := NewIndex(m, t.lo, h, marked);
    FirstCells(classOf, m4, n, m, h);
    OwnSlots(classOf, m4, t, end, n, n);
    CompactObject(classOf, m4, t, end, n);
    if n in PointerSlots(classOf, m4, n) {
      SlotInside(classOf, m4, n, n);
    }
    RewrittenAt(m5, m4, t, PointerSlotsOf(classOf, m4, Headers(m4, t.lo, end)), n);
  }

  /** Every live object stands at its new place, with its pointers relocated. */
  lemma ObjectMoved(classOf: Cell -> Class, m5: seq<Cell>, m4: seq<Cell>, m: seq<Cell>, t: Table, marked: set<nat>,
                    end: nat, h: nat)
    requires SlidAndUpdated(classOf, m5, m4, m, t, marked, end) && h in marked
    ensures Tiled(m, t.lo, h) && MovedTo(classOf, m5, NewIndex(m, t.lo, h, marked), m, h, t)
  {
    hide SlidAndUpdated, Tiled, Headers, NewIndex, PointerSlots, Relocated, Swept, Next;
    UpdatedHeader(classOf, m5, m4, m, t, marked, end, h);
    UpdatedCell(classOf, m5, m4, m, t, marked, end, h, h + 1);
    var n := NewIndex(m, t.lo, h, marked);
    forall x: nat | h < x < Next(m, h)
      ensures m5[x - h + n] == if x in PointerSlots(classOf, m, h) then Relocated(t, m[x]) else m[x]
    {
      UpdatedCell(classOf, m5, m4, m, t, marked, end, h, x);
    }
  }
}
