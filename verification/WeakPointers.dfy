/** markWeakPointerLists and markWeakReferences: pointers that do not keep their objects alive are cleared. */
module WeakPointers {
  import opened Cells
  import opened Objects
  import opened HeapShape
  import opened Marking

  /** Cell k of the object at h holds a weak pointer. */
  predicate IsWeakSlot(m: seq<Cell>, h: nat, k: nat) {
    && h + 1 < |m|
    && if KindOf(m[h]) == GCT_WEAKPOINTERLIST then h + 4 <= k < h + 4 + m[h + 1]
       else KindOf(m[h]) == GCT_WEAKREFERENCE && k == h + 3
  }

  ghost predicate HasWeakSlot(m: seq<Cell>, objects: set<nat>, k: nat) {
    exists h | h in objects :: IsWeakSlot(m, h, k)
  }

  /** The cells of the given objects that hold weak pointers. */
  ghost function WeakSlotsOf(m: seq<Cell>, objects: set<nat>): set<nat> {
    set k: nat | k < |m| && HasWeakSlot(m, objects, k)
  }

  /** A weak pointer is NULL or aligned; if it points into the heap at all it points to an object. */
  ghost predicate WeakPointer(m: seq<Cell>, lo: nat, hi: nat, v: Cell)
    requires Tiled(m, lo, hi)
  {
    v == NULL || (v % CELL == 0 && v <= CELL * |m| && PointsWell(m, lo, hi, v))
  }

  ghost predicate WeakSound(m: seq<Cell>, lo: nat, hi: nat)
    requires Tiled(m, lo, hi)
  {
    forall h, k: nat | h in Headers(m, lo, hi) && IsWeakSlot(m, h, k) :: k < |m| && WeakPointer(m, lo, hi, m[k])
  }

  /** The pointer in cell k is about to be cleared: it is not NULL and the cell before its object carries no mark. */
  predicate Unkept(m: seq<Cell>, k: nat) {
    && k < |m| && m[k] != NULL
    && !(1 <= m[k] / CELL <= |m| && IsMarked(m[m[k] / CELL - HEADERSIZE]))
  }

  /** m2 is m1 but for the pointers cleared in the given cells. */
  ghost predicate Weakened(m2: seq<Cell>, m1: seq<Cell>, slots: set<nat>) {
    && |m2| == |m1|
    && forall k {:trigger m2[k]} | 0 <= k < |m2| :: m2[k] == if k in slots && Unkept(m1, k) then NULL else m1[k]
  }

  /** The pointers in the given cells are aligned, so clearing one does not look like removing a mark. */
  ghost predicate Aligned(m: seq<Cell>, slots: set<nat>) {
    forall k | k in slots :: k < |m| ==> m[k] % CELL == 0
  }

  lemma WeakenedMarks(m2: seq<Cell>, m1: seq<Cell>, slots: set<nat>, k: nat)
    requires Weakened(m2, m1, slots) && Aligned(m1, slots) && k < |m2|
    ensures IsMarked(m2[k]) == IsMarked(m1[k])
  {
    if k in slots {
      assert m1[k] == 2 * (2 * (m1[k] / 4));
    }
  }

  lemma WeakenedUnkept(m2: seq<Cell>, m1: seq<Cell>, slots: set<nat>, k: nat)
    requires Weakened(m2, m1, slots) && Aligned(m1, slots) && k < |m2| && m2[k] == m1[k]
    ensures Unkept(m2, k) == Unkept(m1, k)
  {
    if 1 <= m1[k] / CELL <= |m1| {
      WeakenedMarks(m2, m1, slots, m1[k] / CELL - HEADERSIZE);
    }
  }

  /** Clearing some pointers and then some others. */
  lemma WeakenedTrans(m2: seq<Cell>, m1: seq<Cell>, m: seq<Cell>, first: set<nat>, second: set<nat>)
    requires Weakened(m1, m, first) && Weakened(m2, m1, second) && Aligned(m, first)
    ensures Weakened(m2, m, first + second)
  {
    forall k | 0 <= k < |m2|
      ensures m2[k] == if k in first + second && Unkept(m, k) then NULL else m[k]
    {
      if m1[k] == m[k] {
        WeakenedUnkept(m1, m, first, k);
      }
    }
  }

  /** A collection after marking: everything marked has been visited. */
  ghost predicate Marked(g: Start, m1: seq<Cell>, s: State) {
    Consistent(g, m1, s) && s.visited == s.marked && WeakSound(g.m0, g.lo, g.hi)
  }

  /** Weak pointers lie inside their object, and are what they were before marking. */
  lemma WeakSlotInside(g: Start, m1: seq<Cell>, s: State, h: nat, k: nat)
    requires Marked(g, m1, s) && h in s.marked && IsWeakSlot(g.m0, h, k)
    ensures 1 <= g.lo && Tiled(g.m0, g.lo, g.hi) && h in Headers(g.m0, g.lo, g.hi)
    ensures InUse(g, h) && h < k < Next(g.m0, h) <= g.hi <= |m1| == |g.m0| && m1[k] == g.m0[k]
    ensures WeakPointer(g.m0, g.lo, g.hi, m1[k])
  {
    Usable(g, h);
    HeaderBounds(g.m0, g.lo, g.hi, h);
    CellUnchanged(g, m1, s, h, k);
  }

  lemma WeakSlotsAligned(g: Start, m1: seq<Cell>, s: State, objects: set<nat>)
    requires Marked(g, m1, s) && objects <= s.marked
    ensures Aligned(m1, WeakSlotsOf(g.m0, objects))
  {
    forall k | k in WeakSlotsOf(g.m0, objects)
      ensures k < |m1| ==> m1[k] % CELL == 0
    {
      var h :| h in objects && IsWeakSlot(g.m0, h, k);
      WeakSlotInside(g, m1, s, h, k);
    }
  }

  /** A weak pointer of one object lies in no other object. */
  lemma WeakSlotOwner(g: Start, m1: seq<Cell>, s: State, o: nat, h: nat, k: nat)
    requires Marked(g, m1, s) && o in s.marked && IsWeakSlot(g.m0, o, k)
    requires h in s.marked && InUse(g, h) && h <= k < Next(g.m0, h)
    ensures o == h
  {
    WeakSlotInside(g, m1, s, o, k);
    hide Marked, WeakPointer, IsWeakSlot, Fits, Sound, Headers;
    if o < h {
      HeadersApart(g.m0, g.lo, g.hi, o, h);
    } else if h < o {
      HeadersApart(g.m0, g.lo, g.hi, h, o);
    }
  }

  lemma MarkedLength(g: Start, m1: seq<Cell>, s: State, h: nat)
    requires Marked(g, m1, s) && h in s.marked
    ensures InUse(g, h) && h + 2 <= Next(g.m0, h) <= g.hi <= |m1| == |g.m0|
  {
    Usable(g, h);
    HeaderBounds(g.m0, g.lo, g.hi, h);
  }

  /** Other cells of a marked object are not cleared. */
  lemma NotCleared(g: Start, m: seq<Cell>, m1: seq<Cell>, s: State, objects: set<nat>, h: nat, k: nat)
    requires Marked(g, m1, s) && objects <= s.marked && Weakened(m, m1, WeakSlotsOf(g.m0, objects))
    requires h in s.marked && h < |g.m0| && h <= k < Next(g.m0, h) && (h in objects ==> !IsWeakSlot(g.m0, h, k))
    ensures k < |m| == |m1| && m[k] == m1[k] && k !in WeakSlotsOf(g.m0, objects)
  {
    MarkedLength(g, m1, s, h);
    hide Marked, InUse, Unkept, IsWeakSlot;
    if k in WeakSlotsOf(g.m0, objects) {
      var o :| o in objects && IsWeakSlot(g.m0, o, k);
      WeakSlotOwner(g, m1, s, o, h, k);
    }
  }

  /** The finalizer of a weak pointer list was called for the object that cell `slot` pointed to. */
  datatype Finalization = Finalization(slot: nat, finalizer: Cell, referent: Cell)

  /** Exactly the cleared pointers of the lists that have a finalizer are finalized, once each. */
  ghost predicate Finalized(calls: seq<Finalization>, m1: seq<Cell>, m0: seq<Cell>, lists: set<nat>) {
    && (forall i, j | 0 <= i < j < |calls| :: calls[i].slot != calls[j].slot)
    && (forall c | c in calls :: exists h | h in lists :: FinalizedFor(c, m1, m0, h))
    && (forall h, k: nat | h in lists && IsWeakSlot(m0, h, k) && Unkept(m1, k) && h + 3 < |m0| && m0[h + 3] != NULL ::
          Finalization(k, m0[h + 3], m1[k]) in calls)
  }

  ghost predicate FinalizedFor(c: Finalization, m1: seq<Cell>, m0: seq<Cell>, h: nat) {
    && IsWeakSlot(m0, h, c.slot) && Unkept(m1, c.slot)
    && h + 3 < |m0| && c.finalizer == m0[h + 3] != NULL && c.referent == m1[c.slot]
  }

  predicate Within(from: nat, k: nat, to: nat) {
    from <= k < to
  }

  ghost function RangeSet(from: nat, to: nat): set<nat> {
    set k: nat | k < to && Within(from, k, to)
  }

  /** The pointers of one list were cleared, with the finalizer called for each. */
  ghost predicate RangeFinalized(calls: seq<Finalization>, m: seq<Cell>, from: nat, to: nat, finalizer: Cell) {
    && (forall i, j | 0 <= i < j < |calls| :: calls[i].slot < calls[j].slot)
    && (forall c | c in calls ::
          from <= c.slot < to && Unkept(m, c.slot) && c.finalizer == finalizer != NULL && c.referent == m[c.slot])
    && (forall k: nat | from <= k < to && Unkept(m, k) && finalizer != NULL ::
          Finalization(k, finalizer, m[k]) in calls)
  }

  lemma RangeFinalizedNext(calls: seq<Finalization>, m: seq<Cell>, from: nat, to: nat, finalizer: Cell)
    requires RangeFinalized(calls, m, from, to, finalizer) && from <= to < |m|
    ensures Unkept(m, to) && finalizer != NULL ==>
              RangeFinalized(calls + [Finalization(to, finalizer, m[to])], m, from, to + 1, finalizer)
    ensures !Unkept(m, to) || finalizer == NULL ==> RangeFinalized(calls, m, from, to + 1, finalizer)
  {
    var more := calls + [Finalization(to, finalizer, m[to])];
    if Unkept(m, to) && finalizer != NULL {
      forall i, j | 0 <= i < j < |more|
        ensures more[i].slot < more[j].slot
      {
        assert more[i] in calls;
      }
      forall k: nat | from <= k < to + 1 && Unkept(m, k)
        ensures Finalization(k, finalizer, m[k]) in more
      {
        if k == to {
          assert more[|calls|] == Finalization(to, finalizer, m[to]);
        } else {
          assert Finalization(k, finalizer, m[k]) in calls;
        }
      }
    }
  }

  /** The cells hold aligned pointers into memory. */
  predicate Readable(m: seq<Cell>, from: nat, to: nat) {
    to <= |m| && forall k {:trigger m[k]} | from <= k < to :: m[k] % CELL == 0 && m[k] <= CELL * |m|
  }

  lemma ReadableUpTo(m: seq<Cell>, from: nat, end: nat, to: nat)
    requires Readable(m, from, to) && end <= to
    ensures Readable(m, from, end) && to <= |m|
  {
  }

  lemma WeakenedNext(mem: seq<Cell>, m: seq<Cell>, from: nat, ptr: nat)
    requires Weakened(mem, m, RangeSet(from, ptr)) && Readable(m, from, ptr + 1) && from <= ptr
    ensures ptr < |mem| == |m| && mem[ptr] == m[ptr] && (mem[ptr] != NULL ==> 1 <= mem[ptr] / CELL <= |mem|)
    ensures Unkept(m, ptr) <==> mem[ptr] != NULL && !IsMarked(mem[mem[ptr] / CELL - HEADERSIZE])
    ensures Weakened(if Unkept(m, ptr) then mem[ptr := NULL] else mem, m, RangeSet(from, ptr + 1))
  {
    WeakenedUnkept(mem, m, RangeSet(from, ptr), ptr);
  }

  /** The pointers from `from` up to `ptr` are done. */
  ghost predicate ClearedUpTo(mem: seq<Cell>, m: seq<Cell>, from: nat, ptr: nat, finalizer: Cell,
                              calls: seq<Finalization>) {
    |mem| == |m| && Weakened(mem, m, RangeSet(from, ptr)) && RangeFinalized(calls, m, from, ptr, finalizer)
  }

  /** One pointer of a weak pointer list. */
  method ClearPointer(mem: array<Cell>, from: nat, ptr: nat, finalizer: Cell, calls: seq<Finalization>,
                      ghost m: seq<Cell>)
    returns (more: seq<Finalization>)
    requires from <= ptr && Readable(m, from, ptr + 1) && ClearedUpTo(mem[..], m, from, ptr, finalizer, calls)
    modifies mem
    ensures ClearedUpTo(mem[..], m, from, ptr + 1, finalizer, more)
  {
    hide RangeFinalized, Weakened, RangeSet, IsMarked, Readable;
    WeakenedNext(mem[..], m, from, ptr);
    RangeFinalizedNext(calls, m, from, ptr, finalizer);
    more := calls;
    var referent := mem[ptr];
    if referent != NULL && !IsMarked(mem[referent / CELL - HEADERSIZE]) {
      mem[ptr] := NULL;
      if finalizer != NULL {
        more := calls + [Finalization(ptr, finalizer, referent)];
      }
    }
  }

  /** Clears the pointers of one weak pointer list whose objects are not kept. */
  method ClearList(mem: array<Cell>, from: nat, to: nat, finalizer: Cell) returns (calls: seq<Finalization>)
    requires from <= to && Readable(mem[..], from, to)
    modifies mem
    ensures Weakened(mem[..], old(mem[..]), RangeSet(from, to))
    ensures RangeFinalized(calls, old(mem[..]), from, to, finalizer)
  {
    ghost var m := mem[..];
    calls := [];
    var ptr := from;
    assert ClearedUpTo(m, m, from, from, finalizer, []);
    hide ClearedUpTo, Readable;
    while ptr < to
      invariant from <= ptr <= to && ClearedUpTo(mem[..], m, from, ptr, finalizer, calls)
    {
      ReadableUpTo(m, from, ptr + 1, to);
      calls := ClearPointer(mem, from, ptr, finalizer, calls, m);
      ptr := ptr + 1;
    }
    AllCleared(mem[..], m, from, to, finalizer, calls);
  }

  lemma AllCleared(mem: seq<Cell>, m: seq<Cell>, from: nat, to: nat, finalizer: Cell, calls: seq<Finalization>)
    requires ClearedUpTo(mem, m, from, to, finalizer, calls)
    ensures Weakened(mem, m, RangeSet(from, to)) && RangeFinalized(calls, m, from, to, finalizer)
  {
  }

  lemma WeakSlotsOfUnion(m: seq<Cell>, a: set<nat>, b: set<nat>)
    ensures WeakSlotsOf(m, a + b) == WeakSlotsOf(m, a) + WeakSlotsOf(m, b)
  {
  }

  /** The first list on the chain, and what is read of it. */
  lemma ListFacts(g: Start, m: seq<Cell>, m1: seq<Cell>, s: State, objects: set<nat>, h: nat)
    requires Marked(g, m1, s) && objects <= s.marked && Weakened(m, m1, WeakSlotsOf(g.m0, objects))
    requires h in s.marked && h !in objects && h < |g.m0| && KindOf(g.m0[h]) == GCT_WEAKPOINTERLIST
    ensures h + 4 <= |m| == |m1| == |g.m0|
    ensures m[h + 1] == g.m0[h + 1] && m[h + 2] == m1[h + 2] && m[h + 3] == g.m0[h + 3] && h + 4 + m[h + 1] <= |m|
    ensures Readable(m, h + 4, h + 4 + m[h + 1])
  {
    MarkedLength(g, m1, s, h);
    ListCells(g, m1, s, h);
    hide Marked, InUse, KindOf, Weakened;
    NotCleared(g, m, m1, s, objects, h, h + 1);
    NotCleared(g, m, m1, s, objects, h, h + 2);
    NotCleared(g, m, m1, s, objects, h, h + 3);
    forall k: nat | h + 4 <= k < h + 4 + m[h + 1]
      ensures k < |m| && m[k] % CELL == 0 && m[k] <= CELL * |m|
    {
      ListSlot(g, m, m1, s, objects, h, k);
    }
  }

  lemma ListSlot(g: Start, m: seq<Cell>, m1: seq<Cell>, s: State, objects: set<nat>, h: nat, k: nat)
    requires Marked(g, m1, s) && objects <= s.marked && Weakened(m, m1, WeakSlotsOf(g.m0, objects))
    requires h in s.marked && h !in objects && IsWeakSlot(g.m0, h, k)
    ensures k < |m| == |m1| == |g.m0| && m[k] == m1[k] && m[k] % CELL == 0 && m[k] <= CELL * |m|
    ensures Unkept(m, k) == Unkept(m1, k)
  {
    WeakSlotsAligned(g, m1, s, objects);
    WeakSlotInside(g, m1, s, h, k);
    hide Marked, InUse, Unkept, KindOf, Aligned, Weakened, IsWeakSlot;
    NotCleared(g, m, m1, s, objects, h, k);
    WeakenedUnkept(m, m1, WeakSlotsOf(g.m0, objects), k);
  }

  lemma ListSlots(g: Start, m1: seq<Cell>, s: State, h: nat)
    requires Marked(g, m1, s) && h in s.marked && h + 1 < |g.m0| && KindOf(g.m0[h]) == GCT_WEAKPOINTERLIST
    ensures WeakSlotsOf(g.m0, {h}) == RangeSet(h + 4, h + 4 + g.m0[h + 1])
  {
    hide Marked, KindOf;
    forall k: nat
      ensures k in WeakSlotsOf(g.m0, {h}) <==> k in RangeSet(h + 4, h + 4 + g.m0[h + 1])
    {
      assert HasWeakSlot(g.m0, {h}, k) <==> IsWeakSlot(g.m0, h, k);
      if IsWeakSlot(g.m0, h, k) {
        WeakSlotInside(g, m1, s, h, k);
      }
    }
  }

  /** Clearing the cells of one more list. */
  lemma ListCleared(g: Start, m2: seq<Cell>, m: seq<Cell>, m1: seq<Cell>, s: State, objects: set<nat>, h: nat)
    requires Marked(g, m1, s) && objects <= s.marked && Weakened(m, m1, WeakSlotsOf(g.m0, objects))
    requires h in s.marked && h + 1 < |g.m0| && KindOf(g.m0[h]) == GCT_WEAKPOINTERLIST
    requires Weakened(m2, m, RangeSet(h + 4, h + 4 + g.m0[h + 1]))
    ensures Weakened(m2, m1, WeakSlotsOf(g.m0, objects + {h}))
  {
    hide *;
    ListSlots(g, m1, s, h);
    WeakSlotsAligned(g, m1, s, objects);
    WeakenedTrans(m2, m, m1, WeakSlotsOf(g.m0, objects), WeakSlotsOf(g.m0, {h}));
    WeakSlotsOfUnion(g.m0, objects, {h});
  }

  lemma ListCells(g: Start, m1: seq<Cell>, s: State, h: nat)
    requires Marked(g, m1, s) && h in s.marked && h < |g.m0| && KindOf(g.m0[h]) == GCT_WEAKPOINTERLIST
    ensures h + 3 < Next(g.m0, h) && h + 4 + g.m0[h + 1] <= Next(g.m0, h) <= |m1|
    ensures m1[h + 1] == g.m0[h + 1] && m1[h + 3] == g.m0[h + 3]
  {
    MarkedLength(g, m1, s, h);
    CellUnchanged(g, m1, s, h, h + 1);
    CellUnchanged(g, m1, s, h, h + 3);
  }

  /** Finalization of one more list. */
  lemma FinalizedMore(g: Start, m: seq<Cell>, m1: seq<Cell>, s: State, calls: seq<Finalization>,
                      more: seq<Finalization>,
                      lists: set<nat>, h: nat)
    requires Marked(g, m1, s) && lists <= s.marked && Weakened(m, m1, WeakSlotsOf(g.m0, lists))
    requires h in s.marked && h !in lists && h < |g.m0| && KindOf(g.m0[h]) == GCT_WEAKPOINTERLIST
    requires Finalized(calls, m1, g.m0, lists)
    requires h + 3 < |m| && RangeFinalized(more, m, h + 4, h + 4 + m[h + 1], m[h + 3])
    ensures Finalized(calls + more, m1, g.m0, lists + {h})
  {
    ListFacts(g, m, m1, s, lists, h);
    hide Marked, Unkept, Weakened, WeakSlotsOf, KindOf, Finalized, FinalizedFor, RangeFinalized, Readable;
    FinalizedForList(g, m, m1, s, more, lists, h);
    forall a, b | a in calls && b in more
      ensures a.slot != b.slot
    {
      FinalizedApart(g, m1, s, calls, lists, h, a, b);
    }
    RangeAscends(more, m, h + 4, h + 4 + m[h + 1], m[h + 3]);
    FinalizedJoin(calls, more, m1, g.m0, lists, h);
  }

  lemma RangeAscends(calls: seq<Finalization>, m: seq<Cell>, from: nat, to: nat, finalizer: Cell)
    requires RangeFinalized(calls, m, from, to, finalizer)
    ensures forall i, j | 0 <= i < j < |calls| :: calls[i].slot < calls[j].slot
  {
  }

  lemma FinalizedForList(g: Start, m: seq<Cell>, m1: seq<Cell>, s: State, more: seq<Finalization>, lists: set<nat>,
                         h: nat)
    requires Marked(g, m1, s) && lists <= s.marked && Weakened(m, m1, WeakSlotsOf(g.m0, lists))
    requires h in s.marked && h !in lists && h < |g.m0| && KindOf(g.m0[h]) == GCT_WEAKPOINTERLIST
    requires h + 3 < |m| && RangeFinalized(more, m, h + 4, h + 4 + m[h + 1], m[h + 3])
    ensures h + 3 < |g.m0| && forall c | c in more :: FinalizedFor(c, m1, g.m0, h)
    ensures forall k: nat | IsWeakSlot(g.m0, h, k) && Unkept(m1, k) && g.m0[h + 3] != NULL ::
              Finalization(k, g.m0[h + 3], m1[k]) in more
  {
    ListFacts(g, m, m1, s, lists, h);
    hide Marked, Unkept, Weakened, WeakSlotsOf, Readable;
    forall c | c in more
      ensures FinalizedFor(c, m1, g.m0, h)
    {
      ListSlot(g, m, m1, s, lists, h, c.slot);
    }
    forall k: nat | IsWeakSlot(g.m0, h, k) && Unkept(m1, k) && g.m0[h + 3] != NULL
      ensures k < |m1| && Finalization(k, g.m0[h + 3], m1[k]) in more
    {
      ListSlot(g, m, m1, s, lists, h, k);
    }
  }

  lemma FinalizedApart(g: Start, m1: seq<Cell>, s: State, calls: seq<Finalization>, lists: set<nat>, h: nat,
                       a: Finalization, b: Finalization)
    requires Marked(g, m1, s) && lists <= s.marked && h in s.marked && h !in lists
    requires Finalized(calls, m1, g.m0, lists) && a in calls && FinalizedFor(b, m1, g.m0, h)
    ensures a.slot != b.slot
  {
    var o :| o in lists && FinalizedFor(a, m1, g.m0, o);
    WeakSlotInside(g, m1, s, h, b.slot);
    if a.slot == b.slot {
      WeakSlotOwner(g, m1, s, o, h, a.slot);
    }
  }

  lemma FinalizedJoin(calls: seq<Finalization>, more: seq<Finalization>, m1: seq<Cell>, m0: seq<Cell>, lists: set<nat>,
                      h: nat)
    requires Finalized(calls, m1, m0, lists) && h + 3 < |m0|
    requires forall i, j | 0 <= i < j < |more| :: more[i].slot < more[j].slot
    requires forall a, b | a in calls && b in more :: a.slot != b.slot
    requires forall c | c in more :: FinalizedFor(c, m1, m0, h)
    requires forall k: nat | IsWeakSlot(m0, h, k) && Unkept(m1, k) && m0[h + 3] != NULL ::
               Finalization(k, m0[h + 3], m1[k]) in more
    ensures Finalized(calls + more, m1, m0, lists + {h})
  {
    hide Unkept, IsWeakSlot, FinalizedFor;
    var all := calls + more;
    forall i, j | 0 <= i < j < |all|
      ensures all[i].slot != all[j].slot
    {
      if i < |calls| <= j {
        assert calls[i] in calls && more[j - |calls|] in more;
      }
    }
    forall c | c in all
      ensures exists o | o in lists + {h} :: FinalizedFor(c, m1, m0, o)
    {
      if c in more {
        assert FinalizedFor(c, m1, m0, h);
      } else {
        var o :| o in lists && FinalizedFor(c, m1, m0, o);
      }
    }
  }

  /** The lists before `list` on the chain are done. */
  ghost predicate ListsDone(g: Start, m: seq<Cell>, m1: seq<Cell>, s: State, done: seq<nat>, list: Cell,
                            calls: seq<Finalization>) {
    && Marked(g, m1, s)
    && done <= s.weakLists && Chained(m1, g.m0, list, s.weakLists[|done|..])
    && Weakened(m, m1, WeakSlotsOf(g.m0, Elements(done)))
    && Finalized(calls, m1, g.m0, Elements(done))
  }

  /** The next list on the chain. */
  lemma NextList(g: Start, m: seq<Cell>, m1: seq<Cell>, s: State, done: seq<nat>, list: Cell, calls: seq<Finalization>)
    requires ListsDone(g, m, m1, s, done, list, calls)
    ensures list == NULL ==> done == s.weakLists
    ensures list != NULL ==>
              && |done| < |s.weakLists| && CELL * (s.weakLists[|done|] + HEADERSIZE) == list
              && s.weakLists[|done|] in s.marked && s.weakLists[|done|] < |g.m0|
              && KindOf(g.m0[s.weakLists[|done|]]) == GCT_WEAKPOINTERLIST
              && s.weakLists[|done|] !in Elements(done) && Elements(done) <= s.marked
              && s.weakLists[|done|] + 2 < |m1|
              && Chained(m1, g.m0, m1[s.weakLists[|done|] + 2], s.weakLists[|done| + 1..])
  {
    hide KindOf, Startable, Mirrors, Followed;
    var rest := s.weakLists[|done|..];
    if rest != [] {
      assert rest[1..] == s.weakLists[|done| + 1..];
      assert rest[0] in s.weakLists;
      forall h | h in done
        ensures h in s.weakLists
      {
      }
    } else {
      assert done == s.weakLists;
    }
  }

  lemma ListDone(g: Start, m2: seq<Cell>, m: seq<Cell>, m1: seq<Cell>, s: State, done: seq<nat>, list: Cell,
                 calls: seq<Finalization>, more: seq<Finalization>, h: nat)
    requires ListsDone(g, m, m1, s, done, list, calls) && |done| < |s.weakLists| && list != NULL
    requires h == s.weakLists[|done|]
    requires h + 3 < |m| && h + 4 + m[h + 1] <= |m|
    requires Weakened(m2, m, RangeSet(h + 4, h + 4 + m[h + 1]))
    requires RangeFinalized(more, m, h + 4, h + 4 + m[h + 1], m[h + 3])
    ensures ListsDone(g, m2, m1, s, done + [h], m[h + 2], calls + more)
  {
    hide Marked, Weakened, Finalized, RangeFinalized, WeakSlotsOf, Chained, KindOf;
    NextList(g, m, m1, s, done, list, calls);
    ListFacts(g, m, m1, s, Elements(done), h);
    FinalizedMore(g, m, m1, s, calls, more, Elements(done), h);
    ListCleared(g, m2, m, m1, s, Elements(done), h);
    assert Elements(done + [h]) == Elements(done) + {h};
  }

  lemma ListsDoneFacts(g: Start, m: seq<Cell>, m1: seq<Cell>, s: State, done: seq<nat>, list: Cell,
                       calls: seq<Finalization>)
    requires ListsDone(g, m, m1, s, done, list, calls)
    ensures Marked(g, m1, s) && Weakened(m, m1, WeakSlotsOf(g.m0, Elements(done)))
  {
  }

  /** One list: clears it and goes on to the next one. */
  method MarkWeakPointerList(mem: array<Cell>, list: Cell, ghost g: Start, ghost m1: seq<Cell>, ghost s: State,
                             ghost done: seq<nat>, ghost calls: seq<Finalization>)
    returns (next: Cell, more: seq<Finalization>, ghost h: nat)
    requires ListsDone(g, mem[..], m1, s, done, list, calls) && list != NULL
    modifies mem
    ensures |done| < |s.weakLists| && h == s.weakLists[|done|]
    ensures ListsDone(g, mem[..], m1, s, done + [h], next, calls + more)
  {
    hide ListsDone, Weakened, RangeFinalized, Marked, WeakSlotsOf, Unkept, Chained, Elements, Readable, RangeSet,
      KindOf;
    ghost var m := mem[..];
    NextList(g, m, m1, s, done, list, calls);
    h := s.weakLists[|done|];
    ListsDoneFacts(g, m, m1, s, done, list, calls);
    ListFacts(g, m, m1, s, Elements(done), h);
    var header := Index(list) - HEADERSIZE;
    next := mem[header + 2];
    more := ClearList(mem, header + 4, header + 4 + mem[header + 1], mem[header + 3]);
    ListDone(g, mem[..], m, m1, s, done, list, calls, more, h);
  }

  /**
   * Walks the chain of weak pointer lists: pointers to objects that are not kept are cleared, and the finalizer of the
   * list is called for each of them.
   */
  method MarkWeakPointerLists(mem: array<Cell>, weakPointers: Cell, ghost g: Start, ghost s: State)
    returns (calls: seq<Finalization>)
    requires Marked(g, mem[..], s) && weakPointers == s.weakPointers
    modifies mem
    ensures Weakened(mem[..], old(mem[..]), WeakSlotsOf(g.m0, Elements(s.weakLists)))
    ensures Finalized(calls, old(mem[..]), g.m0, Elements(s.weakLists))
  {
    ghost var m1 := mem[..];
    NoListsDone(g, m1, s);
    hide ListsDone, Weakened, Finalized, Marked, WeakSlotsOf, Chained, Elements;
    ghost var done: seq<nat> := [];
    calls := [];
    var list := weakPointers;
    while list != NULL
      invariant ListsDone(g, mem[..], m1, s, done, list, calls)
      decreases |s.weakLists| - |done|
    {
      ghost var h;
      var more;
      list, more, h := MarkWeakPointerList(mem, list, g, m1, s, done, calls);
      done := done + [h];
      calls := calls + more;
    }
    AllListsDone(g, mem[..], m1, s, done, list, calls);
  }

  lemma AllListsDone(g: Start, m: seq<Cell>, m1: seq<Cell>, s: State, done: seq<nat>, list: Cell,
                     calls: seq<Finalization>)
    requires ListsDone(g, m, m1, s, done, list, calls) && list == NULL
    ensures Weakened(m, m1, WeakSlotsOf(g.m0, Elements(s.weakLists)))
    ensures Finalized(calls, m1, g.m0, Elements(s.weakLists))
  {
    NextList(g, m, m1, s, done, list, calls);
  }

  lemma NoListsDone(g: Start, m1: seq<Cell>, s: State)
    requires Marked(g, m1, s)
    ensures ListsDone(g, m1, m1, s, [], s.weakPointers, [])
  {
    assert s.weakLists[0..] == s.weakLists;
  }

  /** The references before `list` on the chain are done. */
  ghost predicate RefsDone(g: Start, m: seq<Cell>, m1: seq<Cell>, s: State, done: seq<nat>, list: Cell) {
    && Marked(g, m1, s)
    && done <= s.weakRefs && Chained(m1, g.m0, list, s.weakRefs[|done|..])
    && Weakened(m, m1, WeakSlotsOf(g.m0, Elements(s.weakLists) + Elements(done)))
  }

  /** The weak lists and the weak references are different marked objects. */
  lemma WeakMembers(g: Start, m1: seq<Cell>, s: State)
    requires Marked(g, m1, s)
    ensures Elements(s.weakLists) <= s.marked && Elements(s.weakRefs) <= s.marked && |m1| == |g.m0|
    ensures forall h | h in s.weakLists :: h < |g.m0| && KindOf(g.m0[h]) == GCT_WEAKPOINTERLIST
    ensures forall h | h in s.weakRefs :: h < |g.m0| && KindOf(g.m0[h]) == GCT_WEAKREFERENCE
    ensures NoDuplicates(s.weakRefs)
  {
  }

  /** The rest of the chain. */
  lemma ChainedRest(m: seq<Cell>, m0: seq<Cell>, first: Cell, list: seq<nat>, n: nat)
    requires n <= |list| && Chained(m, m0, first, list[n..])
    ensures first == NULL ==> n == |list|
    ensures first != NULL ==>
              && n < |list| && first == CELL * (list[n] + HEADERSIZE) && list[n] < |m0|
              && ReservedCell(KindOf(m0[list[n]]), list[n]) < |m|
              && Chained(m, m0, m[ReservedCell(KindOf(m0[list[n]]), list[n])], list[n + 1..])
  {
    if n < |list| {
      assert list[n..][1..] == list[n + 1..];
    }
  }

  lemma RefsDoneFacts(g: Start, m: seq<Cell>, m1: seq<Cell>, s: State, done: seq<nat>, list: Cell)
    requires RefsDone(g, m, m1, s, done, list)
    ensures Marked(g, m1, s) && Weakened(m, m1, WeakSlotsOf(g.m0, Elements(s.weakLists) + Elements(done)))
    ensures |done| <= |s.weakRefs| && done == s.weakRefs[..|done|] && Chained(m1, g.m0, list, s.weakRefs[|done|..])
  {
  }

  lemma NextRef(g: Start, m: seq<Cell>, m1: seq<Cell>, s: State, done: seq<nat>, list: Cell)
    requires RefsDone(g, m, m1, s, done, list)
    ensures Marked(g, m1, s) && Weakened(m, m1, WeakSlotsOf(g.m0, Elements(s.weakLists) + Elements(done)))
    ensures Elements(s.weakLists) + Elements(done) <= s.marked
    ensures list == NULL ==> done == s.weakRefs
    ensures list != NULL ==>
              && |done| < |s.weakRefs| && CELL * (s.weakRefs[|done|] + HEADERSIZE) == list
              && s.weakRefs[|done|] in s.marked && s.weakRefs[|done|] < |g.m0|
              && KindOf(g.m0[s.weakRefs[|done|]]) == GCT_WEAKREFERENCE
              && s.weakRefs[|done|] !in Elements(s.weakLists) + Elements(done)
              && s.weakRefs[|done|] + 4 < |m1|
              && Chained(m1, g.m0, m1[s.weakRefs[|done|] + 4], s.weakRefs[|done| + 1..])
  {
    hide RefsDone, Marked, Chained, Weakened, WeakSlotsOf, KindOf;
    RefsDoneFacts(g, m, m1, s, done, list);
    WeakMembers(g, m1, s);
    ChainedRest(m1, g.m0, list, s.weakRefs, |done|);
    assert forall h | h in done :: h in s.weakRefs;
    if list != NULL {
      var h := s.weakRefs[|done|];
      assert h in Elements(s.weakRefs);
      assert h !in done;
    }
  }

  /** A weak reference has one weak pointer. */
  lemma SlotsOfRef(m: seq<Cell>, h: nat)
    requires h + 3 < |m| && KindOf(m[h]) == GCT_WEAKREFERENCE
    ensures WeakSlotsOf(m, {h}) == {h + 3} && IsWeakSlot(m, h, h + 3) && !IsWeakSlot(m, h, h + 4)
  {
    hide KindOf;
    forall k: nat
      ensures k in WeakSlotsOf(m, {h}) <==> k == h + 3
    {
      assert HasWeakSlot(m, {h}, k) <==> IsWeakSlot(m, h, k);
    }
  }

  /** What is read of a weak reference. */
  lemma RefFacts(g: Start, m: seq<Cell>, m1: seq<Cell>, s: State, objects: set<nat>, h: nat)
    requires Marked(g, m1, s) && objects <= s.marked && Weakened(m, m1, WeakSlotsOf(g.m0, objects))
    requires h in s.marked && h !in objects && h < |g.m0| && KindOf(g.m0[h]) == GCT_WEAKREFERENCE
    ensures h + 4 < |m| == |m1| == |g.m0| && m[h + 4] == m1[h + 4]
    ensures m[h + 3] != NULL ==> 1 <= m[h + 3] / CELL <= |m|
    ensures WeakSlotsOf(g.m0, {h}) == {h + 3}
  {
    hide Marked, InUse, KindOf, Weakened, WeakSlotsOf, IsWeakSlot, Headers, Tiled;
    MarkedLength(g, m1, s, h);
    RefCells(g, m1, s, h);
    SlotsOfRef(g.m0, h);
    NotCleared(g, m, m1, s, objects, h, h + 4);
    NotCleared(g, m, m1, s, objects, h, h + 3);
    WeakSlotInside(g, m1, s, h, h + 3);
  }

  lemma RefCells(g: Start, m1: seq<Cell>, s: State, h: nat)
    requires Marked(g, m1, s) && h in s.marked && h < |g.m0| && KindOf(g.m0[h]) == GCT_WEAKREFERENCE
    ensures h + 4 < Next(g.m0, h) <= |m1|
  {
    MarkedLength(g, m1, s, h);
  }

  lemma RefDone(g: Start, m2: seq<Cell>, m: seq<Cell>, m1: seq<Cell>, s: State, done: seq<nat>, list: Cell, h: nat)
    requires RefsDone(g, m, m1, s, done, list) && |done| < |s.weakRefs| && list != NULL && h == s.weakRefs[|done|]
    requires h + 4 < |m| && Weakened(m2, m, {h + 3})
    ensures RefsDone(g, m2, m1, s, done + [h], m[h + 4])
  {
    hide Marked, Weakened, WeakSlotsOf, Chained, KindOf;
    NextRef(g, m, m1, s, done, list);
    var objects := Elements(s.weakLists) + Elements(done);
    RefFacts(g, m, m1, s, objects, h);
    WeakSlotsAligned(g, m1, s, objects);
    WeakenedTrans(m2, m, m1, WeakSlotsOf(g.m0, objects), WeakSlotsOf(g.m0, {h}));
    WeakSlotsOfUnion(g.m0, objects, {h});
    assert Elements(s.weakLists) + Elements(done + [h]) == objects + {h};
  }

  /** One weak reference: clears it if its referent is not kept, and goes on to the next one. */
  method MarkWeakReference(mem: array<Cell>, thisRef: Cell, ghost g: Start, ghost m1: seq<Cell>, ghost s: State,
                           ghost done: seq<nat>)
    returns (next: Cell, ghost h: nat)
    requires RefsDone(g, mem[..], m1, s, done, thisRef) && thisRef != NULL
    modifies mem
    ensures |done| < |s.weakRefs| && h == s.weakRefs[|done|]
    ensures RefsDone(g, mem[..], m1, s, done + [h], next)
  {
    hide RefsDone, Marked, WeakSlotsOf, Chained, Elements, KindOf, IsMarked;
    ghost var m := mem[..];
    NextRef(g, m, m1, s, done, thisRef);
    h := s.weakRefs[|done|];
    RefFacts(g, m, m1, s, Elements(s.weakLists) + Elements(done), h);
    var header := Index(thisRef) - HEADERSIZE;
    var referent := mem[header + 3];
    if referent != NULL && !IsMarked(mem[referent / CELL - HEADERSIZE]) {
      mem[header + 3] := NULL;
    }
    next := mem[header + 4];
    RefDone(g, mem[..], m, m1, s, done, thisRef, h);
  }

  /** Walks the chain of weak references and clears those whose referent is not kept. */
  method MarkWeakReferences(mem: array<Cell>, weakReferences: Cell, ghost g: Start, ghost m1: seq<Cell>, ghost s: State)
    requires Marked(g, m1, s) && weakReferences == s.weakReferences
    requires Weakened(mem[..], m1, WeakSlotsOf(g.m0, Elements(s.weakLists)))
    modifies mem
    ensures Weakened(mem[..], m1, WeakSlotsOf(g.m0, s.marked))
  {
    NoRefsDone(g, mem[..], m1, s);
    hide RefsDone, Weakened, Marked, WeakSlotsOf;
    ghost var done: seq<nat> := [];
    var thisRef := weakReferences;
    while thisRef != NULL
      invariant RefsDone(g, mem[..], m1, s, done, thisRef)
      decreases |s.weakRefs| - |done|
    {
      ghost var h;
      thisRef, h := MarkWeakReference(mem, thisRef, g, m1, s, done);
      done := done + [h];
    }
    AllRefsDone(g, mem[..], m1, s, done, thisRef);
  }

  lemma NoRefsDone(g: Start, m: seq<Cell>, m1: seq<Cell>, s: State)
    requires Marked(g, m1, s) && Weakened(m, m1, WeakSlotsOf(g.m0, Elements(s.weakLists)))
    ensures RefsDone(g, m, m1, s, [], s.weakReferences)
  {
    assert s.weakRefs[0..] == s.weakRefs;
    assert Elements(s.weakLists) + Elements([]) == Elements(s.weakLists);
  }

  lemma AllRefsDone(g: Start, m: seq<Cell>, m1: seq<Cell>, s: State, done: seq<nat>, list: Cell)
    requires RefsDone(g, m, m1, s, done, list) && list == NULL
    ensures Weakened(m, m1, WeakSlotsOf(g.m0, s.marked))
  {
    NextRef(g, m, m1, s, done, list);
    var weak := Elements(s.weakLists) + Elements(s.weakRefs);
    forall k: nat
      ensures k in WeakSlotsOf(g.m0, weak) <==> k in WeakSlotsOf(g.m0, s.marked)
    {
      if k < |g.m0| && HasWeakSlot(g.m0, s.marked, k) {
        var h :| h in s.marked && IsWeakSlot(g.m0, h, k);
        assert h in s.weakLists || h in s.weakRefs;
        assert HasWeakSlot(g.m0, weak, k);
      }
      if k < |g.m0| && HasWeakSlot(g.m0, weak, k) {
        var h :| h in weak && IsWeakSlot(g.m0, h, k);
      }
    }
  }

  /** v points to an object of the heap that is not marked. */
  ghost predicate Unreached(g: Start, marked: set<nat>, v: Cell) {
    v != NULL && InHeap(g.lo, g.hi, v) && HeaderAt(v) !in marked
  }

  lemma MarkBits(g: Start, m1: seq<Cell>, s: State, h: nat)
    requires Marked(g, m1, s) && h in Headers(g.m0, g.lo, g.hi)
    ensures h < |m1| && (IsMarked(m1[h]) <==> h in s.marked)
  {
    HeaderBounds(g.m0, g.lo, g.hi, h);
    MarkKeepsSizeAndKind(g.m0[h]);
    assert m1[h] == Stamped(g.m0[h], h in s.marked);
  }

  /**
   * What becomes of a weak pointer of a marked object.  If it points into the heap it is cleared exactly when its
   * object is not marked; otherwise the cell before its object decides.
   */
  lemma WeakPointerAfter(g: Start, m2: seq<Cell>, m1: seq<Cell>, s: State, h: nat, k: nat)
    requires Marked(g, m1, s) && Weakened(m2, m1, WeakSlotsOf(g.m0, s.marked)) && h in s.marked
    requires IsWeakSlot(g.m0, h, k)
    ensures k < |m2| == |g.m0| && (m2[k] == NULL || m2[k] == g.m0[k])
    ensures InHeap(g.lo, g.hi, g.m0[k]) ==> (m2[k] == NULL <==> Unreached(g, s.marked, g.m0[k]))
    ensures !InHeap(g.lo, g.hi, g.m0[k]) && g.m0[k] != NULL ==>
              1 <= g.m0[k] / CELL <= |m1| && (m2[k] == NULL <==> !IsMarked(m1[g.m0[k] / CELL - HEADERSIZE]))
  {
    hide Marked, IsWeakSlot, IsMarked, InUse, Fits, Sound, Headers, Tiled;
    WeakSlotInside(g, m1, s, h, k);
    assert HasWeakSlot(g.m0, s.marked, k);
    var v := g.m0[k];
    if InHeap(g.lo, g.hi, v) {
      MarkBits(g, m1, s, HeaderAt(v));
    }
  }
}
