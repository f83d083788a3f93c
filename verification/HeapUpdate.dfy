/** updateHeapObjects: rewriting the pointers of the objects that compaction has left at the bottom of the heap. */
module HeapUpdate {
  import opened Cells
  import opened FreeList
  import opened Objects
  import opened HeapShape
  import opened BreakTable
  import opened Marking
  import opened Relocation

  /** OBJECT_HAS_MONITOR: a tagged pointer to a monitor or a thread, not a hash code. */
  function MonitorSlot(m: seq<Cell>, h: nat): seq<nat> {
    if h + 2 < |m| && m[h + 2] % 4 != MHC_UNLOCKED then [h + 2] else []
  }

  /** The cells of the object at h that are rewritten. */
  function PointerSlots(classOf: Cell -> Class, m: seq<Cell>, h: nat): (slots: seq<nat>)
  {
    if h + 1 >= |m| then [] else
    var kind := KindOf(m[h]);
    if kind == GCT_INSTANCE || kind == GCT_WEAKREFERENCE then
      MonitorSlot(m, h) + SlotsAt(h + 3, InstanceOffsets(classOf(m[h + 1])))
    else if kind == GCT_ARRAY then MonitorSlot(m, h)
    else if kind == GCT_OBJECTARRAY && h + 3 < |m| then MonitorSlot(m, h) + Range(h + 4, m[h + 3])
    else if kind == GCT_POINTERLIST then Range(h + 2, m[h + 1])
    else if kind == GCT_WEAKPOINTERLIST then Range(h + 4, m[h + 1])
    else if kind == GCT_MONITOR then [h + 1, h + 2, h + 3]
    else if kind == GCT_THREAD then [h + 1, h + 2, h + 3, h + 10, h + 12, h + 5]
    else []
  }

  /** No two fields of a class share an offset. */
  ghost predicate LaidOut(classOf: Cell -> Class) {
    forall c: Cell :: NoDuplicates(InstanceOffsets(classOf(c)))
  }

  /** The cells to rewrite lie inside the object and are different. */
  ghost predicate Updatable(classOf: Cell -> Class, m: seq<Cell>, h: nat) {
    && h + 1 < |m| && Next(m, h) <= |m|
    && var slots := PointerSlots(classOf, m, h);
       NoDuplicates(slots) && forall s | s in slots :: h < s < Next(m, h)
  }

  lemma NoDuplicatesJoin(a: seq<nat>, b: seq<nat>)
    requires NoDuplicates(a) && NoDuplicates(b) && forall x | x in a :: x !in b
    ensures NoDuplicates(a + b)
  {
    var c := a + b;
    forall i, j | 0 <= i < j < |c|
      ensures c[i] != c[j]
    {
      if i < |a| <= j {
        assert c[i] in a && c[j] == b[j - |a|];
      }
    }
  }

  lemma FieldSlots(offsets: seq<nat>, h: nat, slots: seq<nat>)
    requires NoDuplicates(offsets) && slots == SlotsAt(h + 3, offsets)
    ensures NoDuplicates(slots) && forall s | s in slots :: h + 3 <= s < h + 3 + Extent(offsets)
  {
    forall i | 0 <= i < |slots|
      ensures h + 3 <= slots[i] < h + 3 + Extent(offsets)
    {
      ExtentBounds(offsets, i);
    }
  }

  /** An object of a class whose fields do not overlap can be updated. */
  lemma FitsUpdatable(classOf: Cell -> Class, m: seq<Cell>, h: nat)
    requires Fits(classOf, m, h) && NoDuplicates(InstanceOffsets(classOf(m[h + 1])))
    ensures Updatable(classOf, m, h)
  {
    hide KindOf, SizeOf;
    var kind := KindOf(m[h]);
    if kind == GCT_INSTANCE || kind == GCT_WEAKREFERENCE {
      FieldSlots(InstanceOffsets(classOf(m[h + 1])), h, SlotsAt(h + 3, InstanceOffsets(classOf(m[h + 1]))));
      NoDuplicatesJoin(MonitorSlot(m, h), SlotsAt(h + 3, InstanceOffsets(classOf(m[h + 1]))));
    } else if kind == GCT_OBJECTARRAY {
      NoDuplicatesJoin(MonitorSlot(m, h), Range(h + 4, m[h + 3]));
    }
  }

  /** m2 is m1 with the given cells relocated. */
  ghost predicate Rewritten(m2: seq<Cell>, m1: seq<Cell>, t: Table, slots: set<nat>) {
    && |m2| == |m1| && Swept(t.lo, t.hi, t.chunks)
    && forall k {:trigger m2[k]} | 0 <= k < |m2| :: m2[k] == if k in slots then Relocated(t, m1[k]) else m1[k]
  }

  lemma RewrittenAt(m2: seq<Cell>, m1: seq<Cell>, t: Table, slots: set<nat>, k: nat)
    requires Rewritten(m2, m1, t, slots) && k < |m2|
    ensures |m2| == |m1| && m2[k] == if k in slots then Relocated(t, m1[k]) else m1[k]
  {
  }

  lemma RewrittenTrans(m2: seq<Cell>, m1: seq<Cell>, m: seq<Cell>, t: Table, first: set<nat>, second: set<nat>)
    requires Rewritten(m1, m, t, first) && Rewritten(m2, m1, t, second) && first !! second
    ensures Rewritten(m2, m, t, first + second)
  {
    hide Relocated, Swept;
    forall k | 0 <= k < |m2|
      ensures m2[k] == if k in first + second then Relocated(t, m[k]) else m[k]
    {
      assert m1[k] == if k in first then Relocated(t, m[k]) else m[k];
    }
  }

  /** Rewriting cells below the table leaves the table alone. */
  lemma TableKept(m2: seq<Cell>, m1: seq<Cell>, t: Table, slots: set<nat>)
    requires TableIn(m1, t) && Rewritten(m2, m1, t, slots) && forall k | k in slots :: k < t.location
    ensures TableIn(m2, t)
  {
    hide Relocated, Swept, CellsOf, Breaks;
    var table := CellsOf(Breaks(t.lo, t.hi, t.chunks, t.length));
    HoldsFits(m1, t.location, table);
    FramedFromCells(m2, m1, 0, t.location);
    HoldsKept(m2, m1, 0, t.location, t.location, table);
  }

  lemma RewrittenNone(m: seq<Cell>, t: Table)
    requires Swept(t.lo, t.hi, t.chunks)
    ensures Rewritten(m, m, t, {})
  {
  }

  lemma RewrittenOne(m: seq<Cell>, t: Table, k: nat)
    requires Swept(t.lo, t.hi, t.chunks) && k < |m|
    ensures Rewritten(m[k := Relocated(t, m[k])], m, t, {k})
  {
    hide Swept, Relocated;
  }

  /** The cells can be rewritten without touching the table. */
  ghost predicate Writable(mem: array<Cell>, t: Table, target: array<Cell>, slots: seq<nat>) {
    NoDuplicates(slots) && forall s | s in slots :: s < target.Length && (target == mem ==> s < t.location)
  }

  /** updatePointer on each of the given cells, of the heap or of memory outside it. */
  method UpdatePointers(mem: array<Cell>, t: Table, target: array<Cell>, slots: seq<nat>)
    requires TableIn(mem[..], t) && Writable(mem, t, target, slots)
    modifies target
    ensures TableIn(mem[..], t) && Rewritten(target[..], old(target[..]), t, Elements(slots))
  {
    hide TableIn, Rewritten, Swept, Relocated;
    ghost var m := target[..];
    TableShape(mem[..], t);
    RewrittenNone(m, t);
    assert Elements(slots[..0]) == {};
    var i := 0;
    while i < |slots|
      invariant 0 <= i <= |slots|
      invariant TableIn(mem[..], t) && Rewritten(target[..], m, t, Elements(slots[..i]))
    {
      UpdateSlot(mem, t, target, slots, i, m);
      i := i + 1;
    }
    assert slots[..i] == slots;
  }

  method UpdateSlot(mem: array<Cell>, t: Table, target: array<Cell>, slots: seq<nat>, i: nat, ghost m: seq<Cell>)
    requires TableIn(mem[..], t) && Writable(mem, t, target, slots) && i < |slots|
    requires Rewritten(target[..], m, t, Elements(slots[..i]))
    modifies target
    ensures TableIn(mem[..], t) && Rewritten(target[..], m, t, Elements(slots[..i + 1]))
  {
    hide TableIn, Rewritten, Swept, Relocated;
    ghost var before, memory := target[..], mem[..];
    TableShape(memory, t);
    var s := slots[i];
    assert s in slots;
    var value := UpdatePointer(mem, t, target[s]);
    RewrittenOne(before, t, s);
    target[s] := value;
    assert target[..] == before[s := value];
    assert s !in slots[..i];
    assert slots[..i + 1] == slots[..i] + [s];
    assert Elements(slots[..i + 1]) == Elements(slots[..i]) + {s};
    RewrittenTrans(target[..], before, m, t, Elements(slots[..i]), {s});
    if target == mem {
      TableKept(mem[..], memory, t, {s});
    }
  }

  ghost predicate HasPointerSlot(classOf: Cell -> Class, m: seq<Cell>, objects: set<nat>, k: nat) {
    exists h | h in objects :: Updatable(classOf, m, h) && k in PointerSlots(classOf, m, h)
  }

  /** The cells of the given objects that are rewritten. */
  ghost function PointerSlotsOf(classOf: Cell -> Class, m: seq<Cell>, objects: set<nat>): set<nat> {
    set k: nat | k < |m| && HasPointerSlot(classOf, m, objects, k)
  }

  /** The heap after compaction: a row of objects below the table. */
  ghost predicate Compact(classOf: Cell -> Class, m: seq<Cell>, t: Table, end: nat) {
    && TableIn(m, t) && t.lo <= end <= t.location && Tiled(m, t.lo, end)
    && forall h | h in Headers(m, t.lo, end) :: Updatable(classOf, m, h)
  }

  /** The objects below `scanner` are rewritten. */
  ghost predicate UpdatedTo(classOf: Cell -> Class, mem: seq<Cell>, m: seq<Cell>, t: Table, end: nat, scanner: nat,
                            done: set<nat>) {
    && Compact(classOf, m, t, end) && TableIn(mem, t)
    && (scanner == end || scanner in Headers(m, t.lo, end)) && scanner <= end
    && done <= Headers(m, t.lo, end) && (forall h | h in Headers(m, t.lo, end) :: h in done <==> h < scanner)
    && Rewritten(mem, m, t, PointerSlotsOf(classOf, m, done))
  }

  lemma UpdateStart(classOf: Cell -> Class, m: seq<Cell>, t: Table, end: nat)
    requires Compact(classOf, m, t, end)
    ensures UpdatedTo(classOf, m, m, t, end, t.lo, {})
  {
    hide Updatable, TableIn, Relocated;
    TableShape(m, t);
    forall h | h in Headers(m, t.lo, end)
      ensures t.lo <= h
    {
      HeaderBounds(m, t.lo, end, h);
    }
    assert PointerSlotsOf(classOf, m, {}) == {};
    RewrittenNone(m, t);
  }

  /** The slots of different objects are different. */
  lemma SlotOwner(classOf: Cell -> Class, m: seq<Cell>, t: Table, end: nat, objects: set<nat>, h: nat, k: nat)
    requires Compact(classOf, m, t, end) && objects <= Headers(m, t.lo, end) && h in Headers(m, t.lo, end)
    requires h !in objects
    requires h < |m| && h <= k < Next(m, h)
    ensures k !in PointerSlotsOf(classOf, m, objects)
  {
    hide Compact, PointerSlots, Headers, Tiled, Updatable;
    if k in PointerSlotsOf(classOf, m, objects) {
      var o :| o in objects && Updatable(classOf, m, o) && k in PointerSlots(classOf, m, o);
      SlotInside(classOf, m, o, k);
      CompactTiled(classOf, m, t, end);
      if o < h {
        HeadersApart(m, t.lo, end, o, h);
      } else {
        HeadersApart(m, t.lo, end, h, o);
      }
    }
  }

  lemma SlotInside(classOf: Cell -> Class, m: seq<Cell>, h: nat, k: nat)
    requires Updatable(classOf, m, h) && k in PointerSlots(classOf, m, h)
    ensures h < k < Next(m, h) <= |m|
  {
  }

  lemma CompactTiled(classOf: Cell -> Class, m: seq<Cell>, t: Table, end: nat)
    requires Compact(classOf, m, t, end)
    ensures Tiled(m, t.lo, end) && TableIn(m, t) && t.lo <= end <= t.location && end <= |m|
  {
  }

  /** Nothing at or behind the scanner has been touched yet. */
  lemma Untouched(classOf: Cell -> Class, mem: seq<Cell>, m: seq<Cell>, t: Table, end: nat, scanner: nat,
                  done: set<nat>, k: nat)
    requires UpdatedTo(classOf, mem, m, t, end, scanner, done) && scanner < end && scanner <= k < |m|
    ensures |m| == |mem| && mem[k] == m[k]
  {
    hide TableIn, Updatable, Relocated, Headers, Tiled, PointerSlots, Next, Swept;
    CompactTiled(classOf, m, t, end);
    if k in PointerSlotsOf(classOf, m, done) {
      var o :| o in done && Updatable(classOf, m, o) && k in PointerSlots(classOf, m, o);
      SlotInside(classOf, m, o, k);
      HeadersApart(m, t.lo, end, o, scanner);
    }
  }

  lemma UpdatedObject(classOf: Cell -> Class, mem2: seq<Cell>, mem: seq<Cell>, m: seq<Cell>, t: Table, end: nat,
                      scanner: nat, done: set<nat>)
    requires UpdatedTo(classOf, mem, m, t, end, scanner, done) && scanner < end && TableIn(mem2, t)
    requires scanner < |m| && Updatable(classOf, m, scanner)
    requires Rewritten(mem2, mem, t, Elements(PointerSlots(classOf, m, scanner)))
    ensures UpdatedTo(classOf, mem2, m, t, end, Next(m, scanner), done + {scanner})
  {
    hide TableIn, Updatable, Relocated, Headers, Tiled, PointerSlots, Next, Swept;
    CompactTiled(classOf, m, t, end);
    var slots := PointerSlotsOf(classOf, m, {scanner});
    OneObject(classOf, m, scanner);
    SlotsApart(classOf, m, t, end, done, scanner);
    RewrittenTrans(mem2, mem, m, t, PointerSlotsOf(classOf, m, done), slots);
    SlotsUnion(classOf, m, done, {scanner});
    NextHeader(m, t.lo, end, scanner);
    forall h | h in Headers(m, t.lo, end)
      ensures h in done + {scanner} <==> h < Next(m, scanner)
    {
      if scanner < h {
        HeadersApart(m, t.lo, end, scanner, h);
      }
    }
  }

  lemma OneObject(classOf: Cell -> Class, m: seq<Cell>, h: nat)
    requires h < |m| && Updatable(classOf, m, h)
    ensures PointerSlotsOf(classOf, m, {h}) == Elements(PointerSlots(classOf, m, h))
  {
    forall k: nat
      ensures k in PointerSlotsOf(classOf, m, {h}) <==> k in Elements(PointerSlots(classOf, m, h))
    {
      if k in Elements(PointerSlots(classOf, m, h)) {
        SlotInside(classOf, m, h, k);
        assert HasPointerSlot(classOf, m, {h}, k);
      }
    }
  }

  lemma SlotsApart(classOf: Cell -> Class, m: seq<Cell>, t: Table, end: nat, objects: set<nat>, h: nat)
    requires Compact(classOf, m, t, end) && objects <= Headers(m, t.lo, end) && h in Headers(m, t.lo, end)
    requires h !in objects
    requires h < |m| && Updatable(classOf, m, h)
    ensures PointerSlotsOf(classOf, m, objects) !! PointerSlotsOf(classOf, m, {h})
  {
    hide Compact, PointerSlots, Headers, Tiled, Updatable, PointerSlotsOf;
    OneObject(classOf, m, h);
    forall k | k in PointerSlotsOf(classOf, m, {h})
      ensures k !in PointerSlotsOf(classOf, m, objects)
    {
      SlotInside(classOf, m, h, k);
      SlotOwner(classOf, m, t, end, objects, h, k);
    }
  }

  lemma SlotsUnion(classOf: Cell -> Class, m: seq<Cell>, a: set<nat>, b: set<nat>)
    ensures PointerSlotsOf(classOf, m, a + b) == PointerSlotsOf(classOf, m, a) + PointerSlotsOf(classOf, m, b)
  {
    hide Updatable, PointerSlots;
  }

  lemma CompactObject(classOf: Cell -> Class, m: seq<Cell>, t: Table, end: nat, h: nat)
    requires Compact(classOf, m, t, end) && h in Headers(m, t.lo, end)
    ensures h + 1 < |m| && Updatable(classOf, m, h) && Next(m, h) <= end <= t.location
  {
    CompactTiled(classOf, m, t, end);
    HeaderBounds(m, t.lo, end, h);
  }

  /** The slots of an object are found in its first four cells. */
  lemma SameSlots(classOf: Cell -> Class, mem: seq<Cell>, m: seq<Cell>, h: nat)
    requires |mem| == |m| && forall k {:trigger mem[k]} | h <= k < |m| :: mem[k] == m[k]
    ensures PointerSlots(classOf, mem, h) == PointerSlots(classOf, m, h)
  {
    hide KindOf;
  }

  /** What is read of the object at the scanner is what compaction has left there. */
  lemma ObjectRead(classOf: Cell -> Class, mem: seq<Cell>, m: seq<Cell>, t: Table, end: nat, scanner: nat,
                   done: set<nat>)
    requires UpdatedTo(classOf, mem, m, t, end, scanner, done) && scanner < end
    ensures scanner + 1 < |mem| == |m| && Updatable(classOf, m, scanner) && Next(m, scanner) <= end <= t.location
    ensures mem[scanner] == m[scanner] && PointerSlots(classOf, mem, scanner) == PointerSlots(classOf, m, scanner)
  {
    hide TableIn, KindOf, SizeOf, Headers, Tiled, Compact, PointerSlots, Updatable, PointerSlotsOf, Rewritten;
    CompactTiled(classOf, m, t, end);
    CompactObject(classOf, m, t, end, scanner);
    forall k | scanner <= k < |m|
      ensures |m| == |mem| && mem[k] == m[k]
    {
      Untouched(classOf, mem, m, t, end, scanner, done, k);
    }
    Untouched(classOf, mem, m, t, end, scanner, done, scanner);
    SameSlots(classOf, mem, m, scanner);
  }

  /** Rewrites the pointers of the objects in [lo, endScanPoint). */
  method UpdateHeapObjects(mem: array<Cell>, t: Table, endScanPoint: nat, classOf: Cell -> Class)
    requires Compact(classOf, mem[..], t, endScanPoint)
    modifies mem
    ensures TableIn(mem[..], t)
    ensures var m := old(mem[..]);
            Tiled(m, t.lo, endScanPoint)
              && Rewritten(mem[..], m, t, PointerSlotsOf(classOf, m, Headers(m, t.lo, endScanPoint)))
  {
    hide Compact, UpdatedTo, TableIn, Rewritten, PointerSlotsOf, Headers, Tiled;
    ghost var m := mem[..];
    CompactTiled(classOf, m, t, endScanPoint);
    UpdateStart(classOf, m, t, endScanPoint);
    var scanner := t.lo;
    ghost var done: set<nat> := {};
    while scanner < endScanPoint
      invariant scanner <= endScanPoint && UpdatedTo(classOf, mem[..], m, t, endScanPoint, scanner, done)
      decreases endScanPoint - scanner
    {
      ghost var updated;
      scanner, updated := UpdateObject(mem, t, endScanPoint, classOf, scanner, m, done);
      done := done + {updated};
    }
    UpdateEnd(classOf, mem[..], m, t, endScanPoint, scanner, done);
  }

  lemma UpdateEnd(classOf: Cell -> Class, mem: seq<Cell>, m: seq<Cell>, t: Table, end: nat, scanner: nat,
                  done: set<nat>)
    requires UpdatedTo(classOf, mem, m, t, end, scanner, done) && scanner == end
    ensures TableIn(mem, t) && Tiled(m, t.lo, end)
    ensures Rewritten(mem, m, t, PointerSlotsOf(classOf, m, Headers(m, t.lo, end)))
  {
    hide TableIn, Updatable, Relocated, Tiled, PointerSlotsOf, Next, Swept, Rewritten;
    CompactTiled(classOf, m, t, end);
    forall h | h in Headers(m, t.lo, end)
      ensures h in done
    {
      HeaderBounds(m, t.lo, end, h);
    }
    assert done == Headers(m, t.lo, end);
  }

  /** Rewrites the pointers of one object. */
  method UpdateObject(mem: array<Cell>, t: Table, endScanPoint: nat, classOf: Cell -> Class, from: nat,
                      ghost m: seq<Cell>, ghost done: set<nat>)
    returns (scanner: nat, ghost updated: nat)
    requires UpdatedTo(classOf, mem[..], m, t, endScanPoint, from, done) && from < endScanPoint
    modifies mem
    ensures from < scanner <= endScanPoint && UpdatedTo(classOf, mem[..], m, t, endScanPoint, scanner, done + {updated})
  {
    hide UpdatedTo, TableIn, Rewritten, PointerSlots, Headers, Tiled, NoDuplicates;
    ghost var before := mem[..];
    ObjectRead(classOf, before, m, t, endScanPoint, from, done);
    TableInNow(classOf, before, m, t, endScanPoint, from, done);
    updated := from;
    scanner := from + SizeOf(mem[from]) + HEADERSIZE;
    UpdatePointers(mem, t, mem, PointerSlots(classOf, mem[..], from));
    UpdatedObject(classOf, mem[..], before, m, t, endScanPoint, from, done);
  }

  lemma TableInNow(classOf: Cell -> Class, mem: seq<Cell>, m: seq<Cell>, t: Table, end: nat, scanner: nat,
                   done: set<nat>)
    requires UpdatedTo(classOf, mem, m, t, end, scanner, done)
    ensures TableIn(mem, t)
  {
  }
}
