/** What every cell of every copy holds when a collection of the copying collector (collectorDebug.c) is over. */
module CheneyOutcome {
  import opened Cells
  import opened FreeList
  import opened Objects
  import opened HeapShape
  import opened Marking
  import opened TwoSpaces
  import opened CheneyCopying
  import opened CheneyScanning
  import opened CheneyWeak
  import opened CheneyWeakLists

  /** Only scanned cells and links of h have been touched. */
  lemma TouchedByOwner(sp: Spaces, p: Progress, h: nat, s: nat)
    requires Good(sp) && InOrder(sp, p) && p.where.Keys <= Headers(sp.m0, sp.lo, sp.free) && Scanned(sp, p, |p.order|)
    requires h in Headers(sp.m0, sp.lo, sp.free) && h < |sp.m0| && h < s < Next(sp.m0, h) && s in p.done + p.other.Keys
    ensures IsTouched(sp, h, s)
  {
    hide Good, Headers, Tiled, IsTouched, Total;
    assert IsOfScanned(sp, p, |p.order|, s);
    var i :| 0 <= i < |p.order| && p.order[i] < |sp.m0| && p.order[i] < s < Next(sp.m0, p.order[i])
      && IsTouched(sp, p.order[i], s);
    assert p.order[i] in Elements(p.order);
    if p.order[i] != h {
      ObjectsApart(sp, p.order[i], h);
    }
  }

  /** After scanning, only links have values of their own. */
  lemma LinkByOwner(sp: Spaces, p: Progress, h: nat, s: nat)
    requires Good(sp) && InOrder(sp, p) && p.where.Keys <= Headers(sp.m0, sp.lo, sp.free) && Scanned(sp, p, |p.order|)
    requires h in Headers(sp.m0, sp.lo, sp.free) && h < |sp.m0| && h < s < Next(sp.m0, h) && s in p.other
    ensures IsLinkOf(sp, h, s)
  {
    hide Good, Headers, Tiled, IsTouched, Total, IsLinkOf, Scanned, SizeOf;
    var g := LinkOwner(sp, p, s);
    GoodIsApart(sp);
    LinkIsInside(sp, g, s);
    if g != h {
      ObjectsApart(sp, g, h);
    }
  }

  lemma LinkOwner(sp: Spaces, p: Progress, s: nat) returns (g: nat)
    requires InOrder(sp, p) && Scanned(sp, p, |p.order|) && s in p.other
    ensures g in p.where && IsLinkOf(sp, g, s)
  {
    hide Total, IsLinkOf, IsOfScanned, ScanSlots;
    assert IsLinkOfScanned(sp, p, |p.order|, s);
    var i :| 0 <= i < |p.order| && IsLinkOf(sp, p.order[i], s);
    g := p.order[i];
    assert g in Elements(p.order);
  }

  lemma LinkIsInside(sp: Spaces, g: nat, s: nat)
    requires Good(sp) && Tiled(sp.m0, sp.lo, sp.free) && g in Headers(sp.m0, sp.lo, sp.free) && IsLinkOf(sp, g, s)
    ensures g < |sp.m0| && g < s < Next(sp.m0, g)
  {
    hide Good, Headers, Tiled, KindOf, SizeOf;
    ObjectShape(sp, g);
  }

  lemma NoDuplicatesInWeakCells(m: seq<Cell>, h: nat)
    ensures NoDuplicates(WeakCells(m, h))
  {
  }

  lemma SecondCellUntouched(sp: Spaces, h: nat)
    requires h < |sp.m0| && Fits(sp.classOf, sp.m0, h) && IsWeak(KindOf(sp.m0[h]))
    ensures !IsTouched(sp, h, h + 1)
  {
  }

  /** When every copy has been scanned, the weak pointers are still as they were. */
  lemma UnprocessedAfterScanning(m: seq<Cell>, sp: Spaces, p: Progress, kind: nat, list: seq<nat>)
    requires Copied(m, sp, p) && Scanned(sp, p, |p.order|) && GoodWeakPointers(sp) && IsWeak(kind)
    requires ListsAll(sp, p, |p.order|, kind, list)
    ensures Unprocessed(sp, p, kind, list)
  {
    hide Copied, Good, Headers, Tiled, Scanned, IsTouched, Total, KindOf, OldSpace, NewSpace, WeakCells,
      GoodWeakPointers, NoDuplicates, IsInside, HasCopy, SizeOf;
    CopiedFacts(m, sp, p);
    assert p.order[..|p.order|] == p.order;
    forall h | h in list
      ensures h in p.where && h < |sp.m0| && KindOf(sp.m0[h]) == kind && FreshCells(p, WeakCells(sp.m0, h))
      ensures h + 1 !in p.done && h + 1 !in p.other
    {
      assert h in Elements(p.order);
      UnprocessedObject(sp, p, h);
    }
  }

  lemma UnprocessedObject(sp: Spaces, p: Progress, h: nat)
    requires Good(sp) && InOrder(sp, p) && p.where.Keys <= Headers(sp.m0, sp.lo, sp.free) && Scanned(sp, p, |p.order|)
    requires GoodWeakPointers(sp)
    requires h in p.where && h < |sp.m0| && IsWeak(KindOf(sp.m0[h]))
    ensures FreshCells(p, WeakCells(sp.m0, h)) && h + 1 !in p.done && h + 1 !in p.other
  {
    hide Good, Headers, Tiled, Scanned, IsTouched, Total, KindOf, WeakCells, GoodWeakPointers, InOrder, NoDuplicates,
      SizeOf;
    ObjectBounds(sp, h);
    GoodIsApart(sp);
    IsCopyable(sp, h);
    WeakFits(sp, h);
    NoDuplicatesInWeakCells(sp.m0, h);
    forall s | s in WeakCells(sp.m0, h)
      ensures s !in p.done && s !in p.other
    {
      GoodWeakAt(sp, h, s);
      WeakCellsUntouched(sp, h, s);
      if s in p.done + p.other.Keys {
        TouchedByOwner(sp, p, h, s);
      }
    }
    SecondCellUntouched(sp, h);
    if h + 1 in p.done + p.other.Keys {
      TouchedByOwner(sp, p, h, h + 1);
    }
  }

  /** A cell of an object that is not listed is no weak cell of the listed ones. */
  lemma CellOfOthers(sp: Spaces, p: Progress, kind: nat, objects: seq<nat>, h: nat, s: int)
    requires Unprocessed(sp, p, kind, objects) && h !in objects && Tiled(sp.m0, sp.lo, sp.free)
    requires h in Headers(sp.m0, sp.lo, sp.free)
    requires h < |sp.m0| && h <= s < Next(sp.m0, h)
    ensures s !in WeakCellsOf(sp.m0, objects)
  {
    hide WeakCells, Headers, Tiled, Copyable, FreshCells, Apart, KindOf;
    if s in WeakCellsOf(sp.m0, objects) {
      var g := WeakCellOwner(sp.m0, objects, s);
      GoodWeakAt(sp, g, s);
      ObjectsApart(sp, g, h);
    }
  }

  /** Updating the weak pointers of the listed objects changes nothing of other objects. */
  lemma OthersUnweakened(sp: Spaces, p2: Progress, p: Progress, isReference: bool, kind: nat, objects: seq<nat>,
                         h: nat, s: int)
    requires Unprocessed(sp, p, kind, objects) && h !in objects && Tiled(sp.m0, sp.lo, sp.free)
    requires h in Headers(sp.m0, sp.lo, sp.free)
    requires h < |sp.m0| && h <= s < Next(sp.m0, h)
    requires p2 == WeakenedAll(sp, p, isReference, WeakCellsOf(sp.m0, objects))
    ensures s in p2.other <==> s in p.other
    ensures s in p.other ==> p2.other[s] == p.other[s]
  {
    hide Unprocessed, WeakValue, WeakCellsOf, Tiled, Headers;
    CellOfOthers(sp, p, kind, objects, h, s);
    ValueKeys(sp, p.where, isReference, WeakCellsOf(sp.m0, objects));
  }

  /** After the weak lists the weak references are as they were. */
  lemma StillUnprocessed(sp: Spaces, p2: Progress, p: Progress, lists: seq<nat>, refs: seq<nat>)
    requires Unprocessed(sp, p, GCT_WEAKPOINTERLIST, lists) && Unprocessed(sp, p, GCT_WEAKREFERENCE, refs)
    requires p2 == WeakenedAll(sp, p, false, WeakCellsOf(sp.m0, lists))
    ensures Unprocessed(sp, p2, GCT_WEAKREFERENCE, refs)
  {
    hide Copyable, Headers, Tiled, KindOf, WeakCells, WeakValues, WeakCellsOf, Apart, GoodWeakPointers, NoDuplicates,
      SizeOf;
    forall h | h in refs
      ensures h in p2.where && FreshCells(p2, WeakCells(sp.m0, h)) && h + 1 !in p2.done && h + 1 !in p2.other
    {
      ReferenceStillUnprocessed(sp, p2, p, lists, refs, h);
    }
  }

  lemma ReferenceStillUnprocessed(sp: Spaces, p2: Progress, p: Progress, lists: seq<nat>, refs: seq<nat>, h: nat)
    requires Unprocessed(sp, p, GCT_WEAKPOINTERLIST, lists) && Unprocessed(sp, p, GCT_WEAKREFERENCE, refs) && h in refs
    requires p2 == WeakenedAll(sp, p, false, WeakCellsOf(sp.m0, lists))
    ensures FreshCells(p2, WeakCells(sp.m0, h)) && h + 1 !in p2.done && h + 1 !in p2.other
  {
    hide Good, Headers, Tiled, WeakCells, WeakValues, WeakCellsOf, GoodWeakPointers, NoDuplicates, Unprocessed, SizeOf,
      KindOf;
    UnprocessedAt(sp, p, GCT_WEAKREFERENCE, refs, h);
    NotListed(sp, p, lists, refs, h);
    ObjectShape(sp, h);
    OthersUnweakened(sp, p2, p, false, GCT_WEAKPOINTERLIST, lists, h, h + 1);
    forall s | s in WeakCells(sp.m0, h)
      ensures s !in p2.done && s !in p2.other
    {
      GoodWeakAt(sp, h, s);
      OthersUnweakened(sp, p2, p, false, GCT_WEAKPOINTERLIST, lists, h, s);
    }
  }

  lemma NotListed(sp: Spaces, p: Progress, lists: seq<nat>, refs: seq<nat>, h: nat)
    requires Unprocessed(sp, p, GCT_WEAKPOINTERLIST, lists) && Unprocessed(sp, p, GCT_WEAKREFERENCE, refs) && h in refs
    ensures h !in lists
  {
    hide Unprocessed, KindOf;
    UnprocessedAt(sp, p, GCT_WEAKREFERENCE, refs, h);
    if h in lists {
      UnprocessedAt(sp, p, GCT_WEAKPOINTERLIST, lists, h);
    }
  }

  /** ... and they are still linked. */
  lemma StillLinked(sp: Spaces, p2: Progress, p: Progress, lists: seq<nat>, refs: seq<nat>, head: Cell)
    requires Unprocessed(sp, p, GCT_WEAKPOINTERLIST, lists) && Unprocessed(sp, p, GCT_WEAKREFERENCE, refs)
    requires p2 == WeakenedAll(sp, p, false, WeakCellsOf(sp.m0, lists)) && IsList(sp, p, head, refs)
    ensures IsList(sp, p2, head, refs)
  {
    hide Unprocessed, KindOf, WeakValues, WeakCellsOf, IsList, Good, Headers, Tiled, WeakCells;
    forall h | h in refs && h < |sp.m0| && ReservedCell(KindOf(sp.m0[h]), h) in p.other
      ensures ReservedCell(KindOf(sp.m0[h]), h) in p2.other
      ensures p2.other[ReservedCell(KindOf(sp.m0[h]), h)] == p.other[ReservedCell(KindOf(sp.m0[h]), h)]
    {
      UnprocessedAt(sp, p, GCT_WEAKREFERENCE, refs, h);
      NotListed(sp, p, lists, refs, h);
      ObjectShape(sp, h);
      OthersUnweakened(sp, p2, p, false, GCT_WEAKPOINTERLIST, lists, h, ReservedCell(KindOf(sp.m0[h]), h));
    }
    ListKept(sp, p2, p, head, refs);
  }

  /** What the cell s of the object at h has become in the copy of the object. */
  function CellAfter(sp: Spaces, where: map<nat, nat>, h: nat, s: nat): Cell
    requires h < |sp.m0| && s < |sp.m0|
  {
    if s in ScanSlots(sp.classOf, sp.m0, h) then Forwarded(sp, where, sp.m0[s])
    else if s in WeakCells(sp.m0, h) then WeakValue(sp, where, KindOf(sp.m0[h]) == GCT_WEAKREFERENCE, sp.m0[s])
    else sp.m0[s]
  }

  /** Cell k of the copy of h holds what it should hold; the link of a weak object may be anything. */
  ghost predicate CopyHolds(m: seq<Cell>, sp: Spaces, where: map<nat, nat>, h: nat, k: nat) {
    && h in where && h + k < |sp.m0| && where[h] + k < |m|
    && (!IsLinkOf(sp, h, h + k) ==> m[where[h] + k] == CellAfter(sp, where, h, h + k))
  }

  /** The progress of a whole collection: scanning, then the weak lists, then the weak references. */
  ghost predicate WholeProgress(sp: Spaces, p3: Progress, p2: Progress, p1: Progress, lists: seq<nat>, refs: seq<nat>) {
    && GoodWeakPointers(sp) && InOrder(sp, p1) && Scanned(sp, p1, |p1.order|)
       && p1.where.Keys <= Headers(sp.m0, sp.lo, sp.free)
    && ListsAll(sp, p1, |p1.order|, GCT_WEAKPOINTERLIST, lists) && ListsAll(sp, p1, |p1.order|, GCT_WEAKREFERENCE, refs)
    && Unprocessed(sp, p1, GCT_WEAKPOINTERLIST, lists) && Unprocessed(sp, p2, GCT_WEAKREFERENCE, refs)
    && p2 == WeakenedAll(sp, p1, false, WeakCellsOf(sp.m0, lists))
       && p3 == WeakenedAll(sp, p2, true, WeakCellsOf(sp.m0, refs))
  }

  lemma {:induction false} CellsOfMember(m: seq<Cell>, objects: seq<nat>, h: nat, s: nat)
    requires h in objects && s in WeakCells(m, h)
    ensures s in WeakCellsOf(m, objects)
    decreases |objects|
  {
    hide WeakCells;
    var n := |objects| - 1;
    if h != objects[n] {
      assert h in objects[..n] by {
        var i :| 0 <= i < |objects| && objects[i] == h;
        assert objects[..n][i] == h;
      }
      CellsOfMember(m, objects[..n], h, s);
    }
  }

  lemma Listed(sp: Spaces, p: Progress, kind: nat, list: seq<nat>, h: nat)
    requires InOrder(sp, p) && ListsAll(sp, p, |p.order|, kind, list) && h in p.where && h < |sp.m0|
    ensures h in list <==> KindOf(sp.m0[h]) == kind
  {
    hide KindOf, Total;
    assert h in Elements(p.order);
    assert p.order[..|p.order|] == p.order;
  }

  lemma ValueOf(sp: Spaces, p: Progress, isReference: bool, cells: seq<nat>, s: nat)
    requires s in cells && s < |sp.m0|
    ensures var p2 := WeakenedAll(sp, p, isReference, cells);
            s in p2.other && p2.other[s] == WeakValue(sp, p.where, isReference, sp.m0[s])
  {
    hide WeakValue;
  }

  lemma WholeFacts(sp: Spaces, p3: Progress, p2: Progress, p1: Progress, lists: seq<nat>, refs: seq<nat>)
    requires WholeProgress(sp, p3, p2, p1, lists, refs)
    ensures GoodWeakPointers(sp) && InOrder(sp, p1) && Scanned(sp, p1, |p1.order|) && Good(sp)
    ensures Tiled(sp.m0, sp.lo, sp.free)
    ensures p1.where.Keys <= Headers(sp.m0, sp.lo, sp.free)
    ensures ListsAll(sp, p1, |p1.order|, GCT_WEAKPOINTERLIST, lists)
    ensures ListsAll(sp, p1, |p1.order|, GCT_WEAKREFERENCE, refs)
    ensures Unprocessed(sp, p1, GCT_WEAKPOINTERLIST, lists) && Unprocessed(sp, p2, GCT_WEAKREFERENCE, refs)
    ensures p2 == WeakenedAll(sp, p1, false, WeakCellsOf(sp.m0, lists))
    ensures p3 == WeakenedAll(sp, p2, true, WeakCellsOf(sp.m0, refs))
    ensures p3.where == p2.where == p1.where && p3.done == p1.done && p3.order == p1.order
  {
    hide Unprocessed, ListsAll, Scanned, Headers, Tiled, InOrder, Copyable, Apart;
  }

  /** A cell that is no weak cell: nothing happens to it after scanning. */
  lemma OrdinaryCell(sp: Spaces, p3: Progress, p2: Progress, p1: Progress, lists: seq<nat>, refs: seq<nat>, h: nat,
                     s: nat)
    requires WholeProgress(sp, p3, p2, p1, lists, refs) && h in p1.where && h < |sp.m0| && h <= s < Next(sp.m0, h)
    requires s !in WeakCells(sp.m0, h)
    ensures s in p3.other <==> s in p1.other
  {
    hide WholeProgress, Unprocessed, ListsAll, Scanned, Headers, Tiled, InOrder, Good, WeakCells, WeakValues,
      WeakCellsOf, GoodWeakPointers;
    WholeFacts(sp, p3, p2, p1, lists, refs);
    NotACell(sp, p1, GCT_WEAKPOINTERLIST, lists, h, s);
    NotACell(sp, p2, GCT_WEAKREFERENCE, refs, h, s);
    ValueKeys(sp, p1.where, false, WeakCellsOf(sp.m0, lists));
    ValueKeys(sp, p2.where, true, WeakCellsOf(sp.m0, refs));
  }

  lemma NotACell(sp: Spaces, p: Progress, kind: nat, objects: seq<nat>, h: nat, s: nat)
    requires Unprocessed(sp, p, kind, objects) && h in p.where && h < |sp.m0| && h <= s < Next(sp.m0, h)
    requires s !in WeakCells(sp.m0, h)
    ensures s !in WeakCellsOf(sp.m0, objects)
  {
    hide WeakCells, Headers, Tiled, Copyable, FreshCells, Apart, KindOf;
    if s in WeakCellsOf(sp.m0, objects) {
      var g := WeakCellOwner(sp.m0, objects, s);
      GoodWeakAt(sp, g, s);
      ObjectsApart(sp, g, h);
    }
  }

  /** A weak cell has its new value. */
  lemma WeakCell(sp: Spaces, p3: Progress, p2: Progress, p1: Progress, lists: seq<nat>, refs: seq<nat>, h: nat, s: nat)
    requires WholeProgress(sp, p3, p2, p1, lists, refs) && h in p1.where && h < |sp.m0| && s in WeakCells(sp.m0, h)
    ensures s < |sp.m0| && s in p3.other
    ensures p3.other[s] == WeakValue(sp, p1.where, KindOf(sp.m0[h]) == GCT_WEAKREFERENCE, sp.m0[s])
  {
    hide WholeProgress, Unprocessed, ListsAll, Scanned, Headers, Tiled, InOrder, Good, WeakCells, WeakValues,
      WeakCellsOf, GoodWeakPointers, KindOf, WeakValue;
    WholeFacts(sp, p3, p2, p1, lists, refs);
    GoodWeakAt(sp, h, s);
    OnlyWeakHaveCells(sp, h, s);
    Listed(sp, p1, GCT_WEAKPOINTERLIST, lists, h);
    Listed(sp, p1, GCT_WEAKREFERENCE, refs, h);
    if KindOf(sp.m0[h]) == GCT_WEAKREFERENCE {
      CellsOfMember(sp.m0, refs, h, s);
      ValueOf(sp, p2, true, WeakCellsOf(sp.m0, refs), s);
    } else {
      CellsOfMember(sp.m0, lists, h, s);
      ValueOf(sp, p1, false, WeakCellsOf(sp.m0, lists), s);
      OthersUnweakened(sp, p3, p2, true, GCT_WEAKREFERENCE, refs, h, s);
    }
  }

  lemma OnlyWeakHaveCells(sp: Spaces, h: nat, s: nat)
    requires h < |sp.m0| && s in WeakCells(sp.m0, h)
    ensures KindOf(sp.m0[h]) == GCT_WEAKPOINTERLIST || KindOf(sp.m0[h]) == GCT_WEAKREFERENCE
  {
  }

  lemma ScanSlotFollowed(sp: Spaces, p: Progress, h: nat, s: nat)
    requires InOrder(sp, p) && Scanned(sp, p, |p.order|) && h in p.where && s in ScanSlots(sp.classOf, sp.m0, h)
    ensures s in p.done
  {
    hide ScanSlots, Total, IsOfScanned, IsLinkOfScanned;
    assert h in Elements(p.order);
    var i :| 0 <= i < |p.order| && p.order[i] == h;
  }

  lemma ScannedCellsAreNoLinks(sp: Spaces, h: nat, s: nat)
    requires h < |sp.m0| && Fits(sp.classOf, sp.m0, h)
    requires s in ScanSlots(sp.classOf, sp.m0, h) || s in WeakCells(sp.m0, h)
    ensures !IsLinkOf(sp, h, s)
    ensures s in ScanSlots(sp.classOf, sp.m0, h) ==> s !in WeakCells(sp.m0, h)
  {
  }

  lemma TouchedOnlyByLinks(sp: Spaces, h: nat, s: nat)
    requires IsTouched(sp, h, s) && s !in ScanSlots(sp.classOf, sp.m0, h)
    ensures IsLinkOf(sp, h, s)
  {
  }

  /** Every cell of every copy. */
  lemma CellOutcome(m: seq<Cell>, sp: Spaces, p3: Progress, p2: Progress, p1: Progress, lists: seq<nat>,
                    refs: seq<nat>, h: nat, k: nat)
    requires WholeProgress(sp, p3, p2, p1, lists, refs) && Copied(m, sp, p3) && h in p1.where && h < |sp.m0|
    requires k <= SizeOf(sp.m0[h])
    ensures CopyHolds(m, sp, p3.where, h, k)
  {
    hide WholeProgress, Unprocessed, ListsAll, Scanned, Headers, Tiled, InOrder, Good, WeakCells, WeakCellsOf,
      GoodWeakPointers, KindOf, WeakValue,
      Copied, OldSpace, IsInside, HasCopy, ScanSlots, Forwarded, IsLinkOf, IsTouched, WeakenedAll, Fits, SizeOf;
    WholeFacts(sp, p3, p2, p1, lists, refs);
    CopiedFacts(m, sp, p3);
    ObjectBounds(sp, h);
    IsCopyable(sp, h);
    FitsOf(sp, h);
    assert CellCopied(m, sp, p3, h, k);
    var s := h + k;
    if s in WeakCells(sp.m0, h) {
      WeakCell(sp, p3, p2, p1, lists, refs, h, s);
      ScannedCellsAreNoLinks(sp, h, s);
    } else {
      OrdinaryCell(sp, p3, p2, p1, lists, refs, h, s);
      if s in ScanSlots(sp.classOf, sp.m0, h) {
        ScanSlotFollowed(sp, p1, h, s);
        ScannedCellsAreNoLinks(sp, h, s);
        ScanSlotInside(sp, h, s);
        if s in p1.other {
          LinkByOwner(sp, p1, h, s);
        }
      } else if k > 0 && s in p1.done + p1.other.Keys {
        TouchedByOwner(sp, p1, h, s);
        TouchedOnlyByLinks(sp, h, s);
      } else if k == 0 {
        HeaderUntouched(m, sp, p3, h);
      }
    }
  }

  lemma FitsOf(sp: Spaces, h: nat)
    requires Tiled(sp.m0, sp.lo, sp.free) && Copyable(sp, h)
    ensures Fits(sp.classOf, sp.m0, h)
  {
  }

  lemma ScanSlotInside(sp: Spaces, h: nat, s: nat)
    requires Tiled(sp.m0, sp.lo, sp.free) && Copyable(sp, h) && s in ScanSlots(sp.classOf, sp.m0, h)
    ensures h < |sp.m0| && h < s < Next(sp.m0, h)
  {
  }

  lemma HeaderUntouched(m: seq<Cell>, sp: Spaces, p: Progress, h: nat)
    requires Copied(m, sp, p) && Good(sp) && Tiled(sp.m0, sp.lo, sp.free) && h in Headers(sp.m0, sp.lo, sp.free)
    ensures h !in p.done && h !in p.other
  {
    hide Headers, Tiled, OldSpace, NewSpace, InOrder, Good, HasCopy;
    CopiedFacts(m, sp, p);
    GoodIsApart(sp);
    if h in p.done + p.other.Keys {
      assert IsInside(sp, p.where, h);
      var g :| g in p.where && g < |sp.m0| && g < h < Next(sp.m0, g);
      InsideIsNoHeader(sp.m0, sp.lo, sp.free, g, h);
    }
  }
}
