/** The loop of copyNonRootObjects (collectorDebug.c), which also links the weak objects it comes across. */
module CheneyTraversal {
  import opened Cells
  import opened FreeList
  import opened Objects
  import opened HeapShape
  import opened Marking
  import opened TwoSpaces
  import opened CheneyCopying
  import opened CheneyScanning

  /**
   * The first n copies have been scanned; the scanner is behind them, and the weak objects among them are on the lists.
   */
  ghost predicate Scanning(m: seq<Cell>, sp: Spaces, p: Progress, n: nat, scanner: nat, pointers: Cell,
                           lists: seq<nat>, references: Cell, refs: seq<nat>) {
    && Copied(m, sp, p) && IsClosed(sp) && Scanned(sp, p, n) && scanner == sp.target + Total(sp.m0, p.order[..n])
    && IsList(sp, p, pointers, lists) && ListsAll(sp, p, n, GCT_WEAKPOINTERLIST, lists)
    && IsList(sp, p, references, refs) && ListsAll(sp, p, n, GCT_WEAKREFERENCE, refs)
  }

  lemma ScanningFacts(m: seq<Cell>, sp: Spaces, p: Progress, n: nat, scanner: nat, pointers: Cell, lists: seq<nat>,
                      references: Cell, refs: seq<nat>)
    requires Scanning(m, sp, p, n, scanner, pointers, lists, references, refs)
    ensures Copied(m, sp, p) && IsClosed(sp) && Scanned(sp, p, n) && n <= |p.order|
    ensures IsList(sp, p, pointers, lists) && ListsAll(sp, p, n, GCT_WEAKPOINTERLIST, lists)
    ensures IsList(sp, p, references, refs) && ListsAll(sp, p, n, GCT_WEAKREFERENCE, refs)
    ensures Good(sp) && InOrder(sp, p) && p.where.Keys <= Headers(sp.m0, sp.lo, sp.free)
    ensures n < |p.order| ==> p.order[n] in p.where && p.where[p.order[n]] == scanner
    ensures n == |p.order| ==> scanner == TargetFree(sp, p)
    ensures n < |p.order| ==> scanner < TargetFree(sp, p)
  {
    hide IsList, ListsAll, Headers, Good, OldSpace, NewSpace, Total;
    CopiedFacts(m, sp, p);
    if n < |p.order| {
      assert p.order[n] in Elements(p.order);
      PlaceOf(sp, p, p.order[n]);
    } else {
      assert p.order[..n] == p.order;
    }
  }

  /** Copying and following keep the lists of weak objects. */
  lemma ListStays(sp: Spaces, p': Progress, p: Progress, head: Cell, list: seq<nat>)
    requires IsList(sp, p, head, list) && forall h | h in p.where :: h in p'.where && p'.where[h] == p.where[h]
    requires forall s | s in p.other :: s in p'.other && p'.other[s] == p.other[s]
    ensures IsList(sp, p', head, list)
  {
    ListKept(sp, p', p, head, list);
  }

  /** The progress made by linking the object at h. */
  function Linking(sp: Spaces, p: Progress, h: nat, head: Cell): Progress
    requires h < |sp.m0|
  {
    p.(other := p.other[ReservedCell(KindOf(sp.m0[h]), h) := head])
  }

  lemma LinkCopied(m2: seq<Cell>, m1: seq<Cell>, sp: Spaces, p: Progress, h: nat, head: Cell)
    requires Copied(m1, sp, p) && h in p.where && h < |sp.m0| && IsWeak(KindOf(sp.m0[h]))
    requires ReservedCell(KindOf(sp.m0[h]), h) !in p.done
    requires ReservedCell(KindOf(sp.m0[h]), h) - h + p.where[h] < |m1|
    requires m2 == m1[p.where[h] + (ReservedCell(KindOf(sp.m0[h]), h) - h) := head]
    ensures Copied(m2, sp, Linking(sp, p, h, head))
  {
    hide Copied, KindOf, Good, Headers, Tiled, Copyable, Fits, Apart, HasCopy, ScanSlots, OldSpace, NewSpace, InOrder,
      IsInside, Forwarded, SizeOf, IsWeak;
    CopiedFacts(m1, sp, p);
    ObjectBounds(sp, h);
    IsCopyable(sp, h);
    ReservedFits(sp.classOf, sp.m0, h);
    CellGiven(m2, m1, sp, Linking(sp, p, h, head), p, h, ReservedCell(KindOf(sp.m0[h]), h));
  }

  lemma ReservedFits(classOf: Cell -> Class, m: seq<Cell>, h: nat)
    requires Fits(classOf, m, h) && IsWeak(KindOf(m[h]))
    ensures h < ReservedCell(KindOf(m[h]), h) < Next(m, h) <= |m|
    ensures ReservedCell(KindOf(m[h]), h) !in ScanSlots(classOf, m, h)
  {
  }

  lemma LinkScanned(sp: Spaces, p: Progress, n: nat, h: nat, head: Cell)
    requires Scanned(sp, p, n) && 0 < n && h == p.order[n - 1] && h < |sp.m0| && IsWeak(KindOf(sp.m0[h]))
    requires h < ReservedCell(KindOf(sp.m0[h]), h) < Next(sp.m0, h)
    ensures Scanned(sp, Linking(sp, p, h, head), n)
  {
    hide KindOf, ScanSlots;
    var p', r := Linking(sp, p, h, head), ReservedCell(KindOf(sp.m0[h]), h);
    forall s | s in p'.done + p'.other.Keys
      ensures IsOfScanned(sp, p', n, s)
    {
      if s in p.done + p.other.Keys {
        assert IsOfScanned(sp, p, n, s);
        var i :| 0 <= i < n && i < |p.order| && p.order[i] < |sp.m0| && p.order[i] < s < Next(sp.m0, p.order[i])
          && IsTouched(sp, p.order[i], s);
        assert p'.order[i] == p.order[i];
      } else {
        assert p'.order[n - 1] == h;
      }
    }
    forall s | s in p'.other
      ensures IsLinkOfScanned(sp, p', n, s)
    {
      if s in p.other {
        LinkStillScanned(sp, p', p, n, n, s);
      } else {
        assert IsLinkOf(sp, p'.order[n - 1], s);
      }
    }
  }

  /** The linked object is the new head of the list. */
  lemma LinkedList(sp: Spaces, p: Progress, h: nat, head: Cell, list: seq<nat>)
    requires IsList(sp, p, head, list) && h in p.where && h < |sp.m0| && IsWeak(KindOf(sp.m0[h]))
    requires ReservedCell(KindOf(sp.m0[h]), h) !in p.other && p.where[h] + HEADERSIZE < MAX_CELLS
    ensures IsList(sp, Linking(sp, p, h, head), CELL * (p.where[h] + HEADERSIZE), [h] + list)
  {
    hide KindOf;
    var p' := Linking(sp, p, h, head);
    ListStays(sp, p', p, head, list);
    assert ([h] + list)[1..] == list;
  }

  lemma SlotsFacts(m: seq<Cell>, sp: Spaces, p: Progress, n: nat)
    requires Copied(m, sp, p) && Scanned(sp, p, n) && n < |p.order|
    ensures var h := p.order[n];
            && h in p.where && h < |sp.m0| && p.where[h] < |m| && m[p.where[h]] == sp.m0[h]
               && NoDuplicates(ScanSlots(sp.classOf, sp.m0, h))
            && |ScanSlots(sp.classOf, m, p.where[h])| == |ScanSlots(sp.classOf, sp.m0, h)|
            && (forall s | s in ScanSlots(sp.classOf, sp.m0, h) ::
                  h < s < Next(sp.m0, h) && s !in p.done && s !in p.other)
    ensures var h := p.order[n];
            forall i | 0 <= i < |ScanSlots(sp.classOf, sp.m0, h)| ::
              && ScanSlots(sp.classOf, m, p.where[h])[i] == NewCell(p, h, ScanSlots(sp.classOf, sp.m0, h)[i])
              && (ScanSlots(sp.classOf, m, p.where[h])[i]
                  == (if HasMonitorCell(KindOf(sp.m0[h])) then p.where[h] + 2 else -1)
                  <==> IsMonitorSlot(sp.m0, h, ScanSlots(sp.classOf, sp.m0, h)[i]))
  {
    hide Copied, Scanned, ScanSlots, KindOf, Good, Headers, Tiled, NoDuplicates, Fits, HasMonitorCell;
    NotScannedYet(m, sp, p, n);
    var h := p.order[n];
    ShiftedSlots(sp.classOf, m, sp.m0, p.where[h], h);
    forall s | s in ScanSlots(sp.classOf, sp.m0, h)
      ensures h < s < Next(sp.m0, h) && s !in p.done && s !in p.other
    {
    }
  }

  /** What is left to do for a weak object after its pointers have been followed. */
  lemma WeakFacts(m1: seq<Cell>, sp: Spaces, p1: Progress, m: seq<Cell>, p: Progress, n: nat)
    requires Copied(m, sp, p) && Scanned(sp, p, n) && n < |p.order| && Copied(m1, sp, p1)
    requires ScannedPart(p1, p, sp, p.order[n], |ScanSlots(sp.classOf, sp.m0, p.order[n])|)
    requires p.order[n] < |sp.m0| && IsWeak(KindOf(sp.m0[p.order[n]]))
    ensures var h := p.order[n]; var r := ReservedCell(KindOf(sp.m0[h]), h);
            && h in p1.where && r !in p1.done && r !in p1.other && h < r < Next(sp.m0, h) && r - h + p1.where[h] < |m1|
            && p1.where[h] + HEADERSIZE < MAX_CELLS
  {
    hide Copied, Scanned, ScanSlots, KindOf, Good, Headers, Tiled, NoDuplicates, NewSpace, InOrder, HasCopy, TargetFree;
    var h := p.order[n];
    NotScannedYet(m, sp, p, n);
    ReservedFits(sp.classOf, sp.m0, h);
    CopiedFacts(m1, sp, p1);
    PlaceOf(sp, p1, h);
    SpaceSuffices(sp, p1);
    GoodIsApart(sp);
    HeaderOfCopied(m1, sp, p1, h);
  }

  /** The object is scanned; it is not a weak one. */
  lemma StrongScanned(m1: seq<Cell>, sp: Spaces, p1: Progress, m: seq<Cell>, p: Progress, n: nat, scanner: nat,
                      pointers: Cell, lists: seq<nat>, references: Cell, refs: seq<nat>)
    requires Scanning(m, sp, p, n, scanner, pointers, lists, references, refs) && n < |p.order| && Copied(m1, sp, p1)
    requires ScannedPart(p1, p, sp, p.order[n], |ScanSlots(sp.classOf, sp.m0, p.order[n])|)
    requires p.order[n] < |sp.m0| && !IsWeak(KindOf(sp.m0[p.order[n]]))
    ensures Scanning(m1, sp, p1, n + 1, scanner + SizeOf(sp.m0[p.order[n]]) + HEADERSIZE, pointers, lists, references,
                     refs)
  {
    hide Copied, Scanned, ScanSlots, KindOf, Good, Headers, Tiled, NoDuplicates, IsList, ListsAll, IsClosed, Total,
      FirstSlots;
    ScanningFacts(m, sp, p, n, scanner, pointers, lists, references, refs);
    SlotsFacts(m, sp, p, n);
    ScannedOneMore(sp, p1, p, n);
    ListStays(sp, p1, p, pointers, lists);
    ListStays(sp, p1, p, references, refs);
    ListsAllKept(sp, p1, p, n, GCT_WEAKPOINTERLIST, lists);
    ListsAllKept(sp, p1, p, n, GCT_WEAKREFERENCE, refs);
    NextTotal(sp, p1, p, n);
  }

  lemma NextTotal(sp: Spaces, p1: Progress, p: Progress, n: nat)
    requires n < |p.order| && p.order <= p1.order && p.order[n] < |sp.m0|
    ensures Total(sp.m0, p1.order[..n + 1]) == Total(sp.m0, p.order[..n]) + SizeOf(sp.m0[p.order[n]]) + HEADERSIZE
  {
    hide Total;
    assert p1.order[..n + 1] == p.order[..n] + [p.order[n]];
    TotalAppended(sp.m0, p.order[..n], p.order[n]);
  }

  /** The object is scanned and linked: it is a weak one. */
  lemma WeakScanned(m2: seq<Cell>, m1: seq<Cell>, sp: Spaces, p1: Progress, m: seq<Cell>, p: Progress, n: nat,
                    scanner: nat,
                    pointers: Cell, lists: seq<nat>, references: Cell, refs: seq<nat>, head: Cell)
    requires Scanning(m, sp, p, n, scanner, pointers, lists, references, refs) && n < |p.order| && Copied(m1, sp, p1)
    requires ScannedPart(p1, p, sp, p.order[n], |ScanSlots(sp.classOf, sp.m0, p.order[n])|)
    requires p.order[n] < |sp.m0| && IsWeak(KindOf(sp.m0[p.order[n]]))
    requires head == if KindOf(sp.m0[p.order[n]]) == GCT_WEAKPOINTERLIST then pointers else references
    requires scanner + (ReservedCell(KindOf(sp.m0[p.order[n]]), p.order[n]) - p.order[n]) < |m1|
    requires m2 == m1[scanner + (ReservedCell(KindOf(sp.m0[p.order[n]]), p.order[n]) - p.order[n]) := head]
    ensures scanner + HEADERSIZE < MAX_CELLS
    ensures var h, next := p.order[n], scanner + SizeOf(sp.m0[p.order[n]]) + HEADERSIZE;
            var p2, object' := Linking(sp, p1, h, head), CELL * (scanner + HEADERSIZE);
            if KindOf(sp.m0[h]) == GCT_WEAKPOINTERLIST then Scanning(m2, sp, p2, n + 1, next, object', [h] + lists,
                references, refs)
            else Scanning(m2, sp, p2, n + 1, next, pointers, lists, object', [h] + refs)
  {
    hide Copied, Scanned, ScanSlots, KindOf, Good, Headers, Tiled, IsList, ListsAll, IsClosed, Total, FirstSlots,
      SizeOf;
    ScanningFacts(m, sp, p, n, scanner, pointers, lists, references, refs);
    SlotsFacts(m, sp, p, n);
    WeakFacts(m1, sp, p1, m, p, n);
    ScannedOneMore(sp, p1, p, n);
    var h := p.order[n];
    var p2 := Linking(sp, p1, h, head);
    LinkCopied(m2, m1, sp, p1, h, head);
    LinkScanned(sp, p1, n + 1, h, head);
    NextTotal(sp, p2, p, n);
    if KindOf(sp.m0[h]) == GCT_WEAKPOINTERLIST {
      ListStays(sp, p1, p, pointers, lists);
      LinkedList(sp, p1, h, pointers, lists);
      ListStays(sp, p2, p, references, refs);
      ListsAllMore(sp, p2, p, n, GCT_WEAKPOINTERLIST, lists);
      ListsAllKept(sp, p2, p, n, GCT_WEAKREFERENCE, refs);
    } else {
      ListStays(sp, p1, p, references, refs);
      LinkedList(sp, p1, h, references, refs);
      ListStays(sp, p2, p, pointers, lists);
      ListsAllMore(sp, p2, p, n, GCT_WEAKREFERENCE, refs);
      ListsAllKept(sp, p2, p, n, GCT_WEAKPOINTERLIST, lists);
    }
  }

  /** More has been copied and followed; nothing has been taken back. */
  ghost predicate Grown(p': Progress, p: Progress) {
    p.order <= p'.order && forall h | h in p.where :: h in p'.where && p'.where[h] == p.where[h]
  }

  /** Scans one copy. */
  method ScanObject(copier: Copier, classOf: Cell -> Class, scanner: nat, weakPointers: Cell, weakReferences: Cell,
                    ghost n: nat, ghost lists: seq<nat>, ghost refs: seq<nat>)
      returns (next: nat, pointers: Cell, references: Cell, ghost lists': seq<nat>, ghost refs': seq<nat>)
    requires copier.Valid() && classOf == copier.spaces.classOf && n < |copier.progress.order|
    requires Scanning(copier.mem[..], copier.spaces, copier.progress, n, scanner, weakPointers, lists, weakReferences,
                      refs)
    modifies copier, copier.mem
    ensures copier.Valid() && scanner < next && Grown(copier.progress, old(copier.progress))
    ensures Scanning(copier.mem[..], copier.spaces, copier.progress, n + 1, next, pointers, lists', references, refs')
  {
    hide Copied, Scanned, ScanSlots, KindOf, Good, Headers, Tiled, IsList, ListsAll, IsClosed, Total, FirstSlots,
      SizeOf, NoDuplicates,
         IsMonitorSlot, Scanning, HasMonitorCell;
    ghost var m, sp, p := copier.mem[..], copier.spaces, copier.progress;
    ScanningFacts(m, sp, p, n, scanner, weakPointers, lists, weakReferences, refs);
    SlotsFacts(m, sp, p, n);
    ghost var h := p.order[n];
    var kind := KindOf(copier.mem[scanner]);
    next := scanner + SizeOf(copier.mem[scanner]) + HEADERSIZE;
    pointers, references, lists', refs' := weakPointers, weakReferences, lists, refs;
    UpdateSlots(copier, ScanSlots(classOf, copier.mem[..], scanner),
                if HasMonitorCell(kind) then scanner + 2 else -1, h);
    ghost var m1, p1 := copier.mem[..], copier.progress;
    if IsWeak(kind) {
      WeakFacts(m1, sp, p1, m, p, n);
      var head := if kind == GCT_WEAKPOINTERLIST then weakPointers else weakReferences;
      WeakScanned(m1[ReservedCell(kind, scanner) := head], m1, sp, p1, m, p, n, scanner, weakPointers, lists,
                  weakReferences, refs, head);
      copier.mem[ReservedCell(kind, scanner)] := head;
      copier.progress := Linking(sp, p1, h, head);
      if kind == GCT_WEAKPOINTERLIST {
        pointers, lists' := CELL * (scanner + HEADERSIZE), [h] + lists;
      } else {
        references, refs' := CELL * (scanner + HEADERSIZE), [h] + refs;
      }
      ScanningFacts(copier.mem[..], sp, copier.progress, n + 1, next, pointers, lists', references, refs');
    } else {
      StrongScanned(m1, sp, p1, m, p, n, scanner, weakPointers, lists, weakReferences, refs);
    }
  }

  lemma GrownMore(p2: Progress, p1: Progress, p: Progress)
    requires Grown(p1, p) && Grown(p2, p1)
    ensures Grown(p2, p)
  {
  }

  /** How far the scanner can be. */
  lemma ScannerBounds(m: seq<Cell>, sp: Spaces, p: Progress, n: nat, scanner: nat, pointers: Cell, lists: seq<nat>,
                      references: Cell, refs: seq<nat>)
    requires Scanning(m, sp, p, n, scanner, pointers, lists, references, refs)
    ensures n <= |p.order| && scanner <= TargetFree(sp, p) <= sp.target + (sp.free - sp.lo)
    ensures scanner < TargetFree(sp, p) <==> n < |p.order|
  {
    hide Copied, Total, Headers, Tiled, Apart, IsClosed, IsList, ListsAll, InOrder, Scanning, Scanned;
    ScanningFacts(m, sp, p, n, scanner, pointers, lists, references, refs);
    SpaceSuffices(sp, p);
  }

  /** Scans the copies in order until there are no more. */
  method CopyNonRootObjects(copier: Copier, classOf: Cell -> Class)
      returns (weakPointers: Cell, weakReferences: Cell, ghost lists: seq<nat>, ghost refs: seq<nat>)
    requires copier.Valid() && classOf == copier.spaces.classOf && IsClosed(copier.spaces)
    requires copier.progress.done == {} && copier.progress.other == map[]
    modifies copier, copier.mem
    ensures copier.Valid() && Grown(copier.progress, old(copier.progress))
    ensures Scanning(copier.mem[..], copier.spaces, copier.progress, |copier.progress.order|, copier.targetSpaceFreePtr,
                     weakPointers, lists, weakReferences, refs)
  {
    hide Copied, Scanning, TargetFree, Headers, Tiled, Good, Apart, IsClosed, Grown;
    ghost var sp, p, n := copier.spaces, copier.progress, 0;
    var scanner := copier.targetSpace;
    weakPointers, weakReferences, lists, refs := NULL, NULL, [], [];
    StartScanning(copier.mem[..], sp, p);
    ScannerBounds(copier.mem[..], sp, p, n, scanner, weakPointers, lists, weakReferences, refs);
    while scanner < copier.targetSpaceFreePtr
      invariant copier.Valid() && Grown(copier.progress, p) && n <= |copier.progress.order|
      invariant Scanning(copier.mem[..], sp, copier.progress, n, scanner, weakPointers, lists, weakReferences, refs)
      invariant scanner <= copier.targetSpaceFreePtr <= sp.target + (sp.free - sp.lo)
      invariant scanner < copier.targetSpaceFreePtr <==> n < |copier.progress.order|
      decreases sp.target + (sp.free - sp.lo) - scanner
    {
      ghost var p1 := copier.progress;
      scanner, weakPointers, weakReferences, lists, refs :=
        ScanObject(copier, classOf, scanner, weakPointers, weakReferences, n, lists, refs);
      n := n + 1;
      ScannerBounds(copier.mem[..], sp, copier.progress, n, scanner, weakPointers, lists, weakReferences, refs);
      GrownMore(copier.progress, p1, p);
    }
  }

  lemma StartScanning(m: seq<Cell>, sp: Spaces, p: Progress)
    requires Copied(m, sp, p) && IsClosed(sp) && p.done == {} && p.other == map[]
    ensures Scanning(m, sp, p, 0, sp.target, NULL, [], NULL, []) && Grown(p, p)
  {
    hide Copied, IsClosed;
    assert p.order[..0] == [];
  }
}
