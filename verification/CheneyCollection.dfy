/** garbageCollectForReal (collectorDebug.c): a whole collection of the copying collector. */
module CheneyCollection {
  import opened Cells
  import opened FreeList
  import opened Objects
  import opened HeapShape
  import opened Marking
  import opened Roots
  import opened TwoSpaces
  import opened CheneyCopying
  import opened CheneyScanning
  import opened CheneyTraversal
  import opened CheneyRoots
  import opened CheneyReachability
  import opened CheneyWeak
  import opened CheneyWeakLists
  import opened CheneyOutcome

  /**
   * The target space holds the copies of the objects in `where`, one behind the other, with all their cells as they
   * should be.
   */
  ghost predicate Evacuated(m: seq<Cell>, sp: Spaces, p: Progress) {
    && Good(sp) && Tiled(sp.m0, sp.lo, sp.free) && InOrder(sp, p) && p.where.Keys <= Headers(sp.m0, sp.lo, sp.free)
       && OldSpace(m, sp, p)
    && forall h, k | h in p.where && h < |sp.m0| && 0 <= k <= SizeOf(sp.m0[h]) :: CopyHolds(m, sp, p.where, h, k)
  }

  /**
   * The result of a collection: what can be reached from the roots has been evacuated, and the roots lead to the
   * copies.
   */
  ghost predicate Collected(m: seq<Cell>, r2: Roots, sp: Spaces, p: Progress, r: Roots)
    requires Tiled(sp.m0, sp.lo, sp.free)
  {
    && Evacuated(m, sp, p) && p.where.Keys == Kept(sp, RootTargets(sp, r))
    && RootsForwarded(r2, r, sp, p.where, |r.globals|, |r.temporaries|, |r.monitors|)
  }

  /** A collection can be made. */
  ghost predicate Collectable(sp: Spaces, r: Roots) {
    GoodWeakPointers(sp) && WellRooted(sp, r)
  }

  lemma WeakPointersStillGood(sp: Spaces, objects: set<nat>)
    requires GoodWeakPointers(sp)
    ensures GoodWeakPointers(Keeping(sp, objects))
  {
    hide WeakCells, Good, GoodWeak, Headers, Tiled;
    KeepingIsGood(sp, objects);
    var sp' := Keeping(sp, objects);
    assert Tiled(sp'.m0, sp'.lo, sp'.free);
    forall h, s | h in Headers(sp'.m0, sp'.lo, sp'.free) && s in WeakCells(sp'.m0, h)
      ensures GoodWeakCell(sp', h, s)
    {
      GoodWeakAt(sp, h, s);
      SameGoodWeak(sp, sp', sp.m0[s]);
    }
  }

  lemma SameGoodWeak(sp: Spaces, sp': Spaces, v: Cell)
    requires Tiled(sp.m0, sp.lo, sp.free) && GoodWeak(sp, v) && sp' == sp.(reachable := sp'.reachable)
    ensures GoodWeak(sp', v)
  {
    hide Tiled, Headers;
  }

  lemma StartOfCollection(sp: Spaces, r: Roots)
    requires Collectable(sp, r)
    ensures Good(sp) && Tiled(sp.m0, sp.lo, sp.free) && WellRooted(sp, r)
    ensures GoodWeakPointers(KeepingReachable(sp, r)) && Good(KeepingReachable(sp, r))
    ensures GoodRoots(KeepingReachable(sp, r), r) && IsClosed(KeepingReachable(sp, r))
  {
    hide GoodWeak, Copyable, WeakCells, GoodRoots, IsClosed, Kept, Apart;
    WeakPointersStillGood(sp, Kept(sp, RootTargets(sp, r)));
    CollectionMayStart(sp, r);
  }

  /** After scanning, the weak lists and the weak references can be processed. */
  lemma AfterScanning(m: seq<Cell>, sp: Spaces, p: Progress, scanner: nat, pointers: Cell, lists: seq<nat>,
                      references: Cell, refs: seq<nat>)
    requires Scanning(m, sp, p, |p.order|, scanner, pointers, lists, references, refs) && GoodWeakPointers(sp)
    ensures Copied(m, sp, p) && Scanned(sp, p, |p.order|) && InOrder(sp, p)
    ensures p.where.Keys <= Headers(sp.m0, sp.lo, sp.free)
    ensures Unprocessed(sp, p, GCT_WEAKPOINTERLIST, lists) && Unprocessed(sp, p, GCT_WEAKREFERENCE, refs)
    ensures IsList(sp, p, pointers, lists) && IsList(sp, p, references, refs)
    ensures ListsAll(sp, p, |p.order|, GCT_WEAKPOINTERLIST, lists)
    ensures ListsAll(sp, p, |p.order|, GCT_WEAKREFERENCE, refs)
  {
    hide Copied, Scanning, Scanned, IsList, ListsAll, Unprocessed, GoodWeakPointers, InOrder, Good, Tiled, Headers,
      Total;
    ScanningFacts(m, sp, p, |p.order|, scanner, pointers, lists, references, refs);
    UnprocessedAfterScanning(m, sp, p, GCT_WEAKPOINTERLIST, lists);
    UnprocessedAfterScanning(m, sp, p, GCT_WEAKREFERENCE, refs);
  }

  /** All phases together. */
  lemma AllEvacuated(m: seq<Cell>, sp: Spaces, p3: Progress, p2: Progress, p1: Progress, lists: seq<nat>,
                     refs: seq<nat>)
    requires WholeProgress(sp, p3, p2, p1, lists, refs) && Copied(m, sp, p3)
    ensures Evacuated(m, sp, p3)
  {
    hide WholeProgress, Scanned, Headers, Tiled, InOrder, Good, ListsAll, Unprocessed, CopyHolds, GoodWeakPointers,
      NewSpace, OldSpace, SizeOf, HasCopy, IsInside;
    WholeFacts(sp, p3, p2, p1, lists, refs);
    CopiedFacts(m, sp, p3);
    forall h, k | h in p3.where && h < |sp.m0| && 0 <= k <= SizeOf(sp.m0[h])
      ensures CopyHolds(m, sp, p3.where, h, k)
    {
      CellOutcome(m, sp, p3, p2, p1, lists, refs, h, k);
    }
  }

  /** What may be kept does not matter for what a collection does. */
  lemma EvacuatedForAll(m: seq<Cell>, sp: Spaces, sp0: Spaces, p: Progress)
    requires Evacuated(m, sp, p) && sp == sp0.(reachable := sp.reachable) && Good(sp0)
    ensures Evacuated(m, sp0, p) && TargetFree(sp0, p) == TargetFree(sp, p)
  {
    hide Tiled, Headers, Good, Total, Forwarded, IsLinkOf, WeakCells, ScanSlots, SizeOf;
    forall h, k | h in p.where && h < |sp0.m0| && 0 <= k <= SizeOf(sp0.m0[h])
      ensures CopyHolds(m, sp0, p.where, h, k)
    {
      assert CopyHolds(m, sp, p.where, h, k);
      SameCellAfter(sp, sp0, p.where, h, h + k);
    }
    SameInOrder(sp, sp0, p);
  }

  lemma SameInOrder(sp: Spaces, sp0: Spaces, p: Progress)
    requires InOrder(sp, p) && sp == sp0.(reachable := sp.reachable)
    ensures InOrder(sp0, p) && TargetFree(sp0, p) == TargetFree(sp, p)
  {
    hide Total;
  }

  lemma SameCellAfter(sp: Spaces, sp0: Spaces, where: map<nat, nat>, h: nat, s: nat)
    requires sp == sp0.(reachable := sp.reachable) && h < |sp0.m0| && s < |sp0.m0|
    ensures CellAfter(sp, where, h, s) == CellAfter(sp0, where, h, s) && IsLinkOf(sp, h, s) == IsLinkOf(sp0, h, s)
  {
    hide KindOf, ScanSlots, WeakCells;
  }

  lemma SameRootsForwarded(r2: Roots, r: Roots, sp: Spaces, sp0: Spaces, where: map<nat, nat>)
    requires RootsForwarded(r2, r, sp, where, |r.globals|, |r.temporaries|, |r.monitors|)
    requires sp == sp0.(reachable := sp.reachable)
    ensures RootsForwarded(r2, r, sp0, where, |r.globals|, |r.temporaries|, |r.monitors|)
  {
    hide IsUntouched, Rebased, MonitorPointer;
    forall i | 0 <= i < |r.globals|
      ensures GlobalMoved(r2, r, sp0, where, i)
    {
      assert GlobalMoved(r2, r, sp, where, i);
    }
    forall i | 0 <= i < |r.temporaries|
      ensures CheneyRoots.TemporaryMoved(r2, r, sp0, where, i)
    {
      assert CheneyRoots.TemporaryMoved(r2, r, sp, where, i);
    }
    forall i | 0 <= i < |r.monitors|
      ensures MonitorMoved(r2, r, sp0, where, i)
    {
      assert MonitorMoved(r2, r, sp, where, i);
    }
  }

  /** The parts of a collection make a whole. */
  lemma CollectionDone(m3: seq<Cell>, m1: seq<Cell>, r2: Roots, sp0: Spaces, sp: Spaces, p3: Progress, p2: Progress,
                       p1: Progress,
                       p0: Progress, r: Roots, lists: seq<nat>, refs: seq<nat>)
    requires Collectable(sp0, r) && Tiled(sp0.m0, sp0.lo, sp0.free) && sp == KeepingReachable(sp0, r)
    requires Copied(m1, sp, p1) && Copied(m3, sp, p3) && WholeProgress(sp, p3, p2, p1, lists, refs)
    requires RootsForwarded(r2, r, sp, p0.where, |r.globals|, |r.temporaries|, |r.monitors|) && Grown(p1, p0)
    ensures Collected(m3, r2, sp0, p3, r) && TargetFree(sp0, p3) == TargetFree(sp, p3)
  {
    hide Copied, Headers, Tiled, Good, WholeProgress, Evacuated, RootsForwarded, Scanned, Roots.Distinct,
      IsRootPointer, Kept, InOrder,
      GoodWeakPointers, ListsAll, Unprocessed, RootTargets, IsClosed, GoodRoots, KeepingReachable, Collectable,
        WellRooted, Grown, TargetFree;
    StartOfCollection(sp0, r);
    KeepsTheRest(sp0, r);
    WholeFacts(sp, p3, p2, p1, lists, refs);
    AllEvacuated(m3, sp, p3, p2, p1, lists, refs);
    EvacuatedForAll(m3, sp, sp0, p3);
    RootsStay(r2, r, sp, p1, p0, |r.globals|, |r.temporaries|, |r.monitors|);
    CopiedIsReachable(m1, sp0, sp, p1, r2, r);
    SameRootsForwarded(r2, r, sp, sp0, p1.where);
  }

  /** All phases of a collection; the result is the first free cell of the target space. */
  method Evacuate(mem: array<Cell>, classOf: Cell -> Class, currentHeap: nat, currentHeapEnd: nat, targetSpace: nat,
                  roots: RootSet,
                  ghost sp: Spaces)
      returns (targetSpaceFreePtr: nat, ghost p: Progress)
    requires Collectable(sp, roots.Now()) && mem != roots.variables && mem[..] == sp.m0 && classOf == sp.classOf
    requires currentHeap == sp.lo && currentHeapEnd == sp.hi && targetSpace == sp.target
    modifies mem, roots.variables, roots.temporaryRoots
    ensures Tiled(sp.m0, sp.lo, sp.free) && Collected(mem[..], roots.Now(), sp, p, old(roots.Now()))
    ensures targetSpaceFreePtr == TargetFree(sp, p)
  {
    hide Copied, Headers, Tiled, Good, Collectable, KeepingReachable, RootsForwarded, GoodRoots, IsClosed, Scanning,
      Unprocessed, IsList, ListsAll,
      WeakCellsOf, WeakenedAll, GoodWeakPointers, Scanned, Collected, InOrder, Total, KindOf;
    ghost var r := roots.Now();
    StartOfCollection(sp, r);
    ghost var keeping := KeepingReachable(sp, r);
    assert keeping == sp.(reachable := keeping.reachable) by {
      KeepsTheRest(sp, r);
    }
    var copier := new Copier(mem, currentHeap, currentHeapEnd, targetSpace, keeping);
    CopyRootObjects(copier, roots);
    ghost var p0, r2 := copier.progress, roots.Now();
    var weakPointers, weakReferences, lists, refs := CopyNonRootObjects(copier, classOf);
    ghost var m1, p1 := mem[..], copier.progress;
    AfterScanning(m1, keeping, p1, copier.targetSpaceFreePtr, weakPointers, lists, weakReferences, refs);
    CopyWeakPointerLists(copier, weakPointers, lists);
    ghost var p2 := copier.progress;
    StillUnprocessed(keeping, p2, p1, lists, refs);
    StillLinked(keeping, p2, p1, lists, refs, weakReferences);
    CopyWeakReferences(copier, weakReferences, refs);
    p, targetSpaceFreePtr := copier.progress, copier.targetSpaceFreePtr;
    CollectionDone(mem[..], m1, r2, sp, keeping, p, p2, p1, p0, r, lists, refs);
  }

  lemma KeepsTheRest(sp: Spaces, r: Roots)
    requires Tiled(sp.m0, sp.lo, sp.free)
    ensures KeepingReachable(sp, r) == sp.(reachable := KeepingReachable(sp, r).reachable)
  {
  }
}
