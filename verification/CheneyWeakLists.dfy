/** The walks along the lists of weak objects in copyWeakPointerLists and copyWeakReferences (collectorDebug.c). */
module CheneyWeakLists {
  import opened Cells
  import opened FreeList
  import opened Objects
  import opened HeapShape
  import opened Marking
  import opened TwoSpaces
  import opened CheneyCopying
  import opened CheneyScanning
  import opened CheneyTraversal
  import opened CheneyWeak

  /** The objects in `done`, the first ones of the list, have their weak pointers updated; `head` leads to the rest. */
  ghost predicate Weakening(m: seq<Cell>, sp: Spaces, p: Progress, p0: Progress, kind: nat, objects: seq<nat>,
                            done: seq<nat>, head: Cell) {
    && Copied(m, sp, p) && Unprocessed(sp, p0, kind, objects) && done <= objects && IsWeak(kind)
    && p == WeakenedAll(sp, p0, kind == GCT_WEAKREFERENCE, WeakCellsOf(sp.m0, done))
    && IsList(sp, p, head, objects[|done|..])
  }

  /** The next object of the list. */
  ghost predicate IsNext(m: seq<Cell>, sp: Spaces, p: Progress, kind: nat, h: nat, head: Cell) {
    && h in p.where && h < |sp.m0| && KindOf(sp.m0[h]) == kind && head == CELL * (p.where[h] + HEADERSIZE)
    && ReservedCell(kind, h) in p.other && FreshCells(p, WeakCells(sp.m0, h))
    && h + 1 < |sp.m0| && p.where[h] + 1 < |m| && m[p.where[h] + 1] == sp.m0[h + 1]
    && 0 <= NewCell(p, h, ReservedCell(kind, h)) < |m|
       && m[NewCell(p, h, ReservedCell(kind, h))] == p.other[ReservedCell(kind, h)]
  }

  lemma WeakeningFacts(m: seq<Cell>, sp: Spaces, p: Progress, p0: Progress, kind: nat, objects: seq<nat>,
                       done: seq<nat>, head: Cell)
    requires Weakening(m, sp, p, p0, kind, objects, done, head)
    ensures Copied(m, sp, p) && Unprocessed(sp, p0, kind, objects) && GoodWeakPointers(sp) && Good(sp)
    ensures Tiled(sp.m0, sp.lo, sp.free)
    ensures p.where == p0.where && p.where.Keys <= Headers(sp.m0, sp.lo, sp.free) && NewSpace(m, sp, p)
    ensures p == WeakenedAll(sp, p0, kind == GCT_WEAKREFERENCE, WeakCellsOf(sp.m0, done))
    ensures |done| <= |objects| && done == objects[..|done|] && IsList(sp, p, head, objects[|done|..])
    ensures head == NULL ==> done == objects
    ensures head != NULL ==> |done| < |objects| && objects[|done|] in objects && objects[|done|] !in done
  {
    hide Copyable, Apart, WeakCells, WeakValues, WeakCellsOf, OldSpace, InOrder, CellCopied;
    CopiedFacts(m, sp, p);
    assert NoDuplicates(objects);
  }

  /** A cell of the next object that is no weak cell is as it was before. */
  lemma OtherCellOfNext(sp: Spaces, p: Progress, p0: Progress, kind: nat, objects: seq<nat>, done: seq<nat>, h: nat,
                        s: int)
    requires Unprocessed(sp, p0, kind, objects) && h in objects && h !in done && (forall g | g in done :: g in objects)
    requires p == WeakenedAll(sp, p0, kind == GCT_WEAKREFERENCE, WeakCellsOf(sp.m0, done))
    requires h < |sp.m0| && h <= s < Next(sp.m0, h)
    ensures s in p.other <==> s in p0.other
    ensures s in p0.other ==> p.other[s] == p0.other[s]
  {
    hide Unprocessed, WeakValue, WeakCellsOf;
    OtherWeakCells(sp, p0, kind, objects, done, h, s);
    ValueKeys(sp, p0.where, kind == GCT_WEAKREFERENCE, WeakCellsOf(sp.m0, done));
  }

  lemma UnprocessedAt(sp: Spaces, p: Progress, kind: nat, objects: seq<nat>, h: nat)
    requires Unprocessed(sp, p, kind, objects) && h in objects
    ensures h in p.where && h < |sp.m0| && KindOf(sp.m0[h]) == kind && FreshCells(p, WeakCells(sp.m0, h))
    ensures h + 1 !in p.done && h + 1 !in p.other
    ensures Good(sp) && Tiled(sp.m0, sp.lo, sp.free) && h in Headers(sp.m0, sp.lo, sp.free) && GoodWeakPointers(sp)
  {
    hide Copyable, Apart, WeakCells, FreshCells, KindOf;
  }

  lemma NextIsFreshWeak(sp: Spaces, p: Progress, p0: Progress, kind: nat, objects: seq<nat>, done: seq<nat>, h: nat)
    requires Unprocessed(sp, p0, kind, objects) && h in objects && h !in done && (forall g | g in done :: g in objects)
    requires p == WeakenedAll(sp, p0, kind == GCT_WEAKREFERENCE, WeakCellsOf(sp.m0, done))
    ensures FreshCells(p, WeakCells(sp.m0, h))
  {
    hide Unprocessed, WeakValues, WeakCellsOf, WeakCells, GoodWeakPointers, Good, Headers, Tiled;
    UnprocessedAt(sp, p0, kind, objects, h);
    forall s | s in WeakCells(sp.m0, h)
      ensures s !in p.done && s !in p.other
    {
      GoodWeakAt(sp, h, s);
      OtherCellOfNext(sp, p, p0, kind, objects, done, h, s);
    }
  }

  lemma ListHead(sp: Spaces, p: Progress, head: Cell, list: seq<nat>)
    requires IsList(sp, p, head, list) && list != []
    ensures var h := list[0];
            && h < |sp.m0| && h in p.where && IsWeak(KindOf(sp.m0[h])) && ReservedCell(KindOf(sp.m0[h]), h) in p.other
            && head == CELL * (p.where[h] + HEADERSIZE)
               && IsList(sp, p, p.other[ReservedCell(KindOf(sp.m0[h]), h)], list[1..])
  {
  }

  lemma SecondCell(m: seq<Cell>, sp: Spaces, p: Progress, h: nat)
    requires NewSpace(m, sp, p) && h in p.where && h < |sp.m0| && h + 1 < Next(sp.m0, h) && h + 1 !in p.done
    requires h + 1 !in p.other
    ensures h + 1 < |sp.m0| && p.where[h] + 1 < |m| && m[p.where[h] + 1] == sp.m0[h + 1]
  {
    hide NewSpace, Forwarded;
    SlotCopied(m, sp, p, h, h + 1);
  }

  lemma LinkCell(m: seq<Cell>, sp: Spaces, p: Progress, h: nat, s: nat)
    requires NewSpace(m, sp, p) && h in p.where && h < |sp.m0| && h < s < Next(sp.m0, h) && s in p.other
    ensures 0 <= NewCell(p, h, s) < |m| && m[NewCell(p, h, s)] == p.other[s]
  {
    hide NewSpace, Forwarded;
    SlotCopied(m, sp, p, h, s);
  }

  lemma ObjectShape(sp: Spaces, h: nat)
    requires Tiled(sp.m0, sp.lo, sp.free) && Good(sp) && h in Headers(sp.m0, sp.lo, sp.free) && h < |sp.m0|
    requires IsWeak(KindOf(sp.m0[h]))
    ensures h + 1 < Next(sp.m0, h) <= |sp.m0| && h < ReservedCell(KindOf(sp.m0[h]), h) < Next(sp.m0, h)
  {
    hide Copyable, Headers, Good, Tiled;
    ObjectBounds(sp, h);
    IsCopyable(sp, h);
    WeakFits(sp, h);
    ReservedFits(sp.classOf, sp.m0, h);
  }

  lemma WeakFits(sp: Spaces, h: nat)
    requires Tiled(sp.m0, sp.lo, sp.free) && Copyable(sp, h)
    ensures Fits(sp.classOf, sp.m0, h)
  {
  }

  lemma NextWeak(m: seq<Cell>, sp: Spaces, p: Progress, p0: Progress, kind: nat, objects: seq<nat>, done: seq<nat>,
                 head: Cell)
    requires Weakening(m, sp, p, p0, kind, objects, done, head) && head != NULL
    ensures |done| < |objects| && IsNext(m, sp, p, kind, objects[|done|], head)
  {
    hide Weakening, Unprocessed, WeakValues, WeakCellsOf, WeakCells, GoodWeakPointers, Good, Headers, Tiled, NewSpace,
      KindOf, IsList, FreshCells,
         SizeOf, Copied, WeakenedAll, ReservedCell, IsWeak;
    WeakeningFacts(m, sp, p, p0, kind, objects, done, head);
    var h := objects[|done|];
    UnprocessedAt(sp, p0, kind, objects, h);
    assert objects[|done|..][0] == h;
    ListHead(sp, p, head, objects[|done|..]);
    NextIsFreshWeak(sp, p, p0, kind, objects, done, h);
    ObjectShape(sp, h);
    OtherCellOfNext(sp, p, p0, kind, objects, done, h, h + 1);
    SameDone(sp, p, p0, kind, done);
    SecondCell(m, sp, p, h);
    LinkCell(m, sp, p, h, ReservedCell(KindOf(sp.m0[h]), h));
  }

  lemma SameDone(sp: Spaces, p: Progress, p0: Progress, kind: nat, done: seq<nat>)
    requires p == WeakenedAll(sp, p0, kind == GCT_WEAKREFERENCE, WeakCellsOf(sp.m0, done))
    ensures p.done == p0.done && p.order == p0.order
  {
  }

  lemma ValuesJoin(sp: Spaces, where: map<nat, nat>, isReference: bool, a: seq<nat>, b: seq<nat>)
    ensures WeakValues(sp, where, isReference, a + b) == WeakValues(sp, where, isReference, a) + WeakValues(sp, where,
        isReference, b)
  {
    hide WeakValue;
  }

  lemma WeakenedJoin(sp: Spaces, p: Progress, isReference: bool, a: seq<nat>, b: seq<nat>)
    ensures WeakenedAll(sp, WeakenedAll(sp, p, isReference, a), isReference, b) == WeakenedAll(sp, p, isReference,
        a + b)
  {
    hide WeakValues;
    ValuesJoin(sp, p.where, isReference, a, b);
    var x, y := WeakValues(sp, p.where, isReference, a), WeakValues(sp, p.where, isReference, b);
    assert (p.other + x) + y == p.other + (x + y);
  }

  /** Updating the weak pointers of one object keeps the links of the others. */
  lemma LinksStay(sp: Spaces, p2: Progress, p: Progress, p0: Progress, kind: nat, objects: seq<nat>, h: nat,
                  list: seq<nat>, head: Cell)
    requires Unprocessed(sp, p0, kind, objects) && IsWeak(kind) && p.where == p0.where && h in objects
    requires (forall g | g in list :: g in objects && g != h)
    requires p2 == WeakenedAll(sp, p, kind == GCT_WEAKREFERENCE, WeakCells(sp.m0, h)) && IsList(sp, p, head, list)
    ensures IsList(sp, p2, head, list)
  {
    hide Unprocessed, WeakValues, WeakCells, IsList, Good, Headers, Tiled, KindOf;
    forall g | g in list && g < |sp.m0| && ReservedCell(KindOf(sp.m0[g]), g) in p.other
      ensures ReservedCell(KindOf(sp.m0[g]), g) in p2.other
      ensures p2.other[ReservedCell(KindOf(sp.m0[g]), g)] == p.other[ReservedCell(KindOf(sp.m0[g]), g)]
    {
      LinkStays(sp, p2, p, p0, kind, objects, h, g);
    }
    ListKept(sp, p2, p, head, list);
  }

  lemma LinkStays(sp: Spaces, p2: Progress, p: Progress, p0: Progress, kind: nat, objects: seq<nat>, h: nat, g: nat)
    requires Unprocessed(sp, p0, kind, objects) && IsWeak(kind) && p.where == p0.where && h in objects && g in objects
    requires g < |sp.m0| && ReservedCell(KindOf(sp.m0[g]), g) in p.other
    requires p2 == WeakenedAll(sp, p, kind == GCT_WEAKREFERENCE, WeakCells(sp.m0, h))
    ensures ReservedCell(KindOf(sp.m0[g]), g) in p2.other
    ensures p2.other[ReservedCell(KindOf(sp.m0[g]), g)] == p.other[ReservedCell(KindOf(sp.m0[g]), g)]
  {
    hide Unprocessed, WeakValues, Good, Headers, Tiled, KindOf, GoodWeakPointers;
    UnprocessedAt(sp, p0, kind, objects, h);
    UnprocessedAt(sp, p0, kind, objects, g);
    ObjectShape(sp, g);
    var r := ReservedCell(KindOf(sp.m0[g]), g);
    ValueKeys(sp, p.where, kind == GCT_WEAKREFERENCE, WeakCells(sp.m0, h));
    if r in WeakCells(sp.m0, h) {
      GoodWeakAt(sp, h, r);
      if g != h {
        ObjectsApart(sp, g, h);
      }
    }
  }

  lemma WeakDone(m2: seq<Cell>, m: seq<Cell>, sp: Spaces, p2: Progress, p: Progress, p0: Progress, kind: nat,
                 objects: seq<nat>, done: seq<nat>, head: Cell)
    requires Weakening(m, sp, p, p0, kind, objects, done, head) && head != NULL && |done| < |objects|
    requires objects[|done|] < |sp.m0| && ReservedCell(kind, objects[|done|]) in p.other
    requires Copied(m2, sp, p2)
    requires p2 == WeakenedAll(sp, p, kind == GCT_WEAKREFERENCE, WeakCells(sp.m0, objects[|done|]))
    ensures ReservedCell(kind, objects[|done|]) in p2.other
    ensures Weakening(m2, sp, p2, p0, kind, objects, done + [objects[|done|]],
                      p2.other[ReservedCell(kind, objects[|done|])])
  {
    hide Unprocessed, WeakValues, WeakCells, IsList, Good, Headers, Tiled, KindOf, Copied, WeakenedAll,
      GoodWeakPointers, NewSpace, ReservedCell, FreshCells;
    WeakeningFacts(m, sp, p, p0, kind, objects, done, head);
    var h, rest := objects[|done|], objects[|done| + 1..];
    UnprocessedAt(sp, p0, kind, objects, h);
    assert objects[|done|..][0] == h && objects[|done|..][1..] == rest;
    ListHead(sp, p, head, objects[|done|..]);
    RestDiffers(sp, p0, kind, objects, |done|);
    WeakenedJoin(sp, p0, kind == GCT_WEAKREFERENCE, WeakCellsOf(sp.m0, done), WeakCells(sp.m0, h));
    assert (done + [h])[..|done|] == done;
    LinksStay(sp, p2, p, p0, kind, objects, h, rest, p.other[ReservedCell(kind, h)]);
    LinkStays(sp, p2, p, p0, kind, objects, h, h);
  }

  lemma RestDiffers(sp: Spaces, p0: Progress, kind: nat, objects: seq<nat>, n: nat)
    requires Unprocessed(sp, p0, kind, objects) && n < |objects|
    ensures forall g | g in objects[n + 1..] :: g in objects && g != objects[n]
  {
    hide GoodWeakPointers, FreshCells;
  }

  /** The weak pointers of the next object, in the object and in its copy. */
  lemma CellsOfNext(m: seq<Cell>, sp: Spaces, p: Progress, kind: nat, h: nat, head: Cell)
    requires Copied(m, sp, p) && GoodWeakPointers(sp) && IsNext(m, sp, p, kind, h, head) && IsWeak(kind)
    requires head == CELL * (p.where[h] + HEADERSIZE)
    ensures head / CELL - HEADERSIZE == p.where[h]
    ensures |WeakCells(sp.m0, h)| == if kind == GCT_WEAKREFERENCE then 1 else m[p.where[h] + 1]
    ensures forall i | 0 <= i < |WeakCells(sp.m0, h)| ::
              && WeakCells(sp.m0, h)[i] < |sp.m0|
              && p.where[h] + (if kind == GCT_WEAKREFERENCE then 3 else 4) + i == NewCell(p, h, WeakCells(sp.m0, h)[i])
    ensures NewCell(p, h, ReservedCell(kind, h)) == p.where[h] + if kind == GCT_WEAKREFERENCE then 4 else 2
  {
    hide Copied, GoodWeakPointers, Good, Headers, Tiled, KindOf, FreshCells, HasCopy, OldSpace, NewSpace, InOrder,
      IsInside;
    CopiedFacts(m, sp, p);
    forall i | 0 <= i < |WeakCells(sp.m0, h)|
      ensures WeakCells(sp.m0, h)[i] < |sp.m0|
    {
      GoodWeakAt(sp, h, WeakCells(sp.m0, h)[i]);
    }
  }

  lemma WeakeningStarts(m: seq<Cell>, sp: Spaces, p: Progress, kind: nat, objects: seq<nat>, head: Cell)
    requires Copied(m, sp, p) && Unprocessed(sp, p, kind, objects) && IsWeak(kind) && IsList(sp, p, head, objects)
    ensures Weakening(m, sp, p, p, kind, objects, [], head)
  {
    hide Copied, Unprocessed, IsList;
    NoWeakValues(sp, p.where, kind == GCT_WEAKREFERENCE);
    assert p.other + map[] == p.other;
  }

  /** Updates the weak pointers of all weak lists, or clears them. */
  method CopyWeakPointerLists(copier: Copier, weakPointers: Cell, ghost lists: seq<nat>)
    requires copier.Valid() && Unprocessed(copier.spaces, copier.progress, GCT_WEAKPOINTERLIST, lists)
    requires IsList(copier.spaces, copier.progress, weakPointers, lists)
    modifies copier`progress, copier.mem
    ensures copier.Valid()
    ensures copier.progress == WeakenedAll(copier.spaces, old(copier.progress), false,
                                           WeakCellsOf(copier.spaces.m0, lists))
  {
    hide Copied, Unprocessed, WeakCells, GoodWeakPointers, WeakValues, WeakCellsOf, TargetFree, IsList, Weakening,
      FreshCells, KindOf, WeakenedAll;
    ghost var sp, p, done := copier.spaces, copier.progress, [];
    var list: Cell := weakPointers;
    WeakeningStarts(copier.mem[..], sp, p, GCT_WEAKPOINTERLIST, lists, list);
    WeakeningFacts(copier.mem[..], sp, copier.progress, p, GCT_WEAKPOINTERLIST, lists, done, list);
    while list != NULL
      invariant copier.Valid()
      invariant Weakening(copier.mem[..], sp, copier.progress, p, GCT_WEAKPOINTERLIST, lists, done, list)
      invariant |done| <= |lists|
      decreases |lists| - |done|
    {
      ghost var m1, p1 := copier.mem[..], copier.progress;
      WeakeningFacts(m1, sp, p1, p, GCT_WEAKPOINTERLIST, lists, done, list);
      NextWeak(m1, sp, p1, p, GCT_WEAKPOINTERLIST, lists, done, list);
      ghost var h := lists[|done|];
      CellsOfNext(m1, sp, p1, GCT_WEAKPOINTERLIST, h, list);
      var n := list / CELL - HEADERSIZE;
      CopyWeakPointers(copier, n + 4, copier.mem[n + 1], false, h);
      WeakDone(copier.mem[..], m1, sp, copier.progress, p1, p, GCT_WEAKPOINTERLIST, lists, done, list);
      done := done + [h];
      NextLink(copier.mem[..], sp, copier.progress, p1, h, GCT_WEAKPOINTERLIST, false, WeakCells(sp.m0, h));
      list := copier.mem[n + 2];
    }
    WeakeningFacts(copier.mem[..], sp, copier.progress, p, GCT_WEAKPOINTERLIST, lists, done, list);
  }

  lemma NextLink(m: seq<Cell>, sp: Spaces, p: Progress, p1: Progress, h: nat, kind: nat, isReference: bool,
                 cells: seq<nat>)
    requires Copied(m, sp, p) && p == WeakenedAll(sp, p1, isReference, cells) && h in p1.where
    requires h < |sp.m0| && KindOf(sp.m0[h]) == kind && IsWeak(kind) && ReservedCell(kind, h) in p.other
    ensures p.where == p1.where
    ensures 0 <= NewCell(p, h, ReservedCell(kind, h)) < |m|
    ensures m[NewCell(p, h, ReservedCell(kind, h))] == p.other[ReservedCell(kind, h)]
  {
    hide Copied, KindOf, HasCopy, Forwarded, Good, OldSpace, NewSpace, InOrder, IsInside, Headers, Tiled, WeakValues;
    CopiedFacts(m, sp, p);
    ObjectShape(sp, h);
    LinkCell(m, sp, p, h, ReservedCell(kind, h));
  }

  /** Updates the referents of all weak references, or clears them. */
  method CopyWeakReferences(copier: Copier, weakReferences: Cell, ghost refs: seq<nat>)
    requires copier.Valid() && Unprocessed(copier.spaces, copier.progress, GCT_WEAKREFERENCE, refs)
    requires IsList(copier.spaces, copier.progress, weakReferences, refs)
    modifies copier`progress, copier.mem
    ensures copier.Valid()
    ensures copier.progress == WeakenedAll(copier.spaces, old(copier.progress), true,
                                           WeakCellsOf(copier.spaces.m0, refs))
  {
    hide Copied, Unprocessed, WeakCells, GoodWeakPointers, WeakValues, WeakCellsOf, TargetFree, IsList, Weakening,
      FreshCells, KindOf, WeakenedAll;
    ghost var sp, p, done := copier.spaces, copier.progress, [];
    var thisRef: Cell := weakReferences;
    WeakeningStarts(copier.mem[..], sp, p, GCT_WEAKREFERENCE, refs, thisRef);
    WeakeningFacts(copier.mem[..], sp, copier.progress, p, GCT_WEAKREFERENCE, refs, done, thisRef);
    while thisRef != NULL
      invariant copier.Valid()
      invariant Weakening(copier.mem[..], sp, copier.progress, p, GCT_WEAKREFERENCE, refs, done, thisRef)
      invariant |done| <= |refs|
      decreases |refs| - |done|
    {
      ghost var m1, p1 := copier.mem[..], copier.progress;
      WeakeningFacts(m1, sp, p1, p, GCT_WEAKREFERENCE, refs, done, thisRef);
      NextWeak(m1, sp, p1, p, GCT_WEAKREFERENCE, refs, done, thisRef);
      ghost var h := refs[|done|];
      CellsOfNext(m1, sp, p1, GCT_WEAKREFERENCE, h, thisRef);
      var n := thisRef / CELL - HEADERSIZE;
      CopyWeakPointers(copier, n + 3, 1, true, h);
      WeakDone(copier.mem[..], m1, sp, copier.progress, p1, p, GCT_WEAKREFERENCE, refs, done, thisRef);
      done := done + [h];
      NextLink(copier.mem[..], sp, copier.progress, p1, h, GCT_WEAKREFERENCE, true, WeakCells(sp.m0, h));
      thisRef := copier.mem[n + 4];
    }
    WeakeningFacts(copier.mem[..], sp, copier.progress, p, GCT_WEAKREFERENCE, refs, done, thisRef);
  }
}
