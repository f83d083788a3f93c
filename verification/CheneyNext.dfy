/**
 * The next collection of the copying collector can start from what the last one leaves, and everything left can be
 * reached.
 */
module CheneyNext {
  import opened Cells
  import opened FreeList
  import opened Objects
  import opened HeapShape
  import opened Marking
  import opened Roots
  import opened TwoSpaces
  import opened CheneyCopying
  import opened CheneyScanning
  import opened CheneyRoots
  import opened CheneyReachability
  import opened CheneyWeak
  import opened CheneyOutcome
  import opened CheneyCollection
  import opened CheneyAfter

  /** A heap and roots between two collections, in spaces that lie in [from, to). */
  ghost predicate Ready(sp: Spaces, r: Roots, from: nat, to: nat) {
    Collectable(sp, r) && Settled(sp, r, from, to)
  }

  /** One collection, from sp and r to sp' and r2. */
  ghost predicate Collection(sp': Spaces, r2: Roots, m: seq<Cell>, sp: Spaces, p: Progress, r: Roots, from: nat,
                             to: nat) {
    && Ready(sp, r, from, to) && Tiled(sp.m0, sp.lo, sp.free) && Collected(m, r2, sp, p, r)
    && Follows(sp', m, sp, p, from, to) && Apart(sp') && sp'.reachable == {} && from <= sp'.target
       && sp'.target + (sp'.free - sp'.lo) <= to
  }

  lemma CollectionFacts(sp': Spaces, r2: Roots, m: seq<Cell>, sp: Spaces, p: Progress, r: Roots, from: nat, to: nat)
    requires Collection(sp', r2, m, sp, p, r, from, to)
    ensures Good(sp) && Tiled(sp.m0, sp.lo, sp.free) && GoodWeakPointers(sp) && WellRooted(sp, r)
    ensures Settled(sp, r, from, to) && from <= sp.lo && sp.hi <= to
    ensures Evacuated(m, sp, p) && p.where.Keys == Kept(sp, RootTargets(sp, r))
    ensures RootTargets(sp, r) <= Headers(sp.m0, sp.lo, sp.free)
    ensures p.where.Keys <= Headers(sp.m0, sp.lo, sp.free)
    ensures RootsForwarded(r2, r, sp, p.where, |r.globals|, |r.temporaries|, |r.monitors|)
    ensures Follows(sp', m, sp, p, from, to) && Apart(sp') && from <= sp'.target
    ensures sp'.target + (sp'.free - sp'.lo) <= to
    ensures sp'.m0 == m && sp'.classOf == sp.classOf && sp'.lo == sp.target && sp'.free == TargetFree(sp, p)
    ensures |m| == |sp.m0|
    ensures Tiled(sp'.m0, sp'.lo, sp'.free) && Headers(sp'.m0, sp'.lo, sp'.free) == p.where.Values && 1 <= sp.lo
  {
    hide Evacuated, Headers, Tiled, Copyable, Kept, GoodWeakPointers, WellRooted, RootsForwarded, Total, SettledObject;
    CopiesTile(m, sp, p);
    EvacuatedFacts(m, sp, p);
  }

  lemma FitsLike(classOf: Cell -> Class, m: seq<Cell>, m0: seq<Cell>, n: nat, h: nat)
    requires h + 1 < |m0| && n + 1 < |m| && m[n] == m0[h] && Fits(classOf, m0, h) && Next(m, n) <= |m|
    requires KindOf(m0[h]) != GCT_MONITOR && KindOf(m0[h]) != GCT_THREAD ==> m[n + 1] == m0[h + 1]
    requires KindOf(m0[h]) == GCT_OBJECTARRAY ==> h + 3 < |m0| && n + 3 < |m| && m[n + 3] == m0[h + 3]
    ensures Fits(classOf, m, n)
  {
    hide KindOf, SizeOf;
  }

  lemma SameDistancesDistinct(a: seq<nat>, n: nat, b: seq<nat>, h: nat)
    requires SameDistances(a, n, b, h) && NoDuplicates(b)
    ensures NoDuplicates(a)
  {
    forall i, j | 0 <= i < j < |a|
      ensures a[i] != a[j]
    {
      assert a[i] - n == b[i] - h && a[j] - n == b[j] - h;
    }
  }

  /** The new pointer leads to an object of the new space, if it leads into the space at all. */
  lemma MovedPointsToObject(sp': Spaces, sp: Spaces, where: map<nat, nat>, v: Cell, v': Cell)
    requires PointerMoved(sp', sp, where, v, v') && Tiled(sp'.m0, sp'.lo, sp'.free)
    requires Headers(sp'.m0, sp'.lo, sp'.free) == where.Values
    ensures PointsToObject(sp', v')
  {
    hide Headers, Tiled;
  }

  lemma MovedStaysLocal(sp': Spaces, sp: Spaces, where: map<nat, nat>, v: Cell, v': Cell, from: nat, to: nat)
    requires PointerMoved(sp', sp, where, v, v') && Local(sp, from, to, v)
    ensures Local(sp', from, to, v')
  {
  }

  /** A copy can be copied again, and its pointers are settled. */
  lemma CopyIsReady(sp': Spaces, r2: Roots, m: seq<Cell>, sp: Spaces, p: Progress, r: Roots, from: nat, to: nat, h: nat)
    requires Collection(sp', r2, m, sp, p, r, from, to) && h in p.where
    ensures Tiled(sp'.m0, sp'.lo, sp'.free) && Copyable(sp', p.where[h])
    ensures forall s | s in ScanSlots(sp'.classOf, sp'.m0, p.where[h]) && s < |sp'.m0| ::
              Local(sp', from, to, PointerAt(sp', p.where[h], s))
  {
    hide Evacuated, Headers, Tiled, Kept, GoodWeakPointers, WellRooted, RootsForwarded, Good, Follows, Settled,
      Collection, CopyHolds, RootTargets,
      ScanSlots, WeakCells, NoDuplicates, Fits, KindOf, SizeOf, Apart, Local, IsMonitorSlot, PointsToObject,
        PointerMoved, SameDistances;
    CollectionFacts(sp', r2, m, sp, p, r, from, to);
    var n := p.where[h];
    CopyFacts(m, sp, p, h);
    ShapeCells(m, sp, p, h);
    CopyHasSameShape(m, sp, p, h);
    SameDistancesDistinct(ScanSlots(sp.classOf, m, n), n, ScanSlots(sp.classOf, sp.m0, h), h);
    FitsLike(sp.classOf, m, sp.m0, n, h);
    forall s' | s' in ScanSlots(sp.classOf, m, n)
      ensures n < s' < Next(m, n) && s' < |m| && PointsToObject(sp', PointerAt(sp', n, s'))
      ensures Local(sp', from, to, PointerAt(sp', n, s'))
    {
      var s := SlotOfCopy(m, sp, p, h, s');
      PointerCopied(m, sp, p, h, s);
      SlotMoves(sp', m, sp, p, r, from, to, h, s);
      SlotIsLocal(sp, r, from, to, h, s);
      MovedPointsToObject(sp', sp, p.where, PointerAt(sp, h, s), PointerAt(sp', n, s'));
      MovedStaysLocal(sp', sp, p.where, PointerAt(sp, h, s), PointerAt(sp', n, s'), from, to);
    }
  }

  lemma SlotIsLocal(sp: Spaces, r: Roots, from: nat, to: nat, h: nat, s: nat)
    requires Settled(sp, r, from, to) && Tiled(sp.m0, sp.lo, sp.free) && h in Headers(sp.m0, sp.lo, sp.free)
    requires s in ScanSlots(sp.classOf, sp.m0, h) && s < |sp.m0|
    ensures Local(sp, from, to, PointerAt(sp, h, s))
  {
    hide Headers, Tiled, ScanSlots, WeakCells, Local, PointerAt, Good, IsRootPointer;
    assert SettledObject(sp, from, to, h);
  }

  lemma WeakIsSettled(sp: Spaces, r: Roots, from: nat, to: nat, h: nat, s: nat)
    requires Settled(sp, r, from, to) && Tiled(sp.m0, sp.lo, sp.free) && h in Headers(sp.m0, sp.lo, sp.free)
    requires h < |sp.m0|
    requires s in WeakCells(sp.m0, h) && s < |sp.m0|
    ensures SettledWeak(sp, from, to, sp.m0[s])
  {
    hide Headers, Tiled, ScanSlots, WeakCells, SettledWeak, PointerAt, Good, IsRootPointer, KindOf;
    assert SettledObject(sp, from, to, h);
  }

  /**
   * A pointer of a weak list that leads out of the space, with an odd cell in front of its target: the collector takes
   * that cell for a header that holds the address of a copy.
   */
  predicate IsStray(sp: Spaces, isReference: bool, v: Cell) {
    !isReference && v != NULL && !InHeap(sp.lo, sp.hi, v) && 1 <= v / CELL <= |sp.m0|
      && IsMarked(sp.m0[v / CELL - HEADERSIZE])
  }

  /** The next collection can deal with the weak pointer. */
  ghost predicate FineWeak(sp: Spaces, from: nat, to: nat, v: Cell) {
    Tiled(sp.m0, sp.lo, sp.free) && GoodWeak(sp, v) && SettledWeak(sp, from, to, v)
  }

  /**
   * The address that a stray pointer is replaced with happens to be NULL, that of a copy, or right behind a cell
   * outside all spaces.
   */
  ghost predicate FineReplacement(sp: Spaces, p: Progress, from: nat, to: nat, v: Cell) {
    || v == NULL
    || (v % CELL == 0 && HeaderAt(v) in p.where.Values)
    || (!InHeap(from, to, v) && 1 <= v / CELL <= |sp.m0| && !(from <= v / CELL - 1 < to))
  }

  /** No stray pointer of a kept weak list is replaced with anything else. */
  ghost predicate StraysAreFine(sp: Spaces, p: Progress, from: nat, to: nat) {
    forall h, s | h in p.where && s in WeakCells(sp.m0, h) :: StrayIsFine(sp, p, from, to, h, s)
  }

  ghost predicate StrayIsFine(sp: Spaces, p: Progress, from: nat, to: nat, h: nat, s: nat) {
    h < |sp.m0| && s < |sp.m0| && IsStray(sp, KindOf(sp.m0[h]) == GCT_WEAKREFERENCE, sp.m0[s]) ==>
      FineReplacement(sp, p, from, to, sp.m0[sp.m0[s] / CELL - HEADERSIZE] - 1)
  }

  /** In the spaces afterwards that is just what makes a weak pointer fine. */
  lemma ReplacementIsFine(sp': Spaces, r2: Roots, m: seq<Cell>, sp: Spaces, p: Progress, r: Roots, from: nat, to: nat,
                          v: Cell)
    requires Collection(sp', r2, m, sp, p, r, from, to)
    ensures FineWeak(sp', from, to, v) <==> FineReplacement(sp, p, from, to, v)
  {
    hide Evacuated, Headers, Tiled, Kept, GoodWeakPointers, WellRooted, RootsForwarded, Good, Settled,
      Collection, CopyHolds, RootTargets, TargetFree, Copyable;
    CollectionFacts(sp', r2, m, sp, p, r, from, to);
    FollowsBounds(sp', m, sp, p, from, to);
    if HeaderAt(v) in p.where.Values {
      assert HeaderAt(v) in Headers(sp'.m0, sp'.lo, sp'.free);
      HeaderBounds(sp'.m0, sp'.lo, sp'.free, HeaderAt(v));
    }
  }

  lemma MarkedIsNotNull(v: Cell)
    requires IsMarked(v)
    ensures v > 0
  {
  }

  /** A weak pointer is fine after the collection exactly if it is no stray one that has become bad. */
  lemma WeakValueIsFine(sp': Spaces, r2: Roots, m: seq<Cell>, sp: Spaces, p: Progress, r: Roots, from: nat, to: nat,
                        isReference: bool, v: Cell)
    requires Collection(sp', r2, m, sp, p, r, from, to) && FineWeak(sp, from, to, v)
    ensures FineWeak(sp', from, to, WeakValue(sp, p.where, isReference, v))
            <==> (IsStray(sp, isReference, v) ==> FineReplacement(sp, p, from, to, sp.m0[v / CELL - HEADERSIZE] - 1))
  {
    hide Evacuated, Headers, Tiled, Kept, GoodWeakPointers, WellRooted, RootsForwarded, Good, Follows, Settled,
      Collection, CopyHolds, RootTargets, FineReplacement,
      ScanSlots, WeakCells, NoDuplicates, Fits, KindOf, Forwarded, Total, IsMarked;
    CollectionFacts(sp', r2, m, sp, p, r, from, to);
    FollowsBounds(sp', m, sp, p, from, to);
    if IsStray(sp, isReference, v) {
      MarkedIsNotNull(sp.m0[v / CELL - HEADERSIZE]);
      ReplacementIsFine(sp', r2, m, sp, p, r, from, to, sp.m0[v / CELL - HEADERSIZE] - 1);
    }
    if InHeap(sp.lo, sp.hi, v) && v != NULL {
      if HeaderAt(v) in p.where {
        ForwardedMoves(sp', m, sp, p, from, to, v);
        MovedPointsToObject(sp', sp, p.where, v, Forwarded(sp, p.where, v));
      }
    }
  }

  /** The weak pointers of a copy are those of the original, cleared or updated. */
  lemma WeakSlotOfCopy(m: seq<Cell>, sp: Spaces, p: Progress, h: nat, s': nat) returns (s: nat)
    requires Evacuated(m, sp, p) && GoodWeakPointers(sp) && h in p.where && s' in WeakCells(m, p.where[h])
    ensures s in WeakCells(sp.m0, h) && s' == NewCell(p, h, s)
  {
    hide Evacuated, ScanSlots, WeakCells, GoodWeakPointers;
    CopyHasSameShape(m, sp, p, h);
    var i :| 0 <= i < |WeakCells(m, p.where[h])| && WeakCells(m, p.where[h])[i] == s';
    s := WeakCells(sp.m0, h)[i];
  }

  lemma WeakSlotOfOriginal(m: seq<Cell>, sp: Spaces, p: Progress, h: nat, s: nat)
    requires Evacuated(m, sp, p) && h in p.where && s in WeakCells(sp.m0, h)
    ensures NewCell(p, h, s) in WeakCells(m, p.where[h])
  {
    hide Evacuated, ScanSlots, WeakCells;
    CopyHasSameShape(m, sp, p, h);
    var i :| 0 <= i < |WeakCells(sp.m0, h)| && WeakCells(sp.m0, h)[i] == s;
    assert WeakCells(m, p.where[h])[i] == NewCell(p, h, s);
  }

  /** The new value of a weak pointer, in the copy. */
  lemma WeakCellAfter(m: seq<Cell>, sp: Spaces, p: Progress, h: nat, s: nat)
    requires Evacuated(m, sp, p) && GoodWeakPointers(sp) && h in p.where && s in WeakCells(sp.m0, h)
    ensures Tiled(sp.m0, sp.lo, sp.free) && h in Headers(sp.m0, sp.lo, sp.free) && h < |sp.m0| && s < |sp.m0|
    ensures h < s < Next(sp.m0, h)
    ensures p.where[h] < |m| && m[p.where[h]] == sp.m0[h] && GoodWeak(sp, sp.m0[s]) && 0 <= NewCell(p, h, s) < |m|
    ensures m[NewCell(p, h, s)] == WeakValue(sp, p.where, KindOf(sp.m0[h]) == GCT_WEAKREFERENCE, sp.m0[s])
  {
    hide Evacuated, Headers, Tiled, GoodWeakPointers, ScanSlots, WeakCells, KindOf, SizeOf, GoodWeak, WeakValue,
      IsLinkOf, Copyable, Forwarded, Fits;
    CopyFacts(m, sp, p, h);
    FitsOf(sp, h);
    HeaderCopied(m, sp, p, h);
    GoodWeakAt(sp, h, s);
    ScannedCellsAreNoLinks(sp, h, s);
    assert CopyHolds(m, sp, p.where, h, s - h);
  }

  /** The weak pointers of a copy. */
  lemma CopyIsWeaklyFine(sp': Spaces, r2: Roots, m: seq<Cell>, sp: Spaces, p: Progress, r: Roots, from: nat, to: nat,
                         h: nat, s: nat)
    requires Collection(sp', r2, m, sp, p, r, from, to) && h in p.where && s in WeakCells(sp.m0, h)
    ensures p.where[h] < |m| && 0 <= NewCell(p, h, s) < |m| && p.where[h] < NewCell(p, h, s) < Next(m, p.where[h])
    ensures FineWeak(sp', from, to, m[NewCell(p, h, s)]) <==> StrayIsFine(sp, p, from, to, h, s)
  {
    hide Evacuated, Headers, Tiled, Kept, GoodWeakPointers, WellRooted, RootsForwarded, Good, Follows, Settled,
      Collection, RootTargets,
      ScanSlots, WeakCells, KindOf, SizeOf, Apart, GoodWeak, SettledWeak, WeakValue, IsStray;
    CollectionFacts(sp', r2, m, sp, p, r, from, to);
    WeakCellAfter(m, sp, p, h, s);
    WeakIsSettled(sp, r, from, to, h, s);
    WeakValueIsFine(sp', r2, m, sp, p, r, from, to, KindOf(sp.m0[h]) == GCT_WEAKREFERENCE, sp.m0[s]);
  }

  lemma PlaceOwner(p: Progress, n: nat) returns (h: nat)
    requires n in p.where.Values
    ensures h in p.where && p.where[h] == n
  {
    h :| h in p.where && p.where[h] == n;
  }

  /** The heap after a collection is good, its weak pointers aside. */
  lemma GoodAgain(sp': Spaces, r2: Roots, m: seq<Cell>, sp: Spaces, p: Progress, r: Roots, from: nat, to: nat)
    requires Collection(sp', r2, m, sp, p, r, from, to)
    ensures Good(sp')
  {
    hide Evacuated, Headers, Tiled, Kept, WellRooted, RootsForwarded, Follows, Settled, Collection, RootTargets,
      ScanSlots, WeakCells, Apart, GoodWeak, SettledWeak, Copyable, KindOf, SizeOf, Local, PointerAt;
    CollectionFacts(sp', r2, m, sp, p, r, from, to);
    forall n | n in Headers(sp'.m0, sp'.lo, sp'.free)
      ensures Copyable(sp', n)
    {
      var h := PlaceOwner(p, n);
      CopyIsReady(sp', r2, m, sp, p, r, from, to, h);
    }
  }

  /** If the stray pointers have come out fine, all weak pointers are. */
  lemma GoodWeakAgain(sp': Spaces, r2: Roots, m: seq<Cell>, sp: Spaces, p: Progress, r: Roots, from: nat, to: nat)
    requires Collection(sp', r2, m, sp, p, r, from, to) && StraysAreFine(sp, p, from, to)
    ensures GoodWeakPointers(sp')
  {
    hide Evacuated, Headers, Tiled, Kept, WellRooted, RootsForwarded, Follows, Settled, Collection, RootTargets,
      ScanSlots, WeakCells, Apart, GoodWeak, SettledWeak, KindOf, SizeOf, Local, PointerAt, Good, GoodWeakPointers,
        StraysAreFine, StrayIsFine;
    CollectionFacts(sp', r2, m, sp, p, r, from, to);
    GoodAgain(sp', r2, m, sp, p, r, from, to);
    forall n, s | n in Headers(sp'.m0, sp'.lo, sp'.free) && s in WeakCells(sp'.m0, n)
      ensures GoodWeakCell(sp', n, s)
    {
      FineCell(sp', r2, m, sp, p, r, from, to, n, s);
    }
    WeakFromCells(sp');
  }

  lemma WeakFromCells(sp: Spaces)
    requires Good(sp) && Tiled(sp.m0, sp.lo, sp.free)
    requires forall n, s | n in Headers(sp.m0, sp.lo, sp.free) && s in WeakCells(sp.m0, n) :: GoodWeakCell(sp, n, s)
    ensures GoodWeakPointers(sp)
  {
    hide Good, Tiled, Headers, WeakCells, GoodWeakCell;
  }

  lemma FineCell(sp': Spaces, r2: Roots, m: seq<Cell>, sp: Spaces, p: Progress, r: Roots, from: nat, to: nat, n: nat,
                 s': nat)
    requires Collection(sp', r2, m, sp, p, r, from, to) && StraysAreFine(sp, p, from, to)
    requires n in p.where.Values && s' in WeakCells(sp'.m0, n)
    ensures Tiled(sp'.m0, sp'.lo, sp'.free) && GoodWeakCell(sp', n, s') && SettledWeak(sp', from, to, sp'.m0[s'])
  {
    hide Evacuated, Headers, Tiled, Kept, WellRooted, RootsForwarded, Follows, Settled, Collection, RootTargets,
      ScanSlots, WeakCells, Apart, GoodWeak, SettledWeak, KindOf, SizeOf, Local, PointerAt, Good, GoodWeakPointers,
        StrayIsFine;
    CollectionFacts(sp', r2, m, sp, p, r, from, to);
    var h := PlaceOwner(p, n);
    var s := WeakSlotOfCopy(m, sp, p, h, s');
    assert StrayIsFine(sp, p, from, to, h, s);
    CopyIsWeaklyFine(sp', r2, m, sp, p, r, from, to, h, s);
  }

  lemma SettledAgain(sp': Spaces, r2: Roots, m: seq<Cell>, sp: Spaces, p: Progress, r: Roots, from: nat, to: nat,
                     n: nat)
    requires Collection(sp', r2, m, sp, p, r, from, to) && StraysAreFine(sp, p, from, to) && n in p.where.Values
    ensures SettledObject(sp', from, to, n)
  {
    hide Evacuated, Headers, Tiled, Kept, WellRooted, RootsForwarded, Follows, Settled, Collection, RootTargets,
      ScanSlots, WeakCells, Apart, GoodWeak, SettledWeak, KindOf, SizeOf, Local, PointerAt, GoodWeakPointers,
        StraysAreFine;
    CollectionFacts(sp', r2, m, sp, p, r, from, to);
    var h := PlaceOwner(p, n);
    CopyIsReady(sp', r2, m, sp, p, r, from, to, h);
    HeaderCopied(m, sp, p, h);
    forall s | s in WeakCells(sp'.m0, n) && s < |sp'.m0|
      ensures SettledWeak(sp', from, to, sp'.m0[s])
    {
      FineCell(sp', r2, m, sp, p, r, from, to, n, s);
    }
  }

  /** The root pointers afterwards are the root pointers before, forwarded. */
  lemma RootPointerBefore(r2: Roots, sp: Spaces, where: map<nat, nat>, r: Roots, v': Cell) returns (v: Cell)
    requires RootsForwarded(r2, r, sp, where, |r.globals|, |r.temporaries|, |r.monitors|) && IsRootPointer(r2, v')
    requires 1 <= sp.lo
    ensures IsRootPointer(r, v) && v' == Forwarded(sp, where, v) && HasCopy(sp, where, v)
  {
    hide Forwarded, Rebased, IsUntouched, HasCopy, MonitorPointer;
    if i :| 0 <= i < |r2.globals| && VariableAt(r2.variables, r2.globals[i]) == v' {
      assert GlobalMoved(r2, r, sp, where, i);
      v := VariableAt(r.variables, r.globals[i]);
    } else if i :| 0 <= i < |r2.temporaries| && TemporaryValue(r2.variables, r2.temporaries[i]) == v' {
      assert CheneyRoots.TemporaryMoved(r2, r, sp, where, i);
      v := TemporaryValue(r.variables, r.temporaries[i]);
    } else {
      var i :| 0 <= i < |r2.monitors| && MonitorPointer(r2, i) == v';
      assert MonitorMoved(r2, r, sp, where, i);
      v := MonitorPointer(r, i);
      MonitorPointerMoved(r2, r, sp, where, i);
    }
  }

  lemma MonitorPointerMoved(r2: Roots, r: Roots, sp: Spaces, where: map<nat, nat>, i: nat)
    requires i < |r.monitors| && r2.monitors == r.monitors && MonitorMoved(r2, r, sp, where, i) && 1 <= sp.lo
    ensures MonitorPointer(r2, i) == Forwarded(sp, where, MonitorPointer(r, i))
  {
    hide Forwarded, HasCopy;
    CheneyTag(sp, where, r.variables[r.monitors[i]]);
    NotForwarded(sp, where, NULL);
  }

  lemma RootPointerAfter(r2: Roots, sp: Spaces, where: map<nat, nat>, r: Roots, v: Cell)
    requires RootsForwarded(r2, r, sp, where, |r.globals|, |r.temporaries|, |r.monitors|) && IsRootPointer(r, v)
    requires 1 <= sp.lo
    ensures IsRootPointer(r2, Forwarded(sp, where, v))
  {
    hide Forwarded, Rebased, IsUntouched, HasCopy, MonitorPointer;
    var v' := Forwarded(sp, where, v);
    if i :| 0 <= i < |r.globals| && VariableAt(r.variables, r.globals[i]) == v {
      assert GlobalMoved(r2, r, sp, where, i);
      assert VariableAt(r2.variables, r2.globals[i]) == v';
    } else if i :| 0 <= i < |r.temporaries| && TemporaryValue(r.variables, r.temporaries[i]) == v {
      assert CheneyRoots.TemporaryMoved(r2, r, sp, where, i);
      assert TemporaryValue(r2.variables, r2.temporaries[i]) == v';
    } else {
      var i :| 0 <= i < |r.monitors| && MonitorPointer(r, i) == v;
      assert MonitorMoved(r2, r, sp, where, i);
      MonitorPointerMoved(r2, r, sp, where, i);
      assert MonitorPointer(r2, i) == v';
    }
  }

  lemma DistinctAgain(r2: Roots, r: Roots, sp: Spaces, where: map<nat, nat>)
    requires r.Distinct() && RootsForwarded(r2, r, sp, where, |r.globals|, |r.temporaries|, |r.monitors|)
    ensures r2.Distinct()
  {
    hide Forwarded, Rebased, IsUntouched, HasCopy, MonitorPointer, NoDuplicates;
    forall i | 0 <= i < |r.temporaries|
      ensures r2.temporaries[i].variable == r.temporaries[i].variable
    {
      assert CheneyRoots.TemporaryMoved(r2, r, sp, where, i);
    }
  }

  /** A root pointer and its forwarded form. */
  lemma RootMoves(sp': Spaces, r2: Roots, m: seq<Cell>, sp: Spaces, p: Progress, r: Roots, from: nat, to: nat, v: Cell)
    requires Collection(sp', r2, m, sp, p, r, from, to) && IsRootPointer(r, v)
    ensures PointerMoved(sp', sp, p.where, v, Forwarded(sp, p.where, v)) && Local(sp, from, to, v)
  {
    hide Evacuated, Headers, Tiled, Kept, GoodWeakPointers, Good, Follows, Collection, Forwarded, PointerMoved,
      IsRootPointer, Roots.Distinct,
      SettledObject, RootsForwarded, TargetFree, Apart;
    CollectionFacts(sp', r2, m, sp, p, r, from, to);
    assert PointsToObject(sp, v);
    if InHeap(sp.lo, sp.hi, v) {
      ObjectBounds(sp, HeaderAt(v));
      assert IsRootTarget(sp, r, HeaderAt(v));
      KeptIsLeading(sp, RootTargets(sp, r));
    }
    ForwardedMoves(sp', m, sp, p, from, to, v);
  }

  lemma RootsReadyAgain(sp': Spaces, r2: Roots, m: seq<Cell>, sp: Spaces, p: Progress, r: Roots, from: nat, to: nat)
    requires Collection(sp', r2, m, sp, p, r, from, to)
    ensures Tiled(sp'.m0, sp'.lo, sp'.free) && WellRooted(sp', r2)
    ensures forall v: Cell | IsRootPointer(r2, v) :: Local(sp', from, to, v)
  {
    hide Evacuated, Headers, Tiled, Kept, GoodWeakPointers, Good, Follows, Settled, Collection, Forwarded,
      PointerMoved, IsRootPointer, Roots.Distinct,
      RootsForwarded, RootTargets, Local, PointsToObject, HasCopy, TargetFree;
    CollectionFacts(sp', r2, m, sp, p, r, from, to);
    DistinctAgain(r2, r, sp, p.where);
    forall v': Cell | IsRootPointer(r2, v')
      ensures PointsToObject(sp', v') && Local(sp', from, to, v')
    {
      var v := RootPointerBefore(r2, sp, p.where, r, v');
      RootMoves(sp', r2, m, sp, p, r, from, to, v);
      MovedPointsToObject(sp', sp, p.where, v, v');
      MovedStaysLocal(sp', sp, p.where, v, v', from, to);
    }
  }

  /** If the next collection can start, the stray pointers have come out fine. */
  lemma ReadyMeansFine(sp': Spaces, r2: Roots, m: seq<Cell>, sp: Spaces, p: Progress, r: Roots, from: nat, to: nat)
    requires Collection(sp', r2, m, sp, p, r, from, to) && Ready(sp', r2, from, to)
    ensures StraysAreFine(sp, p, from, to)
  {
    hide Evacuated, Headers, Tiled, Kept, WellRooted, RootsForwarded, Follows, Settled, Collection, RootTargets,
      ScanSlots, WeakCells, Apart, GoodWeak, SettledWeak, KindOf, SizeOf, Local, PointerAt, Good, GoodWeakPointers,
        StrayIsFine;
    CollectionFacts(sp', r2, m, sp, p, r, from, to);
    forall h, s | h in p.where && s in WeakCells(sp.m0, h)
      ensures StrayIsFine(sp, p, from, to, h, s)
    {
      var n, s' := p.where[h], NewCell(p, h, s);
      WeakSlotOfOriginal(m, sp, p, h, s);
      CopyIsWeaklyFine(sp', r2, m, sp, p, r, from, to, h, s);
      GoodWeakAt(sp', n, s');
      WeakIsSettled(sp', r2, from, to, n, s');
    }
  }

  /**
   * A collection leaves a heap and roots that the next collection can start from, exactly if no stray pointer of a kept
   * weak list has been replaced with a bad address. Without stray pointers it always does.
   */
  lemma ReadyAgain(sp': Spaces, r2: Roots, m: seq<Cell>, sp: Spaces, p: Progress, r: Roots, from: nat, to: nat)
    requires Collection(sp', r2, m, sp, p, r, from, to)
    ensures Ready(sp', r2, from, to) <==> StraysAreFine(sp, p, from, to)
    ensures NoStrays(sp, p) ==> Ready(sp', r2, from, to)
  {
    hide Evacuated, Headers, Tiled, Kept, GoodWeakPointers, Good, IsRootPointer, WellRooted, RootsForwarded,
      RootTargets, Local, Collection, SettledObject,
      TargetFree, StraysAreFine, NoStrays, Ready;
    if Ready(sp', r2, from, to) {
      ReadyMeansFine(sp', r2, m, sp, p, r, from, to);
    }
    if NoStrays(sp, p) {
      NoStraysAreFine(sp, p, from, to);
    }
    if StraysAreFine(sp, p, from, to) {
      FineMeansReady(sp', r2, m, sp, p, r, from, to);
    }
  }

  /** No kept weak list has a stray pointer. */
  ghost predicate NoStrays(sp: Spaces, p: Progress) {
    forall h, s | h in p.where && s in WeakCells(sp.m0, h) ::
      h < |sp.m0| && s < |sp.m0| ==> !IsStray(sp, KindOf(sp.m0[h]) == GCT_WEAKREFERENCE, sp.m0[s])
  }

  lemma NoStraysAreFine(sp: Spaces, p: Progress, from: nat, to: nat)
    requires NoStrays(sp, p)
    ensures StraysAreFine(sp, p, from, to)
  {
    hide WeakCells, IsStray, FineReplacement, KindOf;
  }

  lemma FineMeansReady(sp': Spaces, r2: Roots, m: seq<Cell>, sp: Spaces, p: Progress, r: Roots, from: nat, to: nat)
    requires Collection(sp', r2, m, sp, p, r, from, to) && StraysAreFine(sp, p, from, to)
    ensures Ready(sp', r2, from, to)
  {
    hide Evacuated, Headers, Tiled, Kept, GoodWeakPointers, Good, IsRootPointer, WellRooted, RootsForwarded,
      RootTargets, Local, Collection, SettledObject,
      TargetFree, StraysAreFine;
    CollectionFacts(sp', r2, m, sp, p, r, from, to);
    GoodAgain(sp', r2, m, sp, p, r, from, to);
    GoodWeakAgain(sp', r2, m, sp, p, r, from, to);
    forall n | n in Headers(sp'.m0, sp'.lo, sp'.free)
      ensures SettledObject(sp', from, to, n)
    {
      SettledAgain(sp', r2, m, sp, p, r, from, to, n);
    }
    RootsReadyAgain(sp', r2, m, sp, p, r, from, to);
    FollowsBounds(sp', m, sp, p, from, to);
  }

  lemma FollowsBounds(sp': Spaces, m: seq<Cell>, sp: Spaces, p: Progress, from: nat, to: nat)
    requires Follows(sp', m, sp, p, from, to)
    ensures from <= sp'.lo && sp'.hi <= to
  {
  }

  /** The originals of the objects in the set. */
  ghost function Originals(p: Progress, objects: set<nat>): set<nat> {
    set h | h in p.where && p.where[h] in objects
  }

  lemma TargetMoves(sp': Spaces, r2: Roots, m: seq<Cell>, sp: Spaces, p: Progress, r: Roots, from: nat, to: nat, h: nat)
    requires Collection(sp', r2, m, sp, p, r, from, to) && Tiled(sp.m0, sp.lo, sp.free) && h in RootTargets(sp, r)
    ensures Tiled(sp'.m0, sp'.lo, sp'.free) && h in p.where && p.where[h] in RootTargets(sp', r2)
  {
    hide Evacuated, Headers, Tiled, Kept, GoodWeakPointers, Good, Follows, Settled, Collection, Forwarded,
      IsRootPointer, Roots.Distinct,
      RootsForwarded, WellRooted, TargetFree;
    CollectionFacts(sp', r2, m, sp, p, r, from, to);
    var v: Cell :| IsRootPointer(r, v) && InHeap(sp.lo, sp.hi, v) && HeaderAt(v) == h;
    RootMoves(sp', r2, m, sp, p, r, from, to, v);
    RootPointerAfter(r2, sp, p.where, r, v);
    assert IsRootTarget(sp', r2, p.where[h]);
  }

  /** After a collection everything in the heap can be reached from the roots: a second collection would keep it all. */
  lemma EverythingIsReachable(sp': Spaces, r2: Roots, m: seq<Cell>, sp: Spaces, p: Progress, r: Roots, from: nat,
                              to: nat)
    requires Collection(sp', r2, m, sp, p, r, from, to)
    ensures Tiled(sp'.m0, sp'.lo, sp'.free)
    ensures Kept(sp', RootTargets(sp', r2)) == Headers(sp'.m0, sp'.lo, sp'.free) == p.where.Values
  {
    hide Evacuated, Headers, Tiled, Kept, GoodWeakPointers, Good, Follows, Settled, Collection, RootsForwarded,
      WellRooted, TargetFree, RootTargets,
      Neighbours, Leading, Originals, SettledObject;
    CollectionFacts(sp', r2, m, sp, p, r, from, to);
    var kept := Kept(sp', RootTargets(sp', r2));
    OnlyObjectsAreKept(sp', r2);
    GoodAgain(sp', r2, m, sp, p, r, from, to);
    KeptIsLeading(sp', RootTargets(sp', r2));
    AllOriginals(sp', r2, m, sp, p, r, from, to, kept);
    forall n | n in p.where.Values
      ensures n in kept
    {
      var h := PlaceOwner(p, n);
      assert h in Originals(p, kept);
      OriginalOf(p, kept, h);
    }
  }

  lemma OnlyObjectsAreKept(sp: Spaces, r: Roots)
    requires Tiled(sp.m0, sp.lo, sp.free)
    ensures RootTargets(sp, r) <= Headers(sp.m0, sp.lo, sp.free)
    ensures Kept(sp, RootTargets(sp, r)) <= Headers(sp.m0, sp.lo, sp.free)
  {
    hide Headers, Tiled, IsRootTarget, ReachedIn;
  }

  lemma OriginalOf(p: Progress, objects: set<nat>, h: nat)
    requires h in Originals(p, objects)
    ensures h in p.where && p.where[h] in objects
  {
  }

  lemma AllOriginals(sp': Spaces, r2: Roots, m: seq<Cell>, sp: Spaces, p: Progress, r: Roots, from: nat, to: nat,
                     kept: set<nat>)
    requires Collection(sp', r2, m, sp, p, r, from, to) && Tiled(sp'.m0, sp'.lo, sp'.free) && Leading(sp', kept)
    requires RootTargets(sp', r2) <= kept
    ensures p.where.Keys <= Originals(p, kept)
  {
    hide Evacuated, Headers, Tiled, Kept, GoodWeakPointers, Good, Follows, Settled, Collection, RootsForwarded,
      WellRooted, TargetFree, RootTargets, Neighbours;
    CollectionFacts(sp', r2, m, sp, p, r, from, to);
    var originals := Originals(p, kept);
    forall h | h in RootTargets(sp, r)
      ensures h in originals
    {
      TargetMoves(sp', r2, m, sp, p, r, from, to, h);
    }
    forall h, c | h in originals && h in Headers(sp.m0, sp.lo, sp.free) && c in Neighbours(sp, h)
      ensures c in originals
    {
      OriginalLeads(sp', r2, m, sp, p, r, from, to, kept, h, c);
    }
    KeptIsLeast(sp, RootTargets(sp, r), originals);
  }

  lemma OriginalLeads(sp': Spaces, r2: Roots, m: seq<Cell>, sp: Spaces, p: Progress, r: Roots, from: nat, to: nat,
                      kept: set<nat>, h: nat, c: int)
    requires Collection(sp', r2, m, sp, p, r, from, to) && Tiled(sp'.m0, sp'.lo, sp'.free) && Leading(sp', kept)
    requires h in Originals(p, kept) && c in Neighbours(sp, h)
    ensures c in Originals(p, kept)
  {
    hide Evacuated, Headers, Tiled, Kept, GoodWeakPointers, Good, Follows, Settled, Collection, RootsForwarded,
      WellRooted, TargetFree, RootTargets, Neighbours;
    CollectionFacts(sp', r2, m, sp, p, r, from, to);
    SuccessorIsObject(sp, h, c);
    KeptIsLeading(sp, RootTargets(sp, r));
    GraphPreserved(sp', m, sp, p, r, from, to, h);
    assert p.where[c] in Neighbours(sp', p.where[h]);
  }
}
