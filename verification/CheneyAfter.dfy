/** The heap that a collection of the copying collector leaves: a row of copies that form the same graph. */
module CheneyAfter {
  import opened Cells
  import opened FreeList
  import opened Objects
  import opened HeapShape
  import opened HeapUpdate
  import opened Marking
  import opened Roots
  import opened TwoSpaces
  import opened CheneyCopying
  import opened CheneyScanning
  import opened CheneyReachability
  import opened CheneyWeak
  import opened CheneyOutcome
  import opened CheneyCollection

  /** The spaces for the next collection. */
  function After(sp: Spaces, p: Progress, m: seq<Cell>, end: nat, target: nat): Spaces {
    Spaces(sp.classOf, m, sp.target, end, TargetFree(sp, p), target, {})
  }

  lemma EvacuatedFacts(m: seq<Cell>, sp: Spaces, p: Progress)
    requires Evacuated(m, sp, p)
    ensures Good(sp) && Apart(sp) && Tiled(sp.m0, sp.lo, sp.free) && InOrder(sp, p)
    ensures p.where.Keys <= Headers(sp.m0, sp.lo, sp.free)
    ensures OldSpace(m, sp, p) && |m| == |sp.m0| && TargetFree(sp, p) <= sp.target + (sp.free - sp.lo) < |m|
  {
    hide CopyHolds, Headers, Tiled, InOrder, Copyable;
    SpaceSuffices(sp, p);
  }

  /** A copied object. */
  lemma CopyFacts(m: seq<Cell>, sp: Spaces, p: Progress, h: nat)
    requires Evacuated(m, sp, p) && h in p.where
    ensures h < |sp.m0| && Tiled(sp.m0, sp.lo, sp.free) && h in Headers(sp.m0, sp.lo, sp.free)
    ensures Next(sp.m0, h) <= |sp.m0| && Copyable(sp, h)
    ensures sp.target <= p.where[h] && p.where[h] + SizeOf(sp.m0[h]) + HEADERSIZE <= TargetFree(sp, p) < |m|
    ensures forall k | 0 <= k <= SizeOf(sp.m0[h]) :: CopyHolds(m, sp, p.where, h, k)
  {
    hide CopyHolds, Headers, Tiled, InOrder, Good, Total, Copyable;
    EvacuatedFacts(m, sp, p);
    ObjectBounds(sp, h);
    IsCopyable(sp, h);
    PlaceOf(sp, p, h);
  }

  lemma FirstCellIsPlain(sp: Spaces, h: nat)
    requires Tiled(sp.m0, sp.lo, sp.free) && Copyable(sp, h)
    ensures h < |sp.m0| && h !in ScanSlots(sp.classOf, sp.m0, h) && h !in WeakCells(sp.m0, h) && !IsLinkOf(sp, h, h)
  {
  }

  /** The header is copied. */
  lemma HeaderCopied(m: seq<Cell>, sp: Spaces, p: Progress, h: nat)
    requires Evacuated(m, sp, p) && h in p.where
    ensures h < |sp.m0| && p.where[h] < |m| && m[p.where[h]] == sp.m0[h]
  {
    hide Evacuated, Headers, Tiled, ScanSlots, WeakCells, IsLinkOf, Copyable, SizeOf;
    CopyFacts(m, sp, p, h);
    FirstCellIsPlain(sp, h);
    assert CopyHolds(m, sp, p.where, h, 0);
  }

  /** Where the first i objects end. */
  function PlaceAt(sp: Spaces, p: Progress, i: nat): nat
    requires i <= |p.order|
  {
    sp.target + Total(sp.m0, p.order[..i])
  }

  lemma PlacesAscend(m: seq<Cell>, sp: Spaces, p: Progress, i: nat)
    requires Evacuated(m, sp, p) && i < |p.order|
    ensures p.order[i] in p.where && p.where[p.order[i]] == PlaceAt(sp, p, i)
    ensures PlaceAt(sp, p, i) < |m|
    ensures PlaceAt(sp, p, i) + 2 <= Next(m, PlaceAt(sp, p, i)) == PlaceAt(sp, p, i + 1) <= TargetFree(sp, p) <= |m|
  {
    hide Evacuated, Headers, Tiled, Good, Total;
    EvacuatedFacts(m, sp, p);
    var h := p.order[i];
    assert h in Elements(p.order);
    HeaderCopied(m, sp, p, h);
    ObjectBounds(sp, h);
    PlaceOf(sp, p, h);
    assert p.order[..i + 1] == p.order[..i] + [h];
    TotalAppended(sp.m0, p.order[..i], h);
  }

  /** The places of the objects from the i-th on. */
  ghost function PlacesFrom(p: Progress, i: nat): set<nat> {
    set j | i <= j < |p.order| && p.order[j] in p.where :: p.where[p.order[j]]
  }

  lemma {:induction false} TiledFrom(m: seq<Cell>, sp: Spaces, p: Progress, i: nat)
    requires Evacuated(m, sp, p) && i <= |p.order|
    ensures Tiled(m, PlaceAt(sp, p, i), TargetFree(sp, p))
    ensures Headers(m, PlaceAt(sp, p, i), TargetFree(sp, p)) == PlacesFrom(p, i)
    decreases |p.order| - i
  {
    hide Evacuated, Total, SizeOf, InOrder;
    if i == |p.order| {
      assert p.order[..i] == p.order;
      EvacuatedFacts(m, sp, p);
      assert PlacesFrom(p, i) == {};
    } else {
      PlacesAscend(m, sp, p, i);
      TiledFrom(m, sp, p, i + 1);
      assert PlacesFrom(p, i) == {p.where[p.order[i]]} + PlacesFrom(p, i + 1);
    }
  }

  /** The copies tile the target space, without a gap. */
  lemma CopiesTile(m: seq<Cell>, sp: Spaces, p: Progress)
    requires Evacuated(m, sp, p)
    ensures Tiled(m, sp.target, TargetFree(sp, p)) && Headers(m, sp.target, TargetFree(sp, p)) == p.where.Values
  {
    hide Evacuated, Total, Headers, Tiled, Good;
    EvacuatedFacts(m, sp, p);
    TiledFrom(m, sp, p, 0);
    assert p.order[..0] == [];
    assert PlaceAt(sp, p, 0) == sp.target by {
      assert Total(sp.m0, []) == 0 by {
        NothingIsTotal(sp.m0);
      }
    }
    forall n | n in PlacesFrom(p, 0)
      ensures n in p.where.Values
    {
      var j :| 0 <= j < |p.order| && p.order[j] in p.where && p.where[p.order[j]] == n;
    }
    forall n | n in p.where.Values
      ensures n in PlacesFrom(p, 0)
    {
      var h :| h in p.where && p.where[h] == n;
      assert h in Elements(p.order);
      var j :| 0 <= j < |p.order| && p.order[j] == h;
    }
  }

  lemma NothingIsTotal(m: seq<Cell>)
    ensures Total(m, []) == 0
  {
  }

  /** The copy is of the same type and size, and has its pointers where the original has them. */
  ghost predicate SameShape(m: seq<Cell>, sp: Spaces, n: nat, h: nat) {
    && h < |sp.m0| && n < |m| && m[n] == sp.m0[h]
    && SameDistances(ScanSlots(sp.classOf, m, n), n, ScanSlots(sp.classOf, sp.m0, h), h)
    && SameDistances(WeakCells(m, n), n, WeakCells(sp.m0, h), h)
  }

  /** A cell that holds neither a pointer nor a link is copied. */
  lemma PlainCellCopied(m: seq<Cell>, sp: Spaces, p: Progress, h: nat, k: nat)
    requires Evacuated(m, sp, p) && h in p.where && h < |sp.m0| && k <= SizeOf(sp.m0[h])
    requires h + k !in ScanSlots(sp.classOf, sp.m0, h) && h + k !in WeakCells(sp.m0, h) && !IsLinkOf(sp, h, h + k)
    ensures h + k < |sp.m0| && p.where[h] + k < |m| && m[p.where[h] + k] == sp.m0[h + k]
  {
    hide Evacuated, Headers, Tiled, ScanSlots, WeakCells, IsLinkOf, Copyable, SizeOf;
    CopyFacts(m, sp, p, h);
    assert CopyHolds(m, sp, p.where, h, k);
  }

  /** A pointer that has been followed. */
  lemma PointerCopied(m: seq<Cell>, sp: Spaces, p: Progress, h: nat, s: nat)
    requires Evacuated(m, sp, p) && h in p.where && s in ScanSlots(sp.classOf, sp.m0, h)
    ensures h < |sp.m0| && h < s < Next(sp.m0, h) && s < |sp.m0| && 0 <= NewCell(p, h, s) < |m|
    ensures m[NewCell(p, h, s)] == Forwarded(sp, p.where, sp.m0[s])
  {
    hide Evacuated, Headers, Tiled, ScanSlots, WeakCells, IsLinkOf, Copyable, SizeOf, Forwarded, Fits;
    CopyFacts(m, sp, p, h);
    FitsOf(sp, h);
    ScanSlotInside(sp, h, s);
    ScannedCellsAreNoLinks(sp, h, s);
    assert CopyHolds(m, sp, p.where, h, s - h);
  }

  /** The cells that tell where an object has its pointers. */
  lemma ShapeCells(m: seq<Cell>, sp: Spaces, p: Progress, h: nat)
    requires Evacuated(m, sp, p) && h in p.where
    ensures h + 1 < |sp.m0| && p.where[h] + 1 < |m| && Fits(sp.classOf, sp.m0, h)
    ensures var n, kind := p.where[h], KindOf(sp.m0[h]);
            && m[n] == sp.m0[h]
            && (kind != GCT_MONITOR && kind != GCT_THREAD ==> m[n + 1] == sp.m0[h + 1])
            && (kind == GCT_OBJECTARRAY ==> h + 3 < |sp.m0| && n + 3 < |m| && m[n + 3] == sp.m0[h + 3])
            && (HasMonitorCell(kind) ==> h + 2 < |sp.m0| && n + 2 < |m| && m[n + 2] % 4 == sp.m0[h + 2] % 4)
  {
    hide Evacuated, Headers, Tiled, ScanSlots, WeakCells, IsLinkOf, Copyable, Forwarded, Fits, KindOf, SizeOf;
    CopyFacts(m, sp, p, h);
    HeaderCopied(m, sp, p, h);
    FitsOf(sp, h);
    var kind := KindOf(sp.m0[h]);
    FixedCells(sp, h);
    if kind != GCT_MONITOR && kind != GCT_THREAD {
      PlainCellCopied(m, sp, p, h, 1);
    }
    if kind == GCT_OBJECTARRAY {
      PlainCellCopied(m, sp, p, h, 3);
    }
    if HasMonitorCell(kind) {
      MonitorCell(sp, h);
      if h + 2 in ScanSlots(sp.classOf, sp.m0, h) {
        PointerCopied(m, sp, p, h, h + 2);
        TagKept(sp, p.where, sp.m0[h + 2]);
      } else {
        PlainCellCopied(m, sp, p, h, 2);
      }
    }
  }

  lemma TagKept(sp: Spaces, where: map<nat, nat>, v: Cell)
    ensures Forwarded(sp, where, v) % CELL == v % CELL
  {
  }

  lemma MonitorCell(sp: Spaces, h: nat)
    requires Fits(sp.classOf, sp.m0, h) && HasMonitorCell(KindOf(sp.m0[h]))
    ensures 2 <= SizeOf(sp.m0[h]) && h + 2 < |sp.m0| && h + 2 !in WeakCells(sp.m0, h) && !IsLinkOf(sp, h, h + 2)
  {
  }

  lemma FixedCells(sp: Spaces, h: nat)
    requires Fits(sp.classOf, sp.m0, h)
    ensures 1 <= SizeOf(sp.m0[h]) && (KindOf(sp.m0[h]) == GCT_OBJECTARRAY ==> 3 <= SizeOf(sp.m0[h]))
    ensures KindOf(sp.m0[h]) != GCT_MONITOR && KindOf(sp.m0[h]) != GCT_THREAD ==>
              h + 1 !in ScanSlots(sp.classOf, sp.m0, h)
    ensures h + 1 !in WeakCells(sp.m0, h) && !IsLinkOf(sp, h, h + 1)
    ensures KindOf(sp.m0[h]) == GCT_OBJECTARRAY ==>
              h + 3 !in ScanSlots(sp.classOf, sp.m0, h) && h + 3 !in WeakCells(sp.m0, h) && !IsLinkOf(sp, h, h + 3)
  {
  }

  lemma SameShapeFrom(classOf: Cell -> Class, m: seq<Cell>, m0: seq<Cell>, n: nat, h: nat)
    requires h + 1 < |m0| && n + 1 < |m| && m[n] == m0[h] && Fits(classOf, m0, h)
    requires KindOf(m0[h]) != GCT_MONITOR && KindOf(m0[h]) != GCT_THREAD ==> m[n + 1] == m0[h + 1]
    requires KindOf(m0[h]) == GCT_OBJECTARRAY ==> h + 3 < |m0| && n + 3 < |m| && m[n + 3] == m0[h + 3]
    requires HasMonitorCell(KindOf(m0[h])) ==> h + 2 < |m0| && n + 2 < |m| && m[n + 2] % 4 == m0[h + 2] % 4
    ensures SameDistances(ScanSlots(classOf, m, n), n, ScanSlots(classOf, m0, h), h)
    ensures SameDistances(WeakCells(m, n), n, WeakCells(m0, h), h)
  {
    hide KindOf, SizeOf, Fits;
    var kind := KindOf(m0[h]);
    if kind == GCT_INSTANCE {
      var offsets := InstanceOffsets(classOf(m0[h + 1]));
      assert SameDistances(SlotsAt(n + 3, offsets), n, SlotsAt(h + 3, offsets), h);
      SameDistancesJoin(MonitorSlot(m, n), SlotsAt(n + 3, offsets), n, MonitorSlot(m0, h), SlotsAt(h + 3, offsets), h);
    } else if kind == GCT_OBJECTARRAY {
      var length := m0[h + 3];
      assert SameDistances(Range(n + 4, length), n, Range(h + 4, length), h);
      SameDistancesJoin(MonitorSlot(m, n), Range(n + 4, length), n, MonitorSlot(m0, h), Range(h + 4, length), h);
    }
  }

  lemma CopyHasSameShape(m: seq<Cell>, sp: Spaces, p: Progress, h: nat)
    requires Evacuated(m, sp, p) && h in p.where
    ensures SameShape(m, sp, p.where[h], h)
  {
    hide Evacuated, Headers, Tiled, ScanSlots, WeakCells, Copyable, Fits, KindOf, SizeOf, HasMonitorCell;
    ShapeCells(m, sp, p, h);
    SameShapeFrom(sp.classOf, m, sp.m0, p.where[h], h);
  }

  /** The slots of a copy correspond to those of the original. */
  lemma SlotOfCopy(m: seq<Cell>, sp: Spaces, p: Progress, h: nat, s': nat) returns (s: nat)
    requires Evacuated(m, sp, p) && h in p.where && s' in ScanSlots(sp.classOf, m, p.where[h])
    ensures s in ScanSlots(sp.classOf, sp.m0, h) && s' == NewCell(p, h, s)
  {
    hide Evacuated, ScanSlots, WeakCells;
    CopyHasSameShape(m, sp, p, h);
    var i :| 0 <= i < |ScanSlots(sp.classOf, m, p.where[h])| && ScanSlots(sp.classOf, m, p.where[h])[i] == s';
    s := ScanSlots(sp.classOf, sp.m0, h)[i];
  }

  lemma SlotOfOriginal(m: seq<Cell>, sp: Spaces, p: Progress, h: nat, s: nat)
    requires Evacuated(m, sp, p) && h in p.where && s in ScanSlots(sp.classOf, sp.m0, h)
    ensures NewCell(p, h, s) in ScanSlots(sp.classOf, m, p.where[h])
  {
    hide Evacuated, ScanSlots, WeakCells;
    CopyHasSameShape(m, sp, p, h);
    var i :| 0 <= i < |ScanSlots(sp.classOf, sp.m0, h)| && ScanSlots(sp.classOf, sp.m0, h)[i] == s;
    assert ScanSlots(sp.classOf, m, p.where[h])[i] == NewCell(p, h, s);
  }

  /** A pointer that does not lead into the space in use does not lead into any of the spaces in [from, to). */
  ghost predicate Local(sp: Spaces, from: nat, to: nat, v: Cell) {
    InHeap(from, to, v) ==> InHeap(sp.lo, sp.hi, v)
  }

  /**
   * The pointers of an object do not lead into the other spaces. A weak pointer that leads to no object of the space in
   * use leads to no cell of any space.
   */
  ghost predicate SettledObject(sp: Spaces, from: nat, to: nat, h: nat) {
    && h < |sp.m0|
    && (forall s | s in ScanSlots(sp.classOf, sp.m0, h) && s < |sp.m0| :: Local(sp, from, to, PointerAt(sp, h, s)))
    && (forall s | s in WeakCells(sp.m0, h) && s < |sp.m0| :: SettledWeak(sp, from, to, sp.m0[s]))
  }

  ghost predicate SettledWeak(sp: Spaces, from: nat, to: nat, v: Cell) {
    || v == NULL || InHeap(sp.lo, sp.hi, v)
    || (!InHeap(from, to, v) && 1 <= v / CELL <= |sp.m0| && !(from <= v / CELL - 1 < to))
  }

  ghost predicate Settled(sp: Spaces, r: Roots, from: nat, to: nat) {
    && Good(sp) && from <= sp.lo && sp.hi <= to && from <= sp.target && sp.target + (sp.free - sp.lo) <= to
    && (forall h | h in Headers(sp.m0, sp.lo, sp.free) :: SettledObject(sp, from, to, h))
    && (forall v: Cell | IsRootPointer(r, v) :: Local(sp, from, to, v))
  }

  /** The spaces after the collection. */
  ghost predicate Follows(sp': Spaces, m: seq<Cell>, sp: Spaces, p: Progress, from: nat, to: nat) {
    && sp' == After(sp, p, m, sp'.hi, sp'.target) && from <= sp.target && TargetFree(sp, p) <= sp'.hi <= to
  }

  /** What becomes of a pointer without a tag. */
  ghost predicate PointerMoved(sp': Spaces, sp: Spaces, where: map<nat, nat>, v: Cell, v': Cell) {
    if InHeap(sp.lo, sp.hi, v)
    then HeaderAt(v) in where && InHeap(sp'.lo, sp'.hi, v') && v' % CELL == 0 && HeaderAt(v') == where[HeaderAt(v)]
    else v' == v && !InHeap(sp'.lo, sp'.hi, v')
  }

  lemma ForwardedMoves(sp': Spaces, m: seq<Cell>, sp: Spaces, p: Progress, from: nat, to: nat, v: Cell)
    requires Evacuated(m, sp, p) && Follows(sp', m, sp, p, from, to) && from <= sp.lo && sp.hi <= to
    requires Local(sp, from, to, v) && (InHeap(sp.lo, sp.hi, v) ==> v % CELL == 0 && HeaderAt(v) in p.where)
    ensures PointerMoved(sp', sp, p.where, v, Forwarded(sp, p.where, v))
  {
    hide Evacuated, Headers, Tiled, Copyable, CopyHolds, TargetFree, Forwarded, PointerMoved, InHeap, SizeOf, KindOf,
      Good, InOrder, OldSpace, Local;
    EvacuatedFacts(m, sp, p);
    if InHeap(sp.lo, sp.hi, v) {
      ObjectBounds(sp, HeaderAt(v));
      CopyFacts(m, sp, p, HeaderAt(v));
      ForwardedInto(sp', sp, p.where, v);
    } else {
      LocalStaysOut(sp, from, to, v);
      NotInPart(from, to, sp'.lo, sp'.hi, v);
      NotForwarded(sp, p.where, v);
      StaysOutside(sp', sp, p.where, v);
    }
  }

  lemma ForwardedInto(sp': Spaces, sp: Spaces, where: map<nat, nat>, v: Cell)
    requires InHeap(sp.lo, sp.hi, v) && v % CELL == 0 && HeaderAt(v) in where
    requires sp'.lo <= where[HeaderAt(v)] && where[HeaderAt(v)] + HEADERSIZE < sp'.hi
    requires where[HeaderAt(v)] + HEADERSIZE < MAX_CELLS
    ensures PointerMoved(sp', sp, where, v, Forwarded(sp, where, v))
  {
    assert Untagged(v) == v;
  }

  lemma LocalStaysOut(sp: Spaces, from: nat, to: nat, v: Cell)
    requires Local(sp, from, to, v) && !InHeap(sp.lo, sp.hi, v)
    ensures !InHeap(from, to, v)
  {
  }

  lemma NotInPart(from: nat, to: nat, lo: nat, hi: nat, v: Cell)
    requires from <= lo && hi <= to && !InHeap(from, to, v)
    ensures !InHeap(lo, hi, v)
  {
  }

  lemma StaysOutside(sp': Spaces, sp: Spaces, where: map<nat, nat>, v: Cell)
    requires !InHeap(sp.lo, sp.hi, v) && Forwarded(sp, where, v) == v && !InHeap(sp'.lo, sp'.hi, v)
    ensures PointerMoved(sp', sp, where, v, Forwarded(sp, where, v))
  {
    hide Forwarded;
  }

  /** Everything that a copied object points to has been copied. */
  lemma SuccessorCopied(m: seq<Cell>, sp: Spaces, p: Progress, roots: set<nat>, h: nat, s: nat)
    requires Evacuated(m, sp, p) && Tiled(sp.m0, sp.lo, sp.free) && p.where.Keys == Kept(sp, roots)
    requires roots <= Headers(sp.m0, sp.lo, sp.free)
    requires h in p.where && s in ScanSlots(sp.classOf, sp.m0, h) && s < |sp.m0|
    requires InHeap(sp.lo, sp.hi, PointerAt(sp, h, s))
    ensures PointerAt(sp, h, s) % CELL == 0 && HeaderAt(PointerAt(sp, h, s)) in p.where
  {
    hide Evacuated, Headers, Tiled, ScanSlots, CopyHolds, Kept, Good, InOrder;
    EvacuatedFacts(m, sp, p);
    KeptIsLeading(sp, roots);
    assert HeaderAt(PointerAt(sp, h, s)) in Neighbours(sp, h);
    SuccessorAligned(sp, h, s);
  }

  lemma ForwardedPointer(sp: Spaces, where: map<nat, nat>, h: nat, s: nat, m: seq<Cell>, n: nat, s': nat)
    requires h < |sp.m0| && s < |sp.m0| && s' < |m| && n < |m| && s' - n == s - h && m[n] == sp.m0[h]
    requires m[s'] == Forwarded(sp, where, sp.m0[s])
    ensures (if IsMonitorSlot(m, n, s') then Untagged(m[s']) else m[s']) == Forwarded(sp, where, PointerAt(sp, h, s))
  {
    hide KindOf, HasMonitorCell, Forwarded;
    var v := sp.m0[s];
    CheneyRoots.CheneyTag(sp, where, v);
  }

  /** A pointer of a copy leads to the copy of what the pointer of the original leads to. */
  lemma SlotMoves(sp': Spaces, m: seq<Cell>, sp: Spaces, p: Progress, r: Roots, from: nat, to: nat, h: nat, s: nat)
    requires Evacuated(m, sp, p) && Follows(sp', m, sp, p, from, to) && Settled(sp, r, from, to)
    requires Tiled(sp.m0, sp.lo, sp.free)
    requires p.where.Keys == Kept(sp, RootTargets(sp, r)) && h in p.where && s in ScanSlots(sp.classOf, sp.m0, h)
    ensures h < |sp.m0| && s < |sp.m0| && 0 <= NewCell(p, h, s) < |sp'.m0|
    ensures PointerMoved(sp', sp, p.where, PointerAt(sp, h, s), PointerAt(sp', p.where[h], NewCell(p, h, s)))
  {
    hide Evacuated, Headers, Tiled, ScanSlots, CopyHolds, Kept, Good, InOrder, Forwarded, IsMonitorSlot, PointerMoved,
      IsRootPointer, WeakCells, KindOf, SizeOf;
    PointerCopied(m, sp, p, h, s);
    HeaderCopied(m, sp, p, h);
    CopyFacts(m, sp, p, h);
    var v := PointerAt(sp, h, s);
    assert SettledObject(sp, from, to, h);
    if InHeap(sp.lo, sp.hi, v) {
      SuccessorCopied(m, sp, p, RootTargets(sp, r), h, s);
    }
    ForwardedMoves(sp', m, sp, p, from, to, v);
    ForwardedPointer(sp, p.where, h, s, m, p.where[h], NewCell(p, h, s));
  }

  /** The copies form the same graph as the originals. */
  lemma GraphPreserved(sp': Spaces, m: seq<Cell>, sp: Spaces, p: Progress, r: Roots, from: nat, to: nat, h: nat)
    requires Evacuated(m, sp, p) && Follows(sp', m, sp, p, from, to) && Settled(sp, r, from, to)
    requires Tiled(sp.m0, sp.lo, sp.free)
    requires p.where.Keys == Kept(sp, RootTargets(sp, r)) && h in p.where
    ensures forall d: int ::
              d in Neighbours(sp', p.where[h])
              <==> exists c: nat :: c in Neighbours(sp, h) && c in p.where && d == p.where[c]
  {
    hide Evacuated, Headers, Tiled, ScanSlots, CopyHolds, Kept, Good, Follows, Settled, RootTargets, IsMonitorSlot;
    var n := p.where[h];
    assert sp'.m0 == m && sp'.classOf == sp.classOf by {
      FollowsIn(sp', m, sp, p, from, to);
    }
    forall d: int | d in Neighbours(sp', n)
      ensures exists c: nat :: c in Neighbours(sp, h) && c in p.where && d == p.where[c]
    {
      var s' :| s' in ScanSlots(sp'.classOf, sp'.m0, n) && s' < |sp'.m0|
        && InHeap(sp'.lo, sp'.hi, PointerAt(sp', n, s')) && d == HeaderAt(PointerAt(sp', n, s'));
      var s := SlotOfCopy(m, sp, p, h, s');
      SlotMoves(sp', m, sp, p, r, from, to, h, s);
      assert HeaderAt(PointerAt(sp, h, s)) in Neighbours(sp, h);
    }
    forall d: int | exists c: nat :: c in Neighbours(sp, h) && c in p.where && d == p.where[c]
      ensures d in Neighbours(sp', n)
    {
      var c: nat :| c in Neighbours(sp, h) && c in p.where && d == p.where[c];
      var s :| s in ScanSlots(sp.classOf, sp.m0, h) && s < |sp.m0| && InHeap(sp.lo, sp.hi, PointerAt(sp, h, s))
        && c == HeaderAt(PointerAt(sp, h, s));
      SlotMoves(sp', m, sp, p, r, from, to, h, s);
      SlotOfOriginal(m, sp, p, h, s);
    }
  }

  lemma FollowsIn(sp': Spaces, m: seq<Cell>, sp: Spaces, p: Progress, from: nat, to: nat)
    requires Follows(sp', m, sp, p, from, to)
    ensures sp'.m0 == m && sp'.classOf == sp.classOf && sp'.lo == sp.target && sp'.free == TargetFree(sp, p)
  {
  }
}
