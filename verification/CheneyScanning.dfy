/**
 * copyNonRootObjects (collectorDebug.c): the copies are scanned in order, and what they point to is copied behind them.
 */
module CheneyScanning {
  import opened Cells
  import opened FreeList
  import opened Objects
  import opened HeapShape
  import opened HeapUpdate
  import opened Marking
  import opened TwoSpaces
  import opened CheneyCopying

  /** p' differs from p at most in what is known of the cell s. */
  ghost predicate SameBut(p': Progress, p: Progress, s: nat) {
    && p'.where == p.where && p'.order == p.order
    && (forall x: nat | x != s :: (x in p'.done <==> x in p.done) && (x in p'.other <==> x in p.other))
    && (forall x: nat | x != s && x in p.other :: x in p'.other && p'.other[x] == p.other[x])
  }

  /** Where the copy of the cell s of the object at h is. */
  function NewCell(p: Progress, h: nat, s: nat): int
    requires h in p.where
  {
    p.where[h] + (s - h)
  }

  lemma OtherCell(m2: seq<Cell>, m1: seq<Cell>, sp: Spaces, p': Progress, p: Progress, h: nat, s: nat, g: nat, k: nat)
    requires Copied(m1, sp, p) && SameBut(p', p, s) && h in p.where && h < |sp.m0| && h < s < Next(sp.m0, h)
    requires s < |sp.m0|
    requires 0 <= NewCell(p, h, s) < |m1| && m2 == m1[NewCell(p, h, s) := CopyOf(sp, p', s)]
    requires g in p.where && g < |sp.m0| && k <= SizeOf(sp.m0[g])
    ensures CellCopied(m2, sp, p', g, k)
  {
    hide Copied, Good, Headers, OldSpace, InOrder, TargetFree, IsInside, HasCopy, Forwarded;
    CopiedFacts(m1, sp, p);
    assert CellCopied(m1, sp, p, g, k);
    if g != h {
      PlacesApart(sp, p, g, h);
      ObjectsApart(sp, g, h);
    }
  }

  lemma ObjectsApart(sp: Spaces, g: nat, h: nat)
    requires Good(sp) && g in Headers(sp.m0, sp.lo, sp.free) && h in Headers(sp.m0, sp.lo, sp.free) && g != h
    ensures g < |sp.m0| && h < |sp.m0| && (Next(sp.m0, g) <= h || Next(sp.m0, h) <= g)
  {
    hide Copyable, Apart;
    HeaderBounds(sp.m0, sp.lo, sp.free, g);
    HeaderBounds(sp.m0, sp.lo, sp.free, h);
    if g < h {
      HeadersApart(sp.m0, sp.lo, sp.free, g, h);
    } else {
      HeadersApart(sp.m0, sp.lo, sp.free, h, g);
    }
  }

  lemma OldSpaceKept(m2: seq<Cell>, m1: seq<Cell>, sp: Spaces, p': Progress, p: Progress, n: nat)
    requires Good(sp) && InOrder(sp, p) && p.where.Keys <= Headers(sp.m0, sp.lo, sp.free)
    requires OldSpace(m1, sp, p) && p'.where == p.where && p'.order == p.order
    requires sp.target <= n < TargetFree(sp, p) && |m2| == |m1| && forall k {:trigger m2[k]} | 0 <= k < |m1|
             && k != n :: m2[k] == m1[k]
    ensures OldSpace(m2, sp, p')
  {
    hide Good, Headers, InOrder, Total;
    SpaceSuffices(sp, p);
    GoodIsApart(sp);
    forall h | h in p.where
      ensures h < |m2| && m2[h] == m1[h]
    {
      ObjectBounds(sp, h);
    }
  }

  lemma GoodIsApart(sp: Spaces)
    requires Good(sp)
    ensures Apart(sp) && Tiled(sp.m0, sp.lo, sp.free)
  {
    hide Copyable;
  }

  /** One cell of a copy is given its new value. */
  lemma CellGiven(m2: seq<Cell>, m1: seq<Cell>, sp: Spaces, p': Progress, p: Progress, h: nat, s: nat)
    requires Copied(m1, sp, p) && SameBut(p', p, s) && h in p.where && h < |sp.m0| && h < s < Next(sp.m0, h)
    requires s < |sp.m0|
    requires 0 <= NewCell(p, h, s) < |m1| && m2 == m1[NewCell(p, h, s) := CopyOf(sp, p', s)]
    requires s in p'.done ==> HasCopy(sp, p.where, sp.m0[s])
    ensures Copied(m2, sp, p')
  {
    hide Good, Headers, OldSpace, InOrder, TargetFree, HasCopy, CellCopied, CopyOf, Forwarded;
    CopiedFacts(m1, sp, p);
    PlaceOf(sp, p, h);
    OldSpaceKept(m2, m1, sp, p', p, NewCell(p, h, s));
    SameOrder(sp, p', p);
    forall g, k | g in p'.where && g < |sp.m0| && 0 <= k <= SizeOf(sp.m0[g])
      ensures CellCopied(m2, sp, p', g, k)
    {
      OtherCell(m2, m1, sp, p', p, h, s, g, k);
    }
    forall x | x in p'.done
      ensures x < |sp.m0| && HasCopy(sp, p'.where, sp.m0[x])
    {
      assert x != s ==> x in p.done;
    }
    forall x | x in p'.done + p'.other.Keys
      ensures IsInside(sp, p'.where, x)
    {
      assert x != s ==> x in p.done + p.other.Keys;
    }
  }

  lemma SameOrder(sp: Spaces, p': Progress, p: Progress)
    requires InOrder(sp, p) && p'.where == p.where && p'.order == p.order
    ensures InOrder(sp, p')
  {
  }

  /** The pointer in the cell s of the object at h, without a tag. */
  function PointerAt(sp: Spaces, h: nat, s: nat): Cell
    requires s < |sp.m0|
  {
    if IsMonitorSlot(sp.m0, h, s) then Untagged(sp.m0[s]) else sp.m0[s]
  }

  /** What the objects of the set point to belongs to the set. */
  ghost predicate IsClosed(sp: Spaces) {
    && Good(sp)
    && forall h, s | h in sp.reachable && h in Headers(sp.m0, sp.lo, sp.free) && s in ScanSlots(sp.classOf, sp.m0, h)
       && s < |sp.m0| ::
         HasCopy(sp, map x | x in sp.reachable :: 0, PointerAt(sp, h, s))
  }

  lemma SlotFacts(m: seq<Cell>, sp: Spaces, p: Progress, h: nat, s: nat)
    requires Copied(m, sp, p) && IsClosed(sp) && h in p.where && s in ScanSlots(sp.classOf, sp.m0, h)
    ensures h < |sp.m0| && h < s < Next(sp.m0, h) <= |sp.m0| && Tiled(sp.m0, sp.lo, sp.free)
    ensures PointsToObject(sp, PointerAt(sp, h, s))
    ensures InHeap(sp.lo, sp.hi, PointerAt(sp, h, s)) ==> HeaderAt(PointerAt(sp, h, s)) in sp.reachable
    ensures 0 <= NewCell(p, h, s) < |m| && m[NewCell(p, h, s)] == CopyOf(sp, p, s)
  {
    hide Copied, OldSpace, InOrder, TargetFree, IsInside, CopyOf, ScanSlots, Fits, NoDuplicates, IsMonitorSlot, Apart,
      Next, SizeOf, Headers, Tiled;
    CopiedFacts(m, sp, p);
    ObjectBounds(sp, h);
    assert Copyable(sp, h);
    HeapAligned(sp.lo, sp.hi, PointerAt(sp, h, s));
    SlotCopied(m, sp, p, h, s);
  }

  lemma SlotCopied(m: seq<Cell>, sp: Spaces, p: Progress, h: nat, s: nat)
    requires NewSpace(m, sp, p) && h in p.where && h < |sp.m0| && h < s < Next(sp.m0, h)
    ensures s < |sp.m0| && 0 <= NewCell(p, h, s) < |m| && m[NewCell(p, h, s)] == CopyOf(sp, p, s)
  {
    hide CopyOf;
    assert CellCopied(m, sp, p, h, s - h);
  }

  /** The forwarded pointer keeps the tag. */
  lemma ForwardedTag(sp: Spaces, where: map<nat, nat>, v: Cell)
    ensures Forwarded(sp, where, Untagged(v)) % CELL == 0
    ensures Forwarded(sp, where, Untagged(v)) + v % CELL == Forwarded(sp, where, v)
    ensures HasCopy(sp, where, Untagged(v)) == HasCopy(sp, where, v)
  {
    var u := Untagged(v);
    assert u % CELL == 0 && Untagged(u) == u;
  }

  /** The cell has been followed. */
  function FollowedCell(p: Progress, s: nat): Progress {
    p.(done := p.done + {s})
  }

  lemma SlotFollowed(m2: seq<Cell>, m1: seq<Cell>, sp: Spaces, p: Progress, h: nat, s: nat, x: Cell)
    requires Copied(m1, sp, p) && IsClosed(sp) && h in p.where && s in ScanSlots(sp.classOf, sp.m0, h) && s < |sp.m0|
    requires s !in p.other
    requires HasCopy(sp, p.where, sp.m0[s]) && x == Forwarded(sp, p.where, sp.m0[s])
    requires 0 <= NewCell(p, h, s) < |m1| && m2 == m1[NewCell(p, h, s) := x]
    ensures Copied(m2, sp, FollowedCell(p, s))
  {
    hide Copied, HasCopy, Forwarded, ScanSlots, IsClosed, PointsToObject;
    SlotFacts(m1, sp, p, h, s);
    CellGiven(m2, m1, sp, FollowedCell(p, s), p, h, s);
  }

  /** The progress that following one more cell makes. */
  ghost predicate Advanced(p': Progress, p: Progress, s: nat) {
    && p'.done == p.done + {s} && p'.other == p.other && p.order <= p'.order
    && forall h | h in p.where :: h in p'.where && p'.where[h] == p.where[h]
  }

  /** updatePointer or updateMonitor on one cell of a copy. */
  method UpdateSlot(copier: Copier, n: nat, isMonitor: bool, ghost h: nat, ghost s: nat)
    requires copier.Valid() && IsClosed(copier.spaces) && h in copier.progress.where
    requires s in ScanSlots(copier.spaces.classOf, copier.spaces.m0, h)
    requires n == NewCell(copier.progress, h, s) && s !in copier.progress.done && s !in copier.progress.other
    requires isMonitor == IsMonitorSlot(copier.spaces.m0, h, s)
    modifies copier, copier.mem
    ensures copier.Valid() && Advanced(copier.progress, old(copier.progress), s)
  {
    hide Copied, HasCopy, Forwarded, ScanSlots, IsClosed, IsMonitorSlot;
    ghost var sp, p := copier.spaces, copier.progress;
    SlotFacts(copier.mem[..], sp, p, h, s);
    var value := copier.mem[n];
    ForwardedTag(sp, p.where, value);
    var tag := if isMonitor then value % CELL else 0;
    var result := copier.UpdatePointer(value - tag);
    ghost var m1, p1 := copier.mem[..], copier.progress;
    ForwardedTag(sp, p1.where, value);
    SlotFacts(m1, sp, p1, h, s);
    copier.mem[n] := result + tag;
    SlotFollowed(copier.mem[..], m1, sp, p1, h, s, result + tag);
    copier.progress := FollowedCell(p1, s);
  }

  /** The copy at n is still the same as the original at h. */
  ghost predicate IsExact(m: seq<Cell>, m0: seq<Cell>, n: nat, h: nat) {
    && h < |m0| && h + SizeOf(m0[h]) < |m0| && n + SizeOf(m0[h]) < |m|
    && m[n..n + SizeOf(m0[h]) + 1] == m0[h..h + SizeOf(m0[h]) + 1]
  }

  /** Two sequences of cells have the same distances from n and h. */
  ghost predicate SameDistances(a: seq<nat>, n: nat, b: seq<nat>, h: nat) {
    |a| == |b| && forall i | 0 <= i < |a| :: a[i] - n == b[i] - h
  }

  lemma SameDistancesJoin(a: seq<nat>, a': seq<nat>, n: nat, b: seq<nat>, b': seq<nat>, h: nat)
    requires SameDistances(a, n, b, h) && SameDistances(a', n, b', h)
    ensures SameDistances(a + a', n, b + b', h)
  {
  }

  lemma FirstCells(classOf: Cell -> Class, m: seq<Cell>, m0: seq<Cell>, n: nat, h: nat)
    requires IsExact(m, m0, n, h) && Fits(classOf, m0, h)
    ensures n + 1 < |m| && h + 1 < |m0| && m[n] == m0[h] && m[n + 1] == m0[h + 1]
    ensures 2 <= SizeOf(m0[h]) ==> n + 2 < |m| && h + 2 < |m0| && m[n + 2] == m0[h + 2]
    ensures 3 <= SizeOf(m0[h]) ==> n + 3 < |m| && h + 3 < |m0| && m[n + 3] == m0[h + 3]
    ensures HasMonitorCell(KindOf(m0[h])) ==> 2 <= SizeOf(m0[h])
    ensures KindOf(m0[h]) == GCT_OBJECTARRAY ==> 3 <= SizeOf(m0[h])
  {
    hide KindOf;
    ExactAt(m, m0, n, h, 0);
    ExactAt(m, m0, n, h, 1);
    if 2 <= SizeOf(m0[h]) {
      ExactAt(m, m0, n, h, 2);
    }
    if 3 <= SizeOf(m0[h]) {
      ExactAt(m, m0, n, h, 3);
    }
  }

  lemma ExactAt(m: seq<Cell>, m0: seq<Cell>, n: nat, h: nat, k: nat)
    requires IsExact(m, m0, n, h) && k <= SizeOf(m0[h])
    ensures n + k < |m| && h + k < |m0| && m[n + k] == m0[h + k]
  {
    assert m[n + k] == m[n..n + SizeOf(m0[h]) + 1][k] && m0[h + k] == m0[h..h + SizeOf(m0[h]) + 1][k];
  }

  lemma ShiftedPointers(classOf: Cell -> Class, m: seq<Cell>, m0: seq<Cell>, n: nat, h: nat)
    requires IsExact(m, m0, n, h) && Fits(classOf, m0, h)
    ensures SameDistances(PointerSlots(classOf, m, n), n, PointerSlots(classOf, m0, h), h)
    ensures HasMonitorCell(KindOf(m0[h])) ==> SameDistances(MonitorSlot(m, n), n, MonitorSlot(m0, h), h)
  {
    hide KindOf, SizeOf, Fits, IsExact, InstanceOffsets;
    FirstCells(classOf, m, m0, n, h);
    assert HasMonitorCell(KindOf(m0[h])) ==> SameDistances(MonitorSlot(m, n), n, MonitorSlot(m0, h), h);
    if KindOf(m0[h]) == GCT_INSTANCE || KindOf(m0[h]) == GCT_WEAKREFERENCE {
      hide HasMonitorCell, MonitorSlot;
      var offsets := InstanceOffsets(classOf(m0[h + 1]));
      assert SameDistances(SlotsAt(n + 3, offsets), n, SlotsAt(h + 3, offsets), h);
      SameDistancesJoin(MonitorSlot(m, n), SlotsAt(n + 3, offsets), n, MonitorSlot(m0, h), SlotsAt(h + 3, offsets), h);
    } else if KindOf(m0[h]) == GCT_OBJECTARRAY {
      var length := m0[h + 3];
      assert SameDistances(Range(n + 4, length), n, Range(h + 4, length), h);
      SameDistancesJoin(MonitorSlot(m, n), Range(n + 4, length), n, MonitorSlot(m0, h), Range(h + 4, length), h);
    }
  }

  /** A copy has its pointers where the original has them. */
  lemma ShiftedSlots(classOf: Cell -> Class, m: seq<Cell>, m0: seq<Cell>, n: nat, h: nat)
    requires IsExact(m, m0, n, h) && Fits(classOf, m0, h)
    ensures SameDistances(ScanSlots(classOf, m, n), n, ScanSlots(classOf, m0, h), h)
    ensures n < |m| && m[n] == m0[h]
  {
    hide KindOf, SizeOf, Fits, IsExact, PointerSlots, MonitorSlot;
    FirstCells(classOf, m, m0, n, h);
    ShiftedPointers(classOf, m, m0, n, h);
  }

  /** The first `count` cells of the object at h that are to be followed. */
  ghost function FirstSlots(sp: Spaces, h: nat, count: nat): set<nat> {
    set i | 0 <= i < count && i < |ScanSlots(sp.classOf, sp.m0, h)| :: ScanSlots(sp.classOf, sp.m0, h)[i]
  }

  /** More has been copied, the first cells of the object at h have been followed, and nothing else has happened. */
  ghost predicate ScannedPart(p': Progress, p: Progress, sp: Spaces, h: nat, count: nat) {
    && p'.done == p.done + FirstSlots(sp, h, count) && p'.other == p.other && p.order <= p'.order
    && forall g | g in p.where :: g in p'.where && p'.where[g] == p.where[g]
  }

  lemma OneMoreSlot(p2: Progress, p1: Progress, p: Progress, sp: Spaces, h: nat, count: nat)
    requires ScannedPart(p1, p, sp, h, count) && count < |ScanSlots(sp.classOf, sp.m0, h)|
    requires Advanced(p2, p1, ScanSlots(sp.classOf, sp.m0, h)[count])
    ensures ScannedPart(p2, p, sp, h, count + 1)
  {
    hide ScanSlots;
    var s := ScanSlots(sp.classOf, sp.m0, h)[count];
    assert FirstSlots(sp, h, count + 1) == FirstSlots(sp, h, count) + {s};
  }

  /** The next cell has not been followed yet. */
  lemma NextSlotFresh(p1: Progress, p: Progress, sp: Spaces, h: nat, count: nat)
    requires ScannedPart(p1, p, sp, h, count) && count < |ScanSlots(sp.classOf, sp.m0, h)|
    requires NoDuplicates(ScanSlots(sp.classOf, sp.m0, h))
    requires forall s | s in ScanSlots(sp.classOf, sp.m0, h) :: s !in p.done && s !in p.other
    ensures ScanSlots(sp.classOf, sp.m0, h)[count] !in p1.done && ScanSlots(sp.classOf, sp.m0, h)[count] !in p1.other
  {
    hide ScanSlots;
  }

  /** Follows the pointers of one copy. */
  method UpdateSlots(copier: Copier, slots: seq<nat>, monitorSlot: int, ghost h: nat)
    requires copier.Valid() && IsClosed(copier.spaces) && h in copier.progress.where
    requires |slots| == |ScanSlots(copier.spaces.classOf, copier.spaces.m0, h)|
    requires NoDuplicates(ScanSlots(copier.spaces.classOf, copier.spaces.m0, h))
    requires forall i | 0 <= i < |slots| ::
               slots[i] == NewCell(copier.progress, h, ScanSlots(copier.spaces.classOf, copier.spaces.m0, h)[i])
    requires forall s | s in ScanSlots(copier.spaces.classOf, copier.spaces.m0, h) ::
               s !in copier.progress.done && s !in copier.progress.other
    requires forall i | 0 <= i < |slots| ::
               (slots[i] == monitorSlot
                <==> IsMonitorSlot(copier.spaces.m0, h, ScanSlots(copier.spaces.classOf, copier.spaces.m0, h)[i]))
    modifies copier, copier.mem
    ensures copier.Valid() && ScannedPart(copier.progress, old(copier.progress), copier.spaces, h, |slots|)
  {
    hide Copied, ScanSlots, IsClosed, TargetFree, IsMonitorSlot, FirstSlots, NoDuplicates;
    ghost var sp, p := copier.spaces, copier.progress;
    NothingScanned(p, sp, h);
    var i := 0;
    while i < |slots|
      invariant 0 <= i <= |slots| && copier.Valid() && ScannedPart(copier.progress, p, sp, h, i)
    {
      ghost var s, p1 := ScanSlots(sp.classOf, sp.m0, h)[i], copier.progress;
      NextSlotFresh(p1, p, sp, h, i);
      UpdateSlot(copier, slots[i], slots[i] == monitorSlot, h, s);
      OneMoreSlot(copier.progress, p1, p, sp, h, i);
      i := i + 1;
    }
  }

  lemma NothingScanned(p: Progress, sp: Spaces, h: nat)
    ensures ScannedPart(p, p, sp, h, 0)
  {
    assert FirstSlots(sp, h, 0) == {};
  }

  /** A list of weak objects: `head` leads to the copy of the first one, and each links to the next. */
  ghost predicate IsList(sp: Spaces, p: Progress, head: Cell, list: seq<nat>)
    decreases |list|
  {
    if list == [] then head == NULL
    else
      var h := list[0];
      && h < |sp.m0| && h in p.where && IsWeak(KindOf(sp.m0[h])) && ReservedCell(KindOf(sp.m0[h]), h) in p.other
      && head == CELL * (p.where[h] + HEADERSIZE)
      && IsList(sp, p, p.other[ReservedCell(KindOf(sp.m0[h]), h)], list[1..])
  }

  lemma {:induction false} ListKept(sp: Spaces, p': Progress, p: Progress, head: Cell, list: seq<nat>)
    requires IsList(sp, p, head, list)
    requires forall h | h in list && h in p.where :: h in p'.where && p'.where[h] == p.where[h]
    requires forall h | h in list && h < |sp.m0| && ReservedCell(KindOf(sp.m0[h]), h) in p.other ::
               ReservedCell(KindOf(sp.m0[h]), h) in p'.other
                 && p'.other[ReservedCell(KindOf(sp.m0[h]), h)] == p.other[ReservedCell(KindOf(sp.m0[h]), h)]
    ensures IsList(sp, p', head, list)
    decreases |list|
  {
    if list != [] {
      assert list[0] in list;
      ListKept(sp, p', p, p.other[ReservedCell(KindOf(sp.m0[list[0]]), list[0])], list[1..]);
    }
  }

  /** The list has each weak object of the kind among the first n copied ones once. */
  ghost predicate ListsAll(sp: Spaces, p: Progress, n: nat, kind: nat, list: seq<nat>) {
    && n <= |p.order| && NoDuplicates(list)
    && forall h: nat :: h in list <==> h in p.order[..n] && h < |sp.m0| && KindOf(sp.m0[h]) == kind
  }

  /** The first n copies have been scanned: all their pointers have been followed, and nothing else has been touched. */
  ghost predicate Scanned(sp: Spaces, p: Progress, n: nat) {
    && n <= |p.order|
    && (forall i, s | 0 <= i < n && s in ScanSlots(sp.classOf, sp.m0, p.order[i]) :: s in p.done)
    && (forall s | s in p.done + p.other.Keys :: IsOfScanned(sp, p, n, s))
    && (forall s | s in p.other :: IsLinkOfScanned(sp, p, n, s))
  }

  /** The cell links one of the first n copies into its list. */
  ghost predicate IsLinkOfScanned(sp: Spaces, p: Progress, n: nat, s: int) {
    exists i | 0 <= i < n && i < |p.order| :: IsLinkOf(sp, p.order[i], s)
  }

  ghost predicate IsLinkOf(sp: Spaces, h: nat, s: int) {
    h < |sp.m0| && IsWeak(KindOf(sp.m0[h])) && s == ReservedCell(KindOf(sp.m0[h]), h)
  }

  ghost predicate IsOfScanned(sp: Spaces, p: Progress, n: nat, s: int) {
    exists i | 0 <= i < n && i < |p.order| ::
      p.order[i] < |sp.m0| && p.order[i] < s < Next(sp.m0, p.order[i]) && IsTouched(sp, p.order[i], s)
  }

  /** The cell is one that scanning the object at h changes. */
  ghost predicate IsTouched(sp: Spaces, h: nat, s: int) {
    h < |sp.m0|
      && (s in ScanSlots(sp.classOf, sp.m0, h) || (IsWeak(KindOf(sp.m0[h])) && s == ReservedCell(KindOf(sp.m0[h]), h)))
  }

  /** Nothing of the object has been followed or changed. */
  ghost predicate IsFresh(sp: Spaces, p: Progress, h: nat) {
    h < |sp.m0| && forall s | h <= s < Next(sp.m0, h) :: s !in p.done && s !in p.other
  }

  lemma NextIsFresh(sp: Spaces, p: Progress, n: nat)
    requires Good(sp) && InOrder(sp, p) && p.where.Keys <= Headers(sp.m0, sp.lo, sp.free) && Scanned(sp, p, n)
    requires n < |p.order|
    ensures p.order[n] in p.where && IsFresh(sp, p, p.order[n])
  {
    hide Good, Headers, Tiled, ScanSlots, IsOfScanned, IsTouched, Total;
    var h := p.order[n];
    assert h in Elements(p.order);
    ObjectBounds(sp, h);
    forall s | h <= s < Next(sp.m0, h)
      ensures s !in p.done && s !in p.other
    {
      NotOfScanned(sp, p, n, h, s - h);
      assert s in p.done + p.other.Keys ==> IsOfScanned(sp, p, n, s);
    }
  }

  lemma FreshIsExact(m: seq<Cell>, sp: Spaces, p: Progress, h: nat)
    requires NewSpace(m, sp, p) && h in p.where && IsFresh(sp, p, h) && h + SizeOf(sp.m0[h]) < |sp.m0|
    ensures IsExact(m, sp.m0, p.where[h], h)
  {
    var n, size := p.where[h], SizeOf(sp.m0[h]);
    assert CellCopied(m, sp, p, h, size);
    forall x | n <= x <= n + size
      ensures m[x] == sp.m0[x - n + h]
    {
      assert CellCopied(m, sp, p, h, x - n);
      assert h + (x - n) !in p.done && h + (x - n) !in p.other;
    }
    SameCells(m, sp.m0, n, h);
  }

  lemma SameCells(m: seq<Cell>, m0: seq<Cell>, n: nat, h: nat)
    requires h < |m0| && h + SizeOf(m0[h]) < |m0| && n + SizeOf(m0[h]) < |m|
    requires forall x {:trigger m[x]} | n <= x <= n + SizeOf(m0[h]) :: m[x] == m0[x - n + h]
    ensures IsExact(m, m0, n, h)
  {
  }

  /** Copying has not touched the copies behind the first n. */
  lemma NotScannedYet(m: seq<Cell>, sp: Spaces, p: Progress, n: nat)
    requires Copied(m, sp, p) && Scanned(sp, p, n) && n < |p.order|
    ensures var h := p.order[n];
            && h in p.where && h < |sp.m0| && Next(sp.m0, h) <= |sp.m0| && h in Headers(sp.m0, sp.lo, sp.free)
               && Copyable(sp, h)
            && IsExact(m, sp.m0, p.where[h], h) && IsFresh(sp, p, h)
  {
    hide Copied, OldSpace, NewSpace, TargetFree, HasCopy, Forwarded, Good, Headers, Tiled, Copyable, InOrder, Scanned,
      IsExact;
    CopiedFacts(m, sp, p);
    NextIsFresh(sp, p, n);
    var h := p.order[n];
    ObjectBounds(sp, h);
    IsCopyable(sp, h);
    FreshIsExact(m, sp, p, h);
  }

  lemma IsCopyable(sp: Spaces, h: nat)
    requires Good(sp) && h in Headers(sp.m0, sp.lo, sp.free)
    ensures Copyable(sp, h)
  {
  }

  lemma NotOfScanned(sp: Spaces, p: Progress, n: nat, h: nat, k: nat)
    requires Good(sp) && InOrder(sp, p) && p.where.Keys <= Headers(sp.m0, sp.lo, sp.free) && n < |p.order|
    requires h == p.order[n]
    requires h < |sp.m0| && k <= SizeOf(sp.m0[h])
    ensures !IsOfScanned(sp, p, n, h + k)
  {
    hide Good, Headers, Tiled;
    forall i | 0 <= i < n && p.order[i] < |sp.m0|
      ensures !(p.order[i] < h + k < Next(sp.m0, p.order[i]))
    {
      assert p.order[i] in Elements(p.order) && h in Elements(p.order);
      ObjectsApart(sp, p.order[i], h);
    }
  }

  /** All pointers of the next copy have been followed. */
  lemma ScannedOneMore(sp: Spaces, p1: Progress, p: Progress, n: nat)
    requires Scanned(sp, p, n) && n < |p.order|
    requires ScannedPart(p1, p, sp, p.order[n], |ScanSlots(sp.classOf, sp.m0, p.order[n])|)
    requires p.order[n] < |sp.m0| && forall s | s in ScanSlots(sp.classOf, sp.m0, p.order[n]) ::
               p.order[n] < s < Next(sp.m0, p.order[n])
    ensures n < |p1.order| && p1.order[n] == p.order[n] && p1.order[..n] == p.order[..n] && Scanned(sp, p1, n + 1)
  {
    hide ScanSlots, KindOf;
    var h := p.order[n];
    assert p1.order[..|p.order|] == p.order;
    forall i, s | 0 <= i < n + 1 && s in ScanSlots(sp.classOf, sp.m0, p1.order[i])
      ensures s in p1.done
    {
      assert p1.order[i] == p.order[i];
      if i == n {
        var j :| 0 <= j < |ScanSlots(sp.classOf, sp.m0, h)| && ScanSlots(sp.classOf, sp.m0, h)[j] == s;
        assert s in FirstSlots(sp, h, |ScanSlots(sp.classOf, sp.m0, h)|);
      }
    }
    forall s | s in p1.done + p1.other.Keys
      ensures IsOfScanned(sp, p1, n + 1, s)
    {
      if s in p.done + p.other.Keys {
        assert IsOfScanned(sp, p, n, s);
        var i :| 0 <= i < n && i < |p.order| && p.order[i] < |sp.m0| && p.order[i] < s < Next(sp.m0, p.order[i])
          && IsTouched(sp, p.order[i], s);
        assert p1.order[i] == p.order[i];
      } else {
        assert s in ScanSlots(sp.classOf, sp.m0, h);
        assert p1.order[n] == h;
      }
    }
    forall s | s in p1.other
      ensures IsLinkOfScanned(sp, p1, n + 1, s)
    {
      LinkStillScanned(sp, p1, p, n, n + 1, s);
    }
  }

  lemma LinkStillScanned(sp: Spaces, p1: Progress, p: Progress, n: nat, n1: nat, s: int)
    requires IsLinkOfScanned(sp, p, n, s) && n <= n1 && n <= |p.order| && p.order <= p1.order
    ensures IsLinkOfScanned(sp, p1, n1, s)
  {
    hide IsLinkOf;
    var i :| 0 <= i < n && i < |p.order| && IsLinkOf(sp, p.order[i], s);
    assert p1.order[i] == p.order[i];
  }

  lemma ListsAllKept(sp: Spaces, p1: Progress, p: Progress, n: nat, kind: nat, list: seq<nat>)
    requires ListsAll(sp, p, n, kind, list) && n < |p.order| && p.order <= p1.order
    requires p.order[n] < |sp.m0| && KindOf(sp.m0[p.order[n]]) != kind
    ensures ListsAll(sp, p1, n + 1, kind, list)
  {
    hide KindOf;
    assert p1.order[..n + 1] == p.order[..n] + [p.order[n]];
  }

  lemma ListsAllMore(sp: Spaces, p1: Progress, p: Progress, n: nat, kind: nat, list: seq<nat>)
    requires ListsAll(sp, p, n, kind, list) && n < |p.order| && p.order <= p1.order && NoDuplicates(p.order)
    requires p.order[n] < |sp.m0| && KindOf(sp.m0[p.order[n]]) == kind
    ensures ListsAll(sp, p1, n + 1, kind, [p.order[n]] + list)
  {
    hide KindOf;
    assert p1.order[..n + 1] == p.order[..n] + [p.order[n]];
    assert p.order[n] !in p.order[..n];
  }
}
