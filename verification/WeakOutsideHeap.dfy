/** Weak pointers out of the heap: what both collectors do to them, on two heaps of one object each. */
module WeakOutsideHeap {
  import opened Cells
  import opened FreeList
  import opened Objects
  import opened HeapShape
  import opened HeapUpdate
  import opened Marking
  import opened Reachability
  import opened Roots
  import opened WeakPointers
  import opened Tracing
  import opened Clearing
  import opened TwoSpaces
  import opened CheneyRoots
  import opened CheneyWeak
  import opened CheneyCollection
  import opened CheneyAfter
  import CollectionTheorems
  import M = Collecting
  import N = CheneyNext
  import C = CheneyReachability

  /** Class 1 is that of weak references: a referent, and nothing else that is followed. */
  function Reference(c: Cell): Class {
    if c == 1 then Class([Field(true, false, 0)], NoClass) else NoClass
  }

  /** A weak reference at 1, to a permanent object at 13; where objects have no header, any cell may be in front. */
  function ReferenceMemory(): seq<Cell> {
    [0, 4 * 256 + 11 * 4, 1, 0, 52, 0, 0, 0, 0, 0, 0, 0, 0, 0]
  }

  /** A weak list at 1 with one pointer, to the same place, with an odd cell in front of it. */
  function ListMemory(): seq<Cell> {
    [0, 4 * 256 + 10 * 4, 1, 0, 0, 52, 0, 0, 0, 0, 0, 0, 41, 0]
  }

  /** A variable that leads to the weak object. */
  function Variables(): Roots {
    Roots([8], [0], [], [])
  }

  /** Two spaces of five cells each; the weak object fills the first one. */
  function SpacesOf(m: seq<Cell>): Spaces {
    Spaces(Reference, m, 1, 6, 6, 6, {})
  }

  lemma Offsets()
    ensures InstanceOffsets(Reference(1)) == [0] && Extent([0]) == 1 && LaidOut(Reference)
  {
    assert FieldOffsets([Field(true, false, 0)]) == [0] + FieldOffsets([]) == [0];
    assert InstanceOffsets(NoClass) == [];
    assert Extent([0]) == 1 by {
      assert Extent([]) == 0;
    }
  }

  /** Both memories are a single object of five cells. */
  ghost predicate IsSample(m: seq<Cell>, kind: nat) {
    && |m| == 14 && m[1] == 4 * 256 + kind * 4 && m[2] == 1 && m[3] == 0
       && (kind == GCT_WEAKREFERENCE || kind == GCT_WEAKPOINTERLIST)
    && m[if kind == GCT_WEAKREFERENCE then 4 else 5] == 52
  }

  lemma Samples()
    ensures IsSample(ReferenceMemory(), GCT_WEAKREFERENCE) && IsSample(ListMemory(), GCT_WEAKPOINTERLIST)
  {
  }

  lemma Layout(m: seq<Cell>, kind: nat)
    requires IsSample(m, kind)
    ensures SizeOf(m[1]) == 4 && KindOf(m[1]) == kind && !IsMarked(m[1])
    ensures Tiled(m, 1, 6) && Headers(m, 1, 6) == {1} && Next(m, 1) == 6
  {
    assert SizeOf(m[1]) == 4 && KindOf(m[1]) == kind;
    assert Tiled(m, 6, 6) && Headers(m, 6, 6) == {};
    assert Tiled(m, 1, 6) && Headers(m, 1, 6) == {1} + {};
  }

  lemma RootsLeadToIt(v: Cell)
    ensures Variables().HasValue(v) <==> v == 8
    ensures C.IsRootPointer(Variables(), v) <==> v == 8
  {
    var r := Variables();
    assert VariableAt(r.variables, r.globals[0]) == 8;
    if v == 8 {
      assert r.HasGlobal(1, v);
    }
  }

  lemma SampleFits(m: seq<Cell>)
    requires IsSample(m, GCT_WEAKREFERENCE)
    ensures Fits(Reference, m, 1) && StrongSlots(Reference, m, 1) == [] && !HasRealMonitor(m, 1)
    ensures HasReferent(Reference, m, 1)
  {
    Layout(m, GCT_WEAKREFERENCE);
    Offsets();
    hide SizeOf, KindOf, InstanceOffsets, Extent, Reference, LaidOut;
    assert [0][0] == 0;
  }

  lemma SampleWellFormed(m: seq<Cell>)
    requires IsSample(m, GCT_WEAKREFERENCE)
    ensures WellFormed(Reference, m, 1, 6) && Tiled(m, 1, 6)
  {
    Layout(m, GCT_WEAKREFERENCE);
    SampleFits(m);
    hide Tiled, Headers, SizeOf, KindOf, Fits, StrongSlots, HasRealMonitor, PointsWell, Reference;
    assert Sound(Reference, m, 1, 6, 1);
  }

  lemma SampleAtRest(m: seq<Cell>)
    requires IsSample(m, GCT_WEAKREFERENCE)
    ensures AtRest(Reference, m, 1, 6)
  {
    Layout(m, GCT_WEAKREFERENCE);
    SampleFits(m);
    SampleWellFormed(m);
    hide Tiled, Headers, SizeOf, KindOf, IsMarked, WellFormed, HasReferent, Fits, Reference, StrongSlots;
    forall h, k: nat | h in Headers(m, 1, 6) && IsWeakSlot(m, h, k)
      ensures k < |m| && WeakPointer(m, 1, 6, m[k])
    {
    }
  }

  /** The marking collector could start on the heap. */
  lemma ReadyToMark()
    ensures M.Ready(Reference, ReferenceMemory(), 1, 6, Variables())
  {
    var m, r := ReferenceMemory(), Variables();
    Samples();
    Layout(m, GCT_WEAKREFERENCE);
    Offsets();
    SampleAtRest(m);
    hide Tiled, Headers, IsMarked, Reference, LaidOut, Roots.HasValue, ReferenceMemory, AtRest;
    forall v: Cell | r.HasValue(v)
      ensures PointsWell(m, 1, 6, v)
    {
      RootsLeadToIt(v);
    }
    assert r.Distinct();
  }

  lemma ItIsReached(g: Start)
    requires g == Start(Reference, ReferenceMemory(), 1, 6, g.reachable) && M.Ready(Reference, g.m0, 1, 6, Variables())
    ensures Tiled(g.m0, 1, 6) && 1 in Alive(Reference, g.m0, 1, 6, Variables())
  {
    var g0, r := Start(Reference, g.m0, 1, 6, {}), Variables();
    Samples();
    Layout(g.m0, GCT_WEAKREFERENCE);
    hide Tiled, Headers, ReachedIn, AtRest, LaidOut, Roots.Sound, Roots.Distinct, Roots.HasValue;
    RootsLeadToIt(8);
    assert r.IsTarget(1, 6, 1);
    assert 1 in r.Targets(g.m0, 1, 6);
    CollectionTheorems.WellFormedAtRest(Reference, g.m0, 1, 6);
    TargetInUse(g0, r, 1);
    OneTarget(g0, r);
    ReachableIsClosed(g0, r.Targets(g.m0, 1, 6));
  }

  lemma OneTarget(g: Start, r: Roots)
    requires g == Start(Reference, ReferenceMemory(), 1, 6, {}) && r == Variables() && M.Ready(Reference, g.m0, 1, 6, r)
    requires Tiled(g.m0, 1, 6)
    requires WellFormed(g.classOf, g.m0, 1, 6)
    ensures forall h | h in r.Targets(g.m0, 1, 6) :: InUse(g, h)
  {
    hide Tiled, Headers, AtRest, LaidOut, Roots.Sound, Roots.Distinct, InUse, WellFormed, Roots.Targets;
    forall h | h in r.Targets(g.m0, 1, 6)
      ensures InUse(g, h)
    {
      TargetInUse(g, r, h);
    }
  }

  /**
   * The marking collector clears a weak reference to a permanent object, an interned string for example, although
   * objects outside the heap are always alive.
   */
  lemma PermanentReferentIsCleared(g: Start, m2: seq<Cell>)
    requires g == Start(Reference, ReferenceMemory(), 1, 6, g.reachable) && Tiled(g.m0, 1, 6)
    requires g.reachable == Alive(Reference, g.m0, 1, 6, Variables()) && Traced(g, m2)
    ensures M.Ready(Reference, g.m0, 1, 6, Variables())
    ensures !InHeap(1, 6, g.m0[4]) && g.m0[4] != NULL && |m2| == 14 && m2[4] == NULL
  {
    ReadyToMark();
    ItIsReached(g);
    Samples();
    Layout(g.m0, GCT_WEAKREFERENCE);
    hide AtRest, Startable, Headers, Tiled, Alive, SizeOf, KindOf;
    assert m2[12] == 0;
    EvenIsUnmarked();
    assert CellKept(g, m2, 1, 4);
  }

  lemma EvenIsUnmarked()
    ensures !IsMarked(0) && IsMarked(41)
  {
  }

  lemma SampleIsGood(m: seq<Cell>, kind: nat)
    requires IsSample(m, kind)
    ensures Good(SpacesOf(m)) && Tiled(m, 1, 6) && Headers(m, 1, 6) == {1}
    ensures ScanSlots(Reference, m, 1) == [] && WeakCells(m, 1) == [if kind == GCT_WEAKREFERENCE then 4 else 5]
  {
    Layout(m, kind);
    Offsets();
    hide Tiled, Headers, SizeOf, KindOf, IsMarked, InstanceOffsets, Extent, Reference, LaidOut;
    assert ScanSlots(Reference, m, 1) == [];
    assert Fits(Reference, m, 1);
    assert Copyable(SpacesOf(m), 1);
  }

  /** The copying collector could start on either heap. */
  lemma ReadyToCopy(m: seq<Cell>, kind: nat)
    requires IsSample(m, kind)
    ensures N.Ready(SpacesOf(m), Variables(), 1, 11)
  {
    var sp, r := SpacesOf(m), Variables();
    SampleIsGood(m, kind);
    hide Tiled, Headers, SizeOf, KindOf, IsMarked, ScanSlots, WeakCells, C.IsRootPointer, Good;
    forall h, s | h in Headers(m, 1, 6) && s in WeakCells(m, h)
      ensures GoodWeakCell(sp, h, s)
    {
      Layout(m, kind);
    }
    forall v: Cell | C.IsRootPointer(r, v)
      ensures PointsToObject(sp, v) && Local(sp, 1, 11, v)
    {
      RootsLeadToIt(v);
    }
    assert r.Distinct();
    assert SettledObject(sp, 1, 11, 1);
  }

  lemma ItIsKept(m: seq<Cell>, kind: nat)
    requires IsSample(m, kind)
    ensures Tiled(m, 1, 6) && 1 in C.Kept(SpacesOf(m), C.RootTargets(SpacesOf(m), Variables()))
  {
    var sp, r := SpacesOf(m), Variables();
    SampleIsGood(m, kind);
    hide Tiled, Headers, C.IsRootPointer, Good, C.Kept;
    RootsLeadToIt(8);
    assert C.IsRootTarget(sp, r, 1);
    C.KeptIsLeading(sp, C.RootTargets(sp, r));
  }

  lemma ReferenceGoes(where: map<nat, nat>)
    ensures WeakValue(SpacesOf(ReferenceMemory()), where, true, 52) == NULL && ReferenceMemory()[4] == 52
  {
    EvenIsUnmarked();
    assert ReferenceMemory()[12] == 0;
  }

  lemma ListPointerGoes(where: map<nat, nat>)
    ensures WeakValue(SpacesOf(ListMemory()), where, false, 52) == 40 && ListMemory()[5] == 52
  {
    EvenIsUnmarked();
    assert ListMemory()[12] == 41;
  }

  /** The copying collector clears the weak reference as well. */
  lemma PermanentReferentIsClearedByCopying(m2: seq<Cell>, r2: Roots, p: Progress)
    requires Tiled(ReferenceMemory(), 1, 6) && Collected(m2, r2, SpacesOf(ReferenceMemory()), p, Variables())
    ensures N.Ready(SpacesOf(ReferenceMemory()), Variables(), 1, 11)
    ensures 1 in p.where && 0 <= p.where[1] + 3 < |m2| && ReferenceMemory()[4] != NULL && m2[p.where[1] + 3] == NULL
  {
    hide Tiled, Collected, N.Ready, SpacesOf, Variables, GoodWeakPointers;
    Samples();
    ReferenceGoes(p.where);
    WeakCellOfSample(ReferenceMemory(), GCT_WEAKREFERENCE, m2, r2, p);
  }

  /** In the weak list it puts the odd cell, without its lowest bit, in the place of the pointer. */
  lemma PermanentListPointerIsReplaced(m2: seq<Cell>, r2: Roots, p: Progress)
    requires Tiled(ListMemory(), 1, 6) && Collected(m2, r2, SpacesOf(ListMemory()), p, Variables())
    ensures N.Ready(SpacesOf(ListMemory()), Variables(), 1, 11)
    ensures 1 in p.where && 0 <= p.where[1] + 4 < |m2| && ListMemory()[5] == 52 && m2[p.where[1] + 4] == 40
    ensures !N.StraysAreFine(SpacesOf(ListMemory()), p, 1, 11)
  {
    hide Tiled, Collected, N.Ready, SpacesOf, Variables, GoodWeakPointers, N.StraysAreFine;
    Samples();
    ListPointerGoes(p.where);
    WeakCellOfSample(ListMemory(), GCT_WEAKPOINTERLIST, m2, r2, p);
    OnlyCopy(m2, r2, p);
    NoCopyThere(p);
  }

  /** There is one copy, at the start of the other space. */
  lemma OnlyCopy(m2: seq<Cell>, r2: Roots, p: Progress)
    requires Tiled(ListMemory(), 1, 6) && Collected(m2, r2, SpacesOf(ListMemory()), p, Variables())
    ensures p.where == map[1 := 6]
  {
    Samples();
    ItIsKept(ListMemory(), GCT_WEAKPOINTERLIST);
    hide Tiled, Headers, WeakCells, KindOf, C.Kept, RootsForwarded, Good, OldSpace, SizeOf;
    assert p.where.Keys == {1};
    FirstCopy(SpacesOf(ListMemory()), p, 1);
  }

  lemma FirstCopy(sp: Spaces, p: Progress, h: nat)
    requires InOrder(sp, p) && p.where.Keys == {h}
    ensures p.where == map[h := sp.target]
  {
    assert Elements(p.order) == {h};
    assert h in Elements(p.order);
    assert forall j | 0 <= j < |p.order| :: p.order[j] in Elements(p.order);
    assert p.order[..0] == [];
  }

  lemma NoCopyThere(p: Progress)
    requires p.where == map[1 := 6]
    ensures !N.StraysAreFine(SpacesOf(ListMemory()), p, 1, 11)
  {
    var sp := SpacesOf(ListMemory());
    assert KindOf(sp.m0[1]) == GCT_WEAKPOINTERLIST;
    assert WeakCells(sp.m0, 1) == [5];
    assert 5 in WeakCells(sp.m0, 1) by {
      assert [5][0] == 5;
    }
    assert IsMarked(sp.m0[12]) && sp.m0[5] == 52;
    assert 9 !in p.where.Values;
    assert !N.FineReplacement(sp, p, 1, 11, 40);
    assert !N.StrayIsFine(sp, p, 1, 11, 1, 5);
  }

  lemma WeakCellOfSample(m: seq<Cell>, kind: nat, m2: seq<Cell>, r2: Roots, p: Progress)
    requires IsSample(m, kind) && Tiled(m, 1, 6) && Collected(m2, r2, SpacesOf(m), p, Variables())
    ensures N.Ready(SpacesOf(m), Variables(), 1, 11) && 1 in p.where
    ensures var s := if kind == GCT_WEAKREFERENCE then 4 else 5;
            && 0 <= p.where[1] + s - 1 < |m2|
            && m2[p.where[1] + s - 1] == WeakValue(SpacesOf(m), p.where, kind == GCT_WEAKREFERENCE, 52)
  {
    ReadyToCopy(m, kind);
    ItIsKept(m, kind);
    SampleIsGood(m, kind);
    Layout(m, kind);
    hide Tiled, Headers, Evacuated, WeakCells, WeakValue, KindOf, GoodWeakPointers, Settled, C.Kept, RootsForwarded,
      Good, ScanSlots, SizeOf, C.WellRooted;
    var s := if kind == GCT_WEAKREFERENCE then 4 else 5;
    assert s in WeakCells(m, 1) by {
      assert WeakCells(m, 1)[0] == s;
    }
    N.WeakCellAfter(m2, SpacesOf(m), p, 1, s);
  }
}
