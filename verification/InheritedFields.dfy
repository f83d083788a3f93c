/** An object whose only pointer is an inherited field: both collectors keep what it leads to. */
module InheritedFields {
  import opened Cells
  import opened FreeList
  import opened Objects
  import opened HeapShape
  import opened HeapUpdate
  import opened Marking
  import opened Reachability
  import opened Roots
  import opened Tracing
  import opened TwoSpaces
  import opened CheneyScanning
  import opened CheneyWeak
  import opened CheneyAfter
  import opened PointerCells
  import CollectionTheorems
  import M = Collecting
  import N = CheneyNext
  import C = CheneyReachability

  /** Class 2 has no fields of its own; its superclass has one that holds a pointer. */
  function Derived(c: Cell): Class {
    if c == 2 then Class([], Class([Field(true, false, 0)], NoClass)) else NoClass
  }

  /** An instance at 1; its inherited field, in cell 4, leads to the only other object, at 5. */
  function Memory(): seq<Cell> {
    [0, 3 * 256 + 8, 2, 0, 24, 256 + 4, 0, 0, 0, 0, 0, 0, 0, 0]
  }

  /** A variable that leads to the instance. */
  function Variables(): Roots {
    Roots([8], [0], [], [])
  }

  function Heap(): Start {
    Start(Derived, Memory(), 1, 7, {})
  }

  /** Two spaces of six cells each; the two objects fill the first one. */
  function Halves(): Spaces {
    Spaces(Derived, Memory(), 1, 7, 7, 7, {})
  }

  lemma TheField()
    ensures HasPointerField(Derived(2), 0) && Derived(2).fields == []
    ensures 4 in InstanceCells() && |InstanceCells()| == 1 && Extent(InstanceOffsets(Derived(2))) == 1
    ensures LaidOut(Derived)
  {
    var base := Class([Field(true, false, 0)], NoClass);
    assert FieldOffsets(base.fields) == [0] + FieldOffsets([]) == [0];
    assert InstanceOffsets(NoClass) == [];
    assert InstanceOffsets(base) == [0];
    assert InstanceOffsets(Derived(2)) == [] + [0] == [0];
    assert Extent([0]) == 1 by {
      assert Extent([]) == 0;
    }
    assert IsSelfOrSuper(base, Derived(2)) && Field(true, false, 0) in base.fields;
    assert InstanceCells()[0] == 4;
  }

  /** The cells that are walked in the instance. */
  function InstanceCells(): seq<nat> {
    SlotsAt(4, InstanceOffsets(Derived(2)))
  }

  lemma Layout()
    ensures var m := Memory();
            && Tiled(m, 1, 7) && Headers(m, 1, 7) == {1, 5} && Next(m, 1) == 5 && Next(m, 5) == 7
            && SizeOf(m[1]) == 3 && KindOf(m[1]) == GCT_INSTANCE && SizeOf(m[5]) == 1 && KindOf(m[5]) == GCT_NOPOINTERS
            && !IsMarked(m[1]) && !IsMarked(m[5])
  {
    var m := Memory();
    assert SizeOf(m[1]) == 3 && KindOf(m[1]) == GCT_INSTANCE && SizeOf(m[5]) == 1 && KindOf(m[5]) == GCT_NOPOINTERS;
    assert Tiled(m, 7, 7) && Headers(m, 7, 7) == {};
    assert Tiled(m, 5, 7) && Headers(m, 5, 7) == {5} + {};
    assert Headers(m, 1, 7) == {1} + Headers(m, 5, 7);
  }

  /** The cells that are followed, and what they hold. */
  lemma CellsFollowed()
    ensures var m := Memory();
            && StrongSlots(Derived, m, 1) == [4] && StrongSlots(Derived, m, 5) == []
            && ScanSlots(Derived, m, 1) == [4] && ScanSlots(Derived, m, 5) == []
            && Fits(Derived, m, 1) && Fits(Derived, m, 5) && !HasRealMonitor(m, 1) && !HasRealMonitor(m, 5)
            && WeakCells(m, 1) == [] && WeakCells(m, 5) == []
  {
    Layout();
    TheField();
    hide SizeOf, KindOf, Tiled, Headers, IsMarked, Derived, InstanceOffsets, Extent, LaidOut, HasPointerField;
    assert InstanceCells() == [4] by {
      assert 4 in InstanceCells();
    }
    assert MonitorSlot(Memory(), 1) == [];
  }

  lemma RootsLeadToIt(v: Cell)
    ensures Variables().HasValue(v) <==> v == 8
    ensures C.IsRootPointer(Variables(), v) <==> v == 8
  {
    var r := Variables();
    assert VariableAt(r.variables, r.globals[0]) == 8;
    if v == 8 {
      assert r.HasGlobal(1, v);
    }
  }

  lemma HeapAtRest()
    ensures AtRest(Derived, Memory(), 1, 7) && Tiled(Memory(), 1, 7)
  {
    var m := Memory();
    Layout();
    CellsFollowed();
    hide Tiled, Headers, SizeOf, KindOf, IsMarked, Derived, Fits, StrongSlots, HasRealMonitor;
    assert 5 in Headers(m, 1, 7);
    assert PointsWell(m, 1, 7, 24);
    assert Sound(Derived, m, 1, 7, 1) && Sound(Derived, m, 1, 7, 5);
  }

  lemma ReadyToMark()
    ensures M.Ready(Derived, Memory(), 1, 7, Variables())
  {
    var m, r := Memory(), Variables();
    HeapAtRest();
    Layout();
    TheField();
    hide Tiled, Headers, SizeOf, KindOf, IsMarked, InstanceOffsets, Extent, Derived, LaidOut, Roots.HasValue,
      HasPointerField, AtRest;
    forall v: Cell | r.HasValue(v)
      ensures PointsWell(m, 1, 7, v)
    {
      RootsLeadToIt(v);
    }
    assert r.Distinct();
  }

  lemma TheTarget()
    ensures Tiled(Memory(), 1, 7) && Variables().Targets(Memory(), 1, 7) == {1}
  {
    var r := Variables();
    Layout();
    assert |Memory()| == 14;
    hide Tiled, Headers, Roots.HasValue, Memory;
    RootsLeadToIt(8);
    assert InHeap(1, 7, 8) && HeaderAt(8) == 1;
    assert r.IsTarget(1, 7, 1);
    assert 1 in Headers(Memory(), 1, 7);
    forall h: nat | r.IsTarget(1, 7, h)
      ensures h == 1
    {
      var v: Cell :| r.HasValue(v) && InHeap(1, 7, v) && HeaderAt(v) == h;
      RootsLeadToIt(v);
    }
  }

  /** The instance leads to the other object, which leads nowhere. */
  lemma Graph()
    ensures InUse(Heap(), 1) && InUse(Heap(), 5) && Leads(Heap(), 1) == {5} && Leads(Heap(), 5) == {}
  {
    ReadyToMark();
    Layout();
    CellsFollowed();
    CollectionTheorems.WellFormedAtRest(Derived, Memory(), 1, 7);
    hide Tiled, Headers, Derived, LaidOut, AtRest, Roots.Sound, Roots.Distinct, StrongSlots, HasRealMonitor, SizeOf,
      KindOf, IsMarked, Fits, WellFormed;
    assert [4][0] == 4;
  }

  /** The marking collector may start, and keeps both objects. */
  lemma InheritedFieldIsMarked()
    ensures M.Ready(Derived, Memory(), 1, 7, Variables()) && Tiled(Memory(), 1, 7)
    ensures Alive(Derived, Memory(), 1, 7, Variables()) == {1, 5}
  {
    var g := Heap();
    ReadyToMark();
    TheTarget();
    Graph();
    hide Tiled, Headers, ReachedIn, AtRest, LaidOut, Roots.Sound, Roots.Distinct, Roots.Targets, Leads, InUse,
      Reachable, Derived, Memory;
    CollectionTheorems.WellFormedAtRest(g.classOf, g.m0, 1, 7);
    ReachableIsClosed(g, {1});
    ReachableIsLeast(g, {1}, {1, 5});
  }

  lemma HalvesAreGood()
    ensures Good(Halves()) && Tiled(Memory(), 1, 7)
  {
    var sp := Halves();
    Layout();
    CellsFollowed();
    hide Tiled, Headers, SizeOf, KindOf, IsMarked, Derived, Fits, ScanSlots;
    assert PointsToObject(sp, 24);
    assert Copyable(sp, 1) && Copyable(sp, 5);
  }

  lemma ReadyToCopy()
    ensures N.Ready(Halves(), Variables(), 1, 13)
  {
    var sp, r := Halves(), Variables();
    HalvesAreGood();
    Layout();
    CellsFollowed();
    hide Tiled, Headers, SizeOf, KindOf, IsMarked, Derived, Fits, ScanSlots, WeakCells, C.IsRootPointer, Good;
    forall v: Cell | C.IsRootPointer(r, v)
      ensures PointsToObject(sp, v) && Local(sp, 1, 13, v)
    {
      RootsLeadToIt(v);
    }
    assert r.Distinct();
    assert SettledObject(sp, 1, 13, 1) && SettledObject(sp, 1, 13, 5);
  }

  lemma TheCopyTarget()
    ensures Tiled(Memory(), 1, 7) && C.RootTargets(Halves(), Variables()) == {1}
  {
    var sp, r := Halves(), Variables();
    Layout();
    hide Tiled, Headers, C.IsRootPointer, Memory;
    RootsLeadToIt(8);
    assert C.IsRootTarget(sp, r, 1);
    forall h: nat | C.IsRootTarget(sp, r, h)
      ensures h == 1
    {
      var v: Cell :| C.IsRootPointer(r, v) && InHeap(1, 7, v) && HeaderAt(v) == h;
      RootsLeadToIt(v);
    }
  }

  lemma CopyGraph()
    ensures C.Neighbours(Halves(), 1) == {5} && C.Neighbours(Halves(), 5) == {}
  {
    Layout();
    CellsFollowed();
    hide Tiled, Headers, Derived, ScanSlots, SizeOf, KindOf, Fits;
    assert [4][0] == 4;
    assert PointerAt(Halves(), 1, 4) == 24 && InHeap(1, 7, 24) && HeaderAt(24) == 5;
    assert 4 in ScanSlots(Derived, Memory(), 1);
    assert 5 in C.Neighbours(Halves(), 1);
  }

  /** The copying collector may start, and copies both objects. */
  lemma InheritedFieldIsCopied()
    ensures N.Ready(Halves(), Variables(), 1, 13) && Tiled(Memory(), 1, 7)
    ensures C.Kept(Halves(), C.RootTargets(Halves(), Variables())) == {1, 5}
  {
    var sp := Halves();
    ReadyToCopy();
    TheCopyTarget();
    CopyGraph();
    Layout();
    hide Tiled, Headers, C.RootTargets, C.Neighbours, C.Kept, Derived, Memory, Good;
    C.KeptIsLeading(sp, {1});
    C.KeptIsLeast(sp, {1}, {1, 5});
  }
}
