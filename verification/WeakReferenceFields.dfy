/** The fields that a subclass of WeakReference adds are rewritten, but nothing marks the objects they lead to. */
module WeakReferenceFields {
  import opened Cells
  import opened FreeList
  import opened Objects
  import opened HeapShape
  import opened Marking
  import opened Reachability
  import opened Roots
  import opened HeapUpdate
  import opened WeakPointers
  import opened Tracing
  import opened Collecting
  import opened CollectionTheorems

  /** A subclass of WeakReference with one more reference field, behind the referent and the link. */
  function Subclass(c: Cell): Class {
    if c == 1 then Class([Field(true, false, 0), Field(true, false, 2)], NoClass) else NoClass
  }

  /** One object of that class, at 1, whose field leads to the only other object, at 7. */
  function Memory(): seq<Cell> {
    [0, 5 * 256 + 11 * 4, 1, 0, 0, 0, 32, 256 + 4, 0]
  }

  /** A variable that holds the weak reference. */
  function Variables(): Roots {
    Roots([8], [0], [], [])
  }

  lemma Offsets()
    ensures InstanceOffsets(Subclass(1)) == [0, 2] && Extent([0, 2]) == 3
    ensures LaidOut(Subclass)
  {
    assert FieldOffsets([Field(true, false, 2)]) == [2] + FieldOffsets([]) == [2];
    assert [Field(true, false, 0), Field(true, false, 2)][1..] == [Field(true, false, 2)];
    assert FieldOffsets([Field(true, false, 0), Field(true, false, 2)]) == [0] + [2];
    assert InstanceOffsets(NoClass) == [];
    assert Extent([2]) == 3 by {
      assert Extent([]) == 0;
    }
    assert [0, 2][1..] == [2];
  }

  lemma Layout()
    ensures var m := Memory();
            && Tiled(m, 1, 9) && Headers(m, 1, 9) == {1, 7} && Next(m, 1) == 7 && Next(m, 7) == 9
            && SizeOf(m[1]) == 5 && KindOf(m[1]) == GCT_WEAKREFERENCE && SizeOf(m[7]) == 1
               && KindOf(m[7]) == GCT_NOPOINTERS
            && !IsMarked(m[1]) && !IsMarked(m[7])
  {
    var m := Memory();
    assert SizeOf(m[1]) == 5 && KindOf(m[1]) == GCT_WEAKREFERENCE && SizeOf(m[7]) == 1
           && KindOf(m[7]) == GCT_NOPOINTERS;
    assert Tiled(m, 9, 9) && Headers(m, 9, 9) == {};
    assert Tiled(m, 7, 9) && Headers(m, 7, 9) == {7} + {};
    assert Headers(m, 1, 9) == {1} + Headers(m, 7, 9);
  }

  lemma HeapIsReady()
    ensures Ready(Subclass, Memory(), 1, 9, Variables())
  {
    var m, r := Memory(), Variables();
    Layout();
    Offsets();
    hide Tiled, Headers, SizeOf, KindOf, IsMarked, InstanceOffsets, Extent, Subclass, LaidOut;
    assert Fits(Subclass, m, 1) && Fits(Subclass, m, 7);
    assert StrongSlots(Subclass, m, 1) == [] && StrongSlots(Subclass, m, 7) == [];
    assert !HasRealMonitor(m, 1) && !HasRealMonitor(m, 7);
    forall v: Cell | r.HasValue(v)
      ensures PointsWell(m, 1, 9, v)
    {
      assert v == 8;
    }
    assert r.Distinct();
    forall h, k: nat | h in Headers(m, 1, 9) && IsWeakSlot(m, h, k)
      ensures k < |m| && WeakPointer(m, 1, 9, m[k])
    {
    }
    assert 0 in [0, 2] by {
      assert [0, 2][0] == 0;
    }
  }

  /**
   * A heap that is ready for a collection, in which a live object has a reference field that will be rewritten, but
   * leads to an object that the collection does not keep.
   */
  lemma FieldOfWeakReferenceDangles()
    ensures var m := Memory();
            && Ready(Subclass, m, 1, 9, Variables()) && Tiled(m, 1, 9)
            && Alive(Subclass, m, 1, 9, Variables()) == {1}
            && 6 in PointerSlots(Subclass, m, 1) && InHeap(1, 9, m[6]) && HeaderAt(m[6]) == 7 && 7 in Headers(m, 1, 9)
            && KindOf(m[7]) != GCT_FREE
  {
    var m, r := Memory(), Variables();
    var g := Start(Subclass, m, 1, 9, {});
    HeapIsReady();
    Layout();
    Offsets();
    assert SlotsAt(4, [0, 2])[1] == 6;
    assert 6 in PointerSlots(Subclass, m, 1);
    OnlyTheReference(g, r);
  }

  lemma OnlyTheReference(g: Start, r: Roots)
    requires g == Start(Subclass, Memory(), 1, 9, {}) && r == Variables()
    requires Ready(Subclass, Memory(), 1, 9, r) && Tiled(g.m0, 1, 9)
    ensures Alive(Subclass, g.m0, 1, 9, r) == {1}
  {
    hide Tiled, Headers, ReachedIn, AtRest, LaidOut, Roots.Sound, Roots.Distinct, Roots.HasValue;
    Layout();
    TheTarget(g, r);
    hide Roots.Targets;
    WellFormedAtRest(g.classOf, g.m0, 1, 9);
    TargetInUse(g, r, 1);
    NoLeads(g);
    assert Followed(g, {1}, {1});
    ReachableIsLeast(g, {1}, {1});
    ReachableIsClosed(g, {1});
  }

  lemma NoLeads(g: Start)
    requires g == Start(Subclass, Memory(), 1, 9, {}) && InUse(g, 1)
    ensures Leads(g, 1) == {}
  {
    assert KindOf(g.m0[1]) == GCT_WEAKREFERENCE;
    assert !HasRealMonitor(g.m0, 1);
  }

  lemma TheTarget(g: Start, r: Roots)
    requires g == Start(Subclass, Memory(), 1, 9, {}) && r == Variables() && Tiled(g.m0, 1, 9)
    requires Headers(g.m0, 1, 9) == {1, 7}
    ensures r.Targets(g.m0, 1, 9) == {1}
  {
    hide Tiled, Headers;
    var v: Cell := 8;
    assert r.HasGlobal(1, v) by {
      assert VariableAt(r.variables, r.globals[0]) == 8;
    }
    assert |r.globals| == 1 && r.HasValue(v) && InHeap(1, 9, v) && HeaderAt(v) == 1;
    assert r.IsTarget(1, 9, 1);
    forall h: nat | r.IsTarget(1, 9, h)
      ensures h == 1
    {
      var w: Cell :| r.HasValue(w) && InHeap(1, 9, w) && HeaderAt(w) == h;
      assert w == 8;
    }
  }
}
