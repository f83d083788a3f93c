/**
 * A heap with a thread and an object that the thread has locked: with some roots both collectors agree, with others
 * not.
 */
module LockedObjects {
  import opened Cells
  import opened FreeList
  import opened Objects
  import opened HeapShape
  import opened Marking
  import opened Reachability
  import opened TwoSpaces
  import opened CheneyScanning
  import opened CollectorsAgree
  import C = CheneyReachability

  /** A thread at 1, and at 14 an object whose monitor cell says that the thread has locked it, without a monitor. */
  function Memory(): seq<Cell> {
    [0, 12 * 256 + 8 * 4, 0, 0, 0, 0, 0, 0, 0, 0, 0, 0, 0, 0, 2 * 256 + 2 * 4, 0, 9, 0, 0, 0, 0, 0, 0, 0, 0, 0, 0, 0,
     0, 0, 0, 0, 0, 0]
  }

  function NoClasses(c: Cell): Class {
    NoClass
  }

  function SpacesNow(): Spaces {
    Spaces(NoClasses, Memory(), 1, 17, 17, 17, {})
  }

  lemma Layout()
    ensures var m := Memory();
            && |m| == 34 && SizeOf(m[1]) == 12 && KindOf(m[1]) == GCT_THREAD && SizeOf(m[14]) == 2
               && KindOf(m[14]) == GCT_INSTANCE
            && !IsMarked(m[1]) && !IsMarked(m[14]) && Next(m, 1) == 14 && Next(m, 14) == 17
            && Tiled(m, 1, 17) && Headers(m, 1, 17) == {1, 14}
  {
    var m := Memory();
    assert SizeOf(m[1]) == 12 && KindOf(m[1]) == GCT_THREAD && SizeOf(m[14]) == 2 && KindOf(m[14]) == GCT_INSTANCE;
    assert Tiled(m, 17, 17) && Headers(m, 17, 17) == {};
    assert Tiled(m, 14, 17) && Headers(m, 14, 17) == {14} + {};
    assert Headers(m, 1, 17) == {1} + Headers(m, 14, 17);
  }

  lemma Slots()
    ensures var m := Memory();
            && |m| == 34 && m[16] == 9 && (forall s | s in [2, 3, 4, 11, 13, 6] :: m[s] == 0)
            && Fits(NoClasses, m, 1) && Fits(NoClasses, m, 14)
            && StrongSlots(NoClasses, m, 1) == StrongSlots(NoClasses, m, 14) == [] && !HasRealMonitor(m, 1)
               && !HasRealMonitor(m, 14)
            && ScanSlots(NoClasses, m, 1) == [2, 3, 4, 11, 13, 6] && ScanSlots(NoClasses, m, 14) == [16]
            && IsMonitorSlot(m, 14, 16)
  {
    Layout();
    hide SizeOf, KindOf, Tiled, Headers;
    assert InstanceOffsets(NoClasses(0)) == [];
  }

  lemma BothCanWork()
    ensures Common(SpacesNow()) && Tiled(Memory(), 1, 17) && Headers(Memory(), 1, 17) == {1, 14}
    ensures !IsPlain(SpacesNow(), 1) && !IsPlain(SpacesNow(), 14)
  {
    Layout();
    Slots();
    hide SizeOf, KindOf, Tiled, Headers, IsMarked, Memory, Fits, StrongSlots, HasRealMonitor;
    assert Copyable(SpacesNow(), 1) by {
      ThreadIsCopyable();
    }
    assert Copyable(SpacesNow(), 14) by {
      LockedIsCopyable();
    }
    assert Sound(NoClasses, Memory(), 1, 17, 1) && Sound(NoClasses, Memory(), 1, 17, 14);
  }

  lemma ThreadIsCopyable()
    ensures Tiled(Memory(), 1, 17) && Copyable(SpacesNow(), 1)
  {
    Layout();
    Slots();
    hide SizeOf, KindOf, Tiled, Headers, IsMarked, Memory, Fits;
  }

  lemma LockedIsCopyable()
    ensures Tiled(Memory(), 1, 17) && Copyable(SpacesNow(), 14)
  {
    Layout();
    Slots();
    hide SizeOf, KindOf, Tiled, Headers, IsMarked, Memory, Fits;
  }

  lemma NeighboursAre()
    ensures C.Neighbours(SpacesNow(), 1) == {} && C.Neighbours(SpacesNow(), 14) == {1}
  {
    Slots();
    hide KindOf, Memory;
    var sp := SpacesNow();
    assert forall s | s in ScanSlots(NoClasses, Memory(), 1) :: !InHeap(1, 17, PointerAt(sp, 1, s));
    assert PointerAt(sp, 14, 16) == 8;
    assert HeaderAt(8) == 1 && InHeap(1, 17, 8);
    assert 16 in ScanSlots(NoClasses, Memory(), 14) by {
      assert [16][0] == 16;
    }
  }

  lemma LeadNowhere()
    ensures Leads(AsMarked(SpacesNow()), 1) == {} && Leads(AsMarked(SpacesNow()), 14) == {}
  {
    Slots();
    hide KindOf, Memory;
  }

  /** Marking stays with the roots. */
  lemma MarkedAreRoots(roots: set<nat>)
    requires Tiled(Memory(), 1, 17) && roots <= {1, 14}
    ensures Reachable(AsMarked(SpacesNow()), roots) == roots
  {
    BothCanWork();
    LeadNowhere();
    var sp := SpacesNow();
    hide Tiled, Headers, ReachedIn, Memory, Common, InUse, Leads, IsPlain;
    forall h | h in roots
      ensures InUse(AsMarked(sp), h) && Leads(AsMarked(sp), h) <= roots
    {
      ObjectInUse(sp, h);
    }
    ReachableIsLeast(AsMarked(sp), roots, roots);
    RootsAreReached(sp, roots);
  }

  lemma RootsAreReached(sp: Spaces, roots: set<nat>)
    requires Common(sp) && Tiled(sp.m0, sp.lo, sp.free) && roots <= Headers(sp.m0, sp.lo, sp.free)
    ensures roots <= Reachable(AsMarked(sp), roots)
  {
    hide Headers, Tiled, Good, Leads, InUse, WellFormed, Reachable;
    forall h | h in roots
      ensures InUse(AsMarked(sp), h)
    {
      ObjectInUse(sp, h);
    }
    ReachableIsClosed(AsMarked(sp), roots);
  }

  /** When the thread is a root as well, as live threads are, the collectors agree. */
  lemma RootedThreadAgrees()
    ensures Common(SpacesNow()) && Tiled(Memory(), 1, 17) && !IsPlain(SpacesNow(), 1) && !IsPlain(SpacesNow(), 14)
    ensures Reachable(AsMarked(SpacesNow()), {1, 14}) == C.Kept(SpacesNow(), {1, 14}) == {1, 14}
  {
    BothCanWork();
    MarkedAreRoots({1, 14});
    NeighboursAre();
    hide Tiled, Headers, Memory, Common, IsPlain, C.Neighbours, C.Kept, Reachable;
    KeepTheSame(SpacesNow(), {1, 14});
  }

  /**
   * When only the locked object is a root, the copying collector keeps the thread, and the marking collector does not.
   * That is the state after the thread has ended between MONITORENTER and MONITOREXIT: it is no longer in the list of
   * threads, but the object still holds its address.
   */
  lemma UnrootedThreadDiffers()
    ensures Common(SpacesNow()) && Tiled(Memory(), 1, 17)
    ensures Reachable(AsMarked(SpacesNow()), {14}) == {14} && 1 in C.Kept(SpacesNow(), {14})
  {
    BothCanWork();
    MarkedAreRoots({14});
    NeighboursAre();
    hide Tiled, Headers, Memory, IsPlain, C.Neighbours, C.Kept, Reachable, Good, WellFormed;
    C.KeptIsLeading(SpacesNow(), {14});
  }
}
