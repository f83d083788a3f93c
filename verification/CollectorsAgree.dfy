/** Both collectors keep the same objects, as far as objects of Java programs are concerned. */
module CollectorsAgree {
  import opened Cells
  import opened Objects
  import opened HeapShape
  import opened HeapUpdate
  import opened Marking
  import opened Reachability
  import opened Roots
  import opened Tracing
  import opened TwoSpaces
  import opened CheneyScanning
  import opened CheneyRoots
  import C = CheneyReachability

  /** The space in use as the marking collector would see it. */
  function AsMarked(sp: Spaces): Start {
    Start(sp.classOf, sp.m0, sp.lo, sp.free, {})
  }

  /** A heap that both collectors can work on. */
  ghost predicate Common(sp: Spaces) {
    Good(sp) && WellFormed(sp.classOf, sp.m0, sp.lo, sp.free)
  }

  /** The mark bits of the monitor cell say that it is a hash code or points to a real monitor. */
  predicate IsPlainMonitorCell(v: Cell) {
    v % CELL == MHC_UNLOCKED || v % CELL == MHC_MONITOR
  }

  /** Not a thread or a monitor, and not locked by a thread without a monitor. */
  predicate IsPlain(sp: Spaces, h: nat) {
    && h < |sp.m0| && KindOf(sp.m0[h]) != GCT_THREAD && KindOf(sp.m0[h]) != GCT_MONITOR
    && (HasMonitorCell(KindOf(sp.m0[h])) && h + 2 < |sp.m0| ==> IsPlainMonitorCell(sp.m0[h + 2]))
  }

  lemma ObjectInUse(sp: Spaces, h: nat)
    requires Common(sp) && Tiled(sp.m0, sp.lo, sp.free) && h in Headers(sp.m0, sp.lo, sp.free)
    ensures InUse(AsMarked(sp), h) && h + 2 <= Next(sp.m0, h) <= |sp.m0|
    ensures (KindOf(sp.m0[h]) == GCT_OBJECTARRAY ==> h + 3 < |sp.m0|)
  {
    hide Headers, Tiled, Sound;
    ObjectBounds(sp, h);
    IsCopyable(sp, h);
  }

  lemma HeapOfObjects(sp: Spaces, v: Cell)
    requires Tiled(sp.m0, sp.lo, sp.free) && PointsToObject(sp, v) && sp.free <= sp.hi
    ensures InHeap(sp.lo, sp.hi, v) <==> InHeap(sp.lo, sp.free, v)
  {
    if InHeap(sp.lo, sp.hi, v) {
      HeaderBounds(sp.m0, sp.lo, sp.free, HeaderAt(v));
    }
  }

  lemma StrongSlotIsScanned(sp: Spaces, h: nat, s: nat)
    requires h + 1 < |sp.m0| && Fits(sp.classOf, sp.m0, h) && s in StrongSlots(sp.classOf, sp.m0, h) && s < |sp.m0|
    ensures s in ScanSlots(sp.classOf, sp.m0, h) && PointerAt(sp, h, s) == sp.m0[s]
  {
    var kind := KindOf(sp.m0[h]);
    if kind == GCT_INSTANCE {
      assert s in SlotsAt(h + 3, InstanceOffsets(sp.classOf(sp.m0[h + 1])));
    } else if kind == GCT_OBJECTARRAY {
      assert s in Range(h + 4, sp.m0[h + 3]);
    }
  }

  lemma MonitorIsScanned(sp: Spaces, h: nat)
    requires h < |sp.m0| && Fits(sp.classOf, sp.m0, h) && HasRealMonitor(sp.m0, h)
    ensures h + 2 in ScanSlots(sp.classOf, sp.m0, h) && PointerAt(sp, h, h + 2) == MonitorOf(sp.m0, h)
  {
    assert h + 2 in MonitorSlot(sp.m0, h);
  }

  /** The copying collector follows every pointer that the marking collector follows. */
  lemma LeadsToNeighbours(sp: Spaces, h: nat)
    requires Common(sp) && Tiled(sp.m0, sp.lo, sp.free) && h in Headers(sp.m0, sp.lo, sp.free)
    ensures Leads(AsMarked(sp), h) <= C.Neighbours(sp, h)
  {
    hide Headers, Tiled, ScanSlots, StrongSlots, Good, PointsToObject, Fits, KindOf;
    ObjectInUse(sp, h);
    assert sp.free <= sp.hi by {
      GoodIsApart(sp);
    }
    forall c | c in Leads(AsMarked(sp), h)
      ensures c in C.Neighbours(sp, h)
    {
      if s :| s in StrongSlots(sp.classOf, sp.m0, h) && InHeap(sp.lo, sp.free, sp.m0[s]) && c == HeaderAt(sp.m0[s]) {
        StrongSlotIsScanned(sp, h, s);
        assert InHeap(sp.lo, sp.hi, PointerAt(sp, h, s));
      } else {
        MonitorIsScanned(sp, h);
        assert InHeap(sp.lo, sp.hi, PointerAt(sp, h, h + 2));
      }
    }
  }

  /** A scanned cell of a plain object is a strong pointer or that of a real monitor. */
  lemma ScannedIsStrong(sp: Spaces, h: nat, s: nat)
    requires h + 1 < |sp.m0| && Fits(sp.classOf, sp.m0, h) && s in ScanSlots(sp.classOf, sp.m0, h) && s < |sp.m0|
    requires IsPlain(sp, h)
    ensures s in StrongSlots(sp.classOf, sp.m0, h) || (s == h + 2 && HasRealMonitor(sp.m0, h))
    ensures s in StrongSlots(sp.classOf, sp.m0, h) ==> PointerAt(sp, h, s) == sp.m0[s]
    ensures s == h + 2 && HasRealMonitor(sp.m0, h) ==> PointerAt(sp, h, s) == MonitorOf(sp.m0, h)
  {
    if s in StrongSlots(sp.classOf, sp.m0, h) {
      StrongSlotIsScanned(sp, h, s);
    }
    var kind := KindOf(sp.m0[h]);
    if kind == GCT_INSTANCE {
      assert s in MonitorSlot(sp.m0, h) || s in SlotsAt(h + 3, InstanceOffsets(sp.classOf(sp.m0[h + 1])));
    } else if kind == GCT_OBJECTARRAY {
      assert s in MonitorSlot(sp.m0, h) || s in Range(h + 4, sp.m0[h + 3]);
    }
  }

  /** ... and no others, in a plain object. */
  lemma NeighboursAreLed(sp: Spaces, h: nat)
    requires Common(sp) && Tiled(sp.m0, sp.lo, sp.free) && h in Headers(sp.m0, sp.lo, sp.free) && IsPlain(sp, h)
    ensures C.Neighbours(sp, h) <= Leads(AsMarked(sp), h)
  {
    hide Headers, Tiled, ScanSlots, StrongSlots, Good, PointsToObject, Fits, KindOf, IsPlain;
    ObjectInUse(sp, h);
    IsCopyable(sp, h);
    GoodIsApart(sp);
    forall c | c in C.Neighbours(sp, h)
      ensures c in Leads(AsMarked(sp), h)
    {
      var s :| s in ScanSlots(sp.classOf, sp.m0, h) && s < |sp.m0| && InHeap(sp.lo, sp.hi, PointerAt(sp, h, s))
        && c == HeaderAt(PointerAt(sp, h, s));
      HeapOfObjects(sp, PointerAt(sp, h, s));
      ScannedIsStrong(sp, h, s);
    }
  }

  /** The copying collector keeps everything that the marking collector keeps. */
  lemma KeepsWhatIsMarked(sp: Spaces, roots: set<nat>)
    requires Common(sp) && Tiled(sp.m0, sp.lo, sp.free) && roots <= Headers(sp.m0, sp.lo, sp.free)
    ensures Reachable(AsMarked(sp), roots) <= C.Kept(sp, roots)
  {
    hide Headers, Tiled, Good, C.Neighbours, Leads, InUse, WellFormed, C.ReachedIn;
    C.KeptIsLeading(sp, roots);
    var kept := C.Kept(sp, roots);
    forall h | h in kept
      ensures InUse(AsMarked(sp), h) && Leads(AsMarked(sp), h) <= kept
    {
      ObjectInUse(sp, h);
      LeadsToNeighbours(sp, h);
      forall c | c in Leads(AsMarked(sp), h)
        ensures c in kept
      {
        assert c in C.Neighbours(sp, h);
      }
    }
    ReachableIsLeast(AsMarked(sp), roots, kept);
  }

  /** What the threads, monitors and locked objects of the set point to is in the set. */
  ghost predicate OthersAreLed(sp: Spaces, objects: set<nat>)
    requires Tiled(sp.m0, sp.lo, sp.free)
  {
    forall h | h in objects && h in Headers(sp.m0, sp.lo, sp.free) && !IsPlain(sp, h) :: C.Neighbours(sp, h) <= objects
  }

  lemma MarkedIsLeading(sp: Spaces, roots: set<nat>)
    requires Common(sp) && Tiled(sp.m0, sp.lo, sp.free) && roots <= Headers(sp.m0, sp.lo, sp.free)
    requires OthersAreLed(sp, Reachable(AsMarked(sp), roots))
    ensures C.Leading(sp, Reachable(AsMarked(sp), roots)) && roots <= Reachable(AsMarked(sp), roots)
  {
    hide Headers, Tiled, Good, C.Neighbours, Leads, InUse, WellFormed, Reachable, IsPlain;
    var reachable := Reachable(AsMarked(sp), roots);
    forall h | h in roots
      ensures InUse(AsMarked(sp), h)
    {
      ObjectInUse(sp, h);
    }
    ReachableIsClosed(AsMarked(sp), roots);
    forall h, c | h in reachable && h in Headers(sp.m0, sp.lo, sp.free) && c in C.Neighbours(sp, h)
      ensures c in reachable
    {
      if IsPlain(sp, h) {
        NeighboursAreLed(sp, h);
      }
    }
  }

  /**
   * In every heap both collectors keep the same exactly if what the threads, monitors and locked objects that the
   * marking collector keeps point to is kept by it as well: it does not follow their pointers, the copying collector
   * does.
   */
  lemma KeepTheSame(sp: Spaces, roots: set<nat>)
    requires Common(sp) && Tiled(sp.m0, sp.lo, sp.free) && roots <= Headers(sp.m0, sp.lo, sp.free)
    ensures Reachable(AsMarked(sp), roots) == C.Kept(sp, roots) <==> OthersAreLed(sp, Reachable(AsMarked(sp), roots))
  {
    hide Headers, Tiled, Good, C.Neighbours, Leads, InUse, WellFormed, C.ReachedIn, C.Kept, Reachable, IsPlain;
    KeepsWhatIsMarked(sp, roots);
    var reachable := Reachable(AsMarked(sp), roots);
    if OthersAreLed(sp, reachable) {
      MarkedIsLeading(sp, roots);
      C.KeptIsLeast(sp, roots, reachable);
    }
    if reachable == C.Kept(sp, roots) {
      C.KeptIsLeading(sp, roots);
      forall h, c | h in reachable && h in Headers(sp.m0, sp.lo, sp.free) && c in C.Neighbours(sp, h)
        ensures c in reachable
      {
      }
    }
  }

  /** The marking collector's root pointers are among those of the copying collector. */
  lemma MarkedRootPointer(r: Roots, v: Cell)
    requires r.HasValue(v)
    ensures C.IsRootPointer(r, v) || v == NULL
  {
    if i :| 0 <= i < |r.monitors| && MonitorValue(VariableAt(r.variables, r.monitors[i])) == v {
      assert MonitorPointer(r, i) == v || v == NULL;
    }
  }

  lemma MarkedTargets(sp: Spaces, r: Roots)
    requires Common(sp) && Tiled(sp.m0, sp.lo, sp.free)
    ensures r.Targets(sp.m0, sp.lo, sp.free) <= C.RootTargets(sp, r) <= Headers(sp.m0, sp.lo, sp.free)
  {
    hide Headers, Tiled, Good, C.IsRootPointer, Roots.HasValue, WellFormed;
    GoodIsApart(sp);
    forall h | h in r.Targets(sp.m0, sp.lo, sp.free)
      ensures C.IsRootTarget(sp, r, h)
    {
      var v: Cell :| r.HasValue(v) && InHeap(sp.lo, sp.free, v) && HeaderAt(v) == h;
      MarkedRootPointer(r, v);
      assert InHeap(sp.lo, sp.hi, v);
    }
  }

  lemma {:induction false} MoreRootsReach(sp: Spaces, roots: set<nat>, more: set<nat>, n: nat, h: nat)
    requires Tiled(sp.m0, sp.lo, sp.free) && roots <= more && ReachedIn(AsMarked(sp), roots, n, h)
    ensures ReachedIn(AsMarked(sp), more, n, h)
    decreases n
  {
    hide Headers, Tiled, Leads;
    if n > 0 {
      if ReachedIn(AsMarked(sp), roots, n - 1, h) {
        MoreRootsReach(sp, roots, more, n - 1, h);
      } else {
        var p :| p in Headers(sp.m0, sp.lo, sp.free) && ReachedIn(AsMarked(sp), roots, n - 1, p)
          && h in Leads(AsMarked(sp), p);
        MoreRootsReach(sp, roots, more, n - 1, p);
      }
    }
  }

  lemma MoreRootsReachMore(sp: Spaces, roots: set<nat>, more: set<nat>)
    requires Tiled(sp.m0, sp.lo, sp.free) && roots <= more
    ensures Reachable(AsMarked(sp), roots) <= Reachable(AsMarked(sp), more)
  {
    hide Headers, Tiled, ReachedIn;
    forall h | h in Reachable(AsMarked(sp), roots)
      ensures h in Reachable(AsMarked(sp), more)
    {
      var n: nat :| ReachedIn(AsMarked(sp), roots, n, h);
      MoreRootsReach(sp, roots, more, n, h);
    }
  }

  /** What the copying collector keeps, if it is not more than what marking keeps. */
  lemma KeptWithinMarked(sp: Spaces, r: Roots, alive: set<nat>)
    requires Common(sp) && Tiled(sp.m0, sp.lo, sp.free)
    requires alive == Reachable(AsMarked(sp), r.Targets(sp.m0, sp.lo, sp.free))
    requires C.RootTargets(sp, r) <= alive && OthersAreLed(sp, alive)
    ensures C.Kept(sp, C.RootTargets(sp, r)) <= alive
  {
    hide Headers, Tiled, Good, C.Neighbours, C.Kept, Reachable, IsPlain, OthersAreLed, Roots.Targets, C.RootTargets,
      WellFormed;
    MarkedTargets(sp, r);
    MarkedIsLeading(sp, r.Targets(sp.m0, sp.lo, sp.free));
    C.KeptIsLeast(sp, C.RootTargets(sp, r), alive);
  }

  lemma KeptIsClosed(sp: Spaces, roots: set<nat>)
    requires Common(sp) && Tiled(sp.m0, sp.lo, sp.free) && roots <= Headers(sp.m0, sp.lo, sp.free)
    ensures roots <= C.Kept(sp, roots) && OthersAreLed(sp, C.Kept(sp, roots))
  {
    hide Headers, Tiled, Good, C.Neighbours, C.Kept, IsPlain, WellFormed;
    C.KeptIsLeading(sp, roots);
    forall h, c | h in C.Kept(sp, roots) && h in Headers(sp.m0, sp.lo, sp.free) && c in C.Neighbours(sp, h)
      ensures c in C.Kept(sp, roots)
    {
    }
  }

  /**
   * With roots: the copying collector never keeps less than the marking collector, and both keep the same exactly if
   * the latter also keeps what the roots' locked classes and strings, and the threads, monitors and locked objects it
   * keeps, point to.
   */
  lemma SameSurvivors(sp: Spaces, r: Roots)
    requires Common(sp) && Tiled(sp.m0, sp.lo, sp.free)
    ensures var alive := Alive(sp.classOf, sp.m0, sp.lo, sp.free, r);
            && alive <= C.Kept(sp, C.RootTargets(sp, r))
            && (alive == C.Kept(sp, C.RootTargets(sp, r)) <==> C.RootTargets(sp, r) <= alive && OthersAreLed(sp, alive))
  {
    hide Headers, Tiled, C.Kept, Reachable, Good, OthersAreLed, Roots.Targets, C.RootTargets, WellFormed;
    var alive := Alive(sp.classOf, sp.m0, sp.lo, sp.free, r);
    MarkedTargets(sp, r);
    MoreRootsReachMore(sp, r.Targets(sp.m0, sp.lo, sp.free), C.RootTargets(sp, r));
    KeepsWhatIsMarked(sp, C.RootTargets(sp, r));
    KeptIsClosed(sp, C.RootTargets(sp, r));
    if C.RootTargets(sp, r) <= alive && OthersAreLed(sp, alive) {
      KeptWithinMarked(sp, r, alive);
    }
  }
}
