/**
 * Which classes of weak references are safe: with both collectors exactly those whose only pointer field is the
 * referent.
 */
module WeakReferenceClasses {
  import opened Cells
  import opened FreeList
  import opened Objects
  import opened HeapShape
  import opened HeapUpdate
  import opened Marking
  import opened Reachability
  import opened Roots
  import opened WeakPointers
  import opened Tracing
  import opened TwoSpaces
  import opened CheneyScanning
  import CheneyCopying
  import HeapObjects
  import opened CheneyWeak
  import opened CheneyAfter
  import CollectionTheorems
  import M = Collecting
  import N = CheneyNext
  import C = CheneyReachability

  /** The class has no pointer field besides the referent. */
  predicate OnlyReferent(clazz: Class) {
    forall d | d in InstanceOffsets(clazz) :: d == 0
  }

  /** A class of weak references with instances that fit into a heap. */
  predicate IsReferenceClass(clazz: Class) {
    0 in InstanceOffsets(clazz) && 2 * InstanceSize(clazz) + 8 <= MAX_CELLS
  }

  /** The size of an instance: its class, its monitor cell, and its fields, of which there are two at least. */
  function InstanceSize(clazz: Class): nat {
    var extent := Extent(InstanceOffsets(clazz));
    if extent < 2 then 4 else 2 + extent
  }

  /** All weak references in [lo, hi) are of the given classes. */
  ghost predicate UsesOnly(m: seq<Cell>, lo: nat, hi: nat, classes: set<Cell>)
    requires Tiled(m, lo, hi)
  {
    forall h | h in Headers(m, lo, hi) && h + 1 < |m| && KindOf(m[h]) == GCT_WEAKREFERENCE :: m[h + 1] in classes
  }

  /**
   * Cell s of the object at h holds a pointer through which a program can go on. Threads and monitors have pointers of
   * their own that the marker does not take from there; weak pointers are another matter, and so are the addresses of
   * the threads that have locked an object (LockOwners.LocksFollowIff).
   */
  predicate IsReferenceCell(classOf: Cell -> Class, m: seq<Cell>, h: nat, s: nat) {
    && h < |m| && s < |m| && s in PointerSlots(classOf, m, h) && !IsWeakSlot(m, h, s)
    && KindOf(m[h]) != GCT_THREAD && KindOf(m[h]) != GCT_MONITOR
    && (HasMonitorCell(KindOf(m[h])) && s == h + 2 ==> m[s] % CELL == MHC_MONITOR)
  }

  /** What a live object leads to is kept by the marking collector. */
  ghost predicate FieldsKept(classOf: Cell -> Class, m: seq<Cell>, lo: nat, hi: nat, r: Roots)
    requires Tiled(m, lo, hi)
  {
    forall h, s: nat | h in Alive(classOf, m, lo, hi, r) && s < |m| && IsReferenceCell(classOf, m, h, s)
      && InHeap(lo, hi, m[s]) ::
      HeaderAt(m[s]) in Alive(classOf, m, lo, hi, r)
  }

  lemma OnlyReferentSlot(clazz: Class, h: nat, s: nat)
    requires OnlyReferent(clazz) && s in SlotsAt(h + 3, InstanceOffsets(clazz))
    ensures s == h + 3
  {
    var offsets := InstanceOffsets(clazz);
    var i :| 0 <= i < |offsets| && SlotsAt(h + 3, offsets)[i] == s;
    assert offsets[i] in offsets;
  }

  lemma ReferenceCellIsStrong(classOf: Cell -> Class, m: seq<Cell>, h: nat, s: nat)
    requires Fits(classOf, m, h) && IsReferenceCell(classOf, m, h, s)
    requires KindOf(m[h]) == GCT_WEAKREFERENCE ==> OnlyReferent(classOf(m[h + 1]))
    ensures h + 1 < |m| && (KindOf(m[h]) == GCT_OBJECTARRAY ==> h + 3 < |m|)
    ensures s in StrongSlots(classOf, m, h) || (s == h + 2 && HasRealMonitor(m, h))
  {
    hide KindOf;
    var kind := KindOf(m[h]);
    if kind == GCT_INSTANCE || kind == GCT_WEAKREFERENCE {
      var offsets := InstanceOffsets(classOf(m[h + 1]));
      assert s in MonitorSlot(m, h) || s in SlotsAt(h + 3, offsets);
      if s in SlotsAt(h + 3, offsets) && kind == GCT_WEAKREFERENCE {
        OnlyReferentSlot(classOf(m[h + 1]), h, s);
      }
    } else if kind == GCT_OBJECTARRAY {
      assert s in MonitorSlot(m, h) || s in Range(h + 4, m[h + 3]);
    }
  }

  lemma RealMonitorInHeap(m: seq<Cell>, lo: nat, hi: nat, h: nat)
    requires h < |m| && HasRealMonitor(m, h)
    ensures InHeap(lo, hi, m[h + 2]) <==> InHeap(lo, hi, MonitorOf(m, h))
    ensures HeaderAt(m[h + 2]) == HeaderAt(MonitorOf(m, h))
  {
  }

  lemma KeptField(classOf: Cell -> Class, m: seq<Cell>, lo: nat, hi: nat, alive: set<nat>, h: nat, s: nat)
    requires Followed(Start(classOf, m, lo, hi, {}), alive, alive) && h in alive && s < |m|
    requires IsReferenceCell(classOf, m, h, s) && InHeap(lo, hi, m[s])
    requires h < |m| && KindOf(m[h]) == GCT_WEAKREFERENCE && h + 1 < |m| ==> OnlyReferent(classOf(m[h + 1]))
    ensures HeaderAt(m[s]) in alive
  {
    hide IsReferenceCell, KindOf, StrongSlots, Fits, WellFormed, Sound, OnlyReferent, HasRealMonitor;
    var g := Start(classOf, m, lo, hi, {});
    assert InUse(g, h) && Leads(g, h) <= alive;
    ReferenceCellIsStrong(classOf, m, h, s);
    if s in StrongSlots(classOf, m, h) {
      assert HeaderAt(m[s]) in Leads(g, h);
    } else {
      RealMonitorInHeap(m, lo, hi, h);
      assert HeaderAt(m[s]) in Leads(g, h);
    }
  }

  lemma AliveIsFollowed(classOf: Cell -> Class, m: seq<Cell>, lo: nat, hi: nat, r: Roots)
    requires M.Ready(classOf, m, lo, hi, r) && Tiled(m, lo, hi)
    ensures Followed(Start(classOf, m, lo, hi, {}), Alive(classOf, m, lo, hi, r), Alive(classOf, m, lo, hi, r))
    ensures Alive(classOf, m, lo, hi, r) <= Headers(m, lo, hi)
  {
    hide Tiled, Headers, ReachedIn, LaidOut, Roots.Distinct, Roots.HasValue, InUse, WellFormed, Leads;
    CollectionTheorems.WellFormedAtRest(classOf, m, lo, hi);
    var g := Start(classOf, m, lo, hi, {});
    forall h | h in r.Targets(m, lo, hi)
      ensures InUse(g, h)
    {
      TargetInUse(g, r, h);
    }
    ReachableIsClosed(g, r.Targets(m, lo, hi));
  }

  /** With such classes only, everything is kept. */
  lemma SafeClassesKeep(classOf: Cell -> Class, m: seq<Cell>, lo: nat, hi: nat, r: Roots, classes: set<Cell>)
    requires M.Ready(classOf, m, lo, hi, r) && Tiled(m, lo, hi) && UsesOnly(m, lo, hi, classes)
    requires forall c | c in classes :: OnlyReferent(classOf(c))
    ensures FieldsKept(classOf, m, lo, hi, r)
  {
    hide Tiled, Headers, M.Ready, IsReferenceCell, KindOf, OnlyReferent, Alive, Followed;
    AliveIsFollowed(classOf, m, lo, hi, r);
    forall h, s: nat | h in Alive(classOf, m, lo, hi, r) && s < |m| && IsReferenceCell(classOf, m, h, s)
      && InHeap(lo, hi, m[s])
      ensures HeaderAt(m[s]) in Alive(classOf, m, lo, hi, r)
    {
      KeptField(classOf, m, lo, hi, Alive(classOf, m, lo, hi, r), h, s);
    }
  }

  /**
   * A weak reference at 1, of class c, whose field at offset d leads to the only other object; room for a second space.
   */
  function Sample(c: Cell, size: nat, d: nat): (m: seq<Cell>)
    requires 4 <= size && 2 * size + 8 <= MAX_CELLS && d + 3 <= size
    ensures |m| == 2 * size + 8
  {
    seq(2 * size + 8, i requires 0 <= i => SampleCell(c, size, d, i))
  }

  function SampleCell(c: Cell, size: nat, d: nat, i: nat): Cell
    requires 4 <= size && 2 * size + 8 <= MAX_CELLS
  {
    if i == 1 then HeaderOf(size, GCT_WEAKREFERENCE)
    else if i == 2 then c
    else if i == 4 + d then CELL * (size + 3)
    else if i == size + 2 then HeaderOf(1, GCT_NOPOINTERS)
    else 0
  }

  /** A variable that holds the weak reference. */
  function Variables(): Roots {
    Roots([8], [0], [], [])
  }

  /** What is needed of the sample. */
  ghost predicate IsSample(m: seq<Cell>, c: Cell, size: nat, d: nat) {
    && 4 <= size && 2 * size + 8 <= MAX_CELLS && d != 0 && d + 3 <= size && |m| == 2 * size + 8
    && SizeOf(m[1]) == size && KindOf(m[1]) == GCT_WEAKREFERENCE && !IsMarked(m[1])
    && m[2] == c && m[3] == 0 && m[4] == 0 && m[4 + d] == CELL * (size + 3)
    && SizeOf(m[size + 2]) == 1 && KindOf(m[size + 2]) == GCT_NOPOINTERS && !IsMarked(m[size + 2])
  }

  lemma SampleFacts(c: Cell, size: nat, d: nat)
    requires 4 <= size && 2 * size + 8 <= MAX_CELLS && d != 0 && d + 3 <= size
    ensures IsSample(Sample(c, size, d), c, size, d)
  {
    hide SizeOf, KindOf, IsMarked, HeaderOf;
    HeapObjects.HeaderOfFacts(size, GCT_WEAKREFERENCE);
    HeapObjects.HeaderOfFacts(1, GCT_NOPOINTERS);
  }

  lemma SampleLayout(m: seq<Cell>, c: Cell, size: nat, d: nat)
    requires IsSample(m, c, size, d)
    ensures Next(m, 1) == size + 2 && Next(m, size + 2) == size + 4
    ensures Tiled(m, 1, size + 4) && Headers(m, 1, size + 4) == {1, size + 2}
  {
    hide SizeOf, KindOf, IsMarked;
    assert Tiled(m, size + 4, size + 4) && Headers(m, size + 4, size + 4) == {};
    assert Tiled(m, size + 2, size + 4) && Headers(m, size + 2, size + 4) == {size + 2} + {};
    assert Headers(m, 1, size + 4) == {1} + Headers(m, size + 2, size + 4);
  }

  /** The class fits the sample. */
  ghost predicate SuitsSample(classOf: Cell -> Class, c: Cell, size: nat, d: nat) {
    var offsets := InstanceOffsets(classOf(c));
    LaidOut(classOf) && 0 in offsets && d in offsets && 2 + Extent(offsets) <= size
  }

  lemma SampleFits(classOf: Cell -> Class, m: seq<Cell>, c: Cell, size: nat, d: nat)
    requires IsSample(m, c, size, d) && SuitsSample(classOf, c, size, d)
    ensures Fits(classOf, m, 1) && Fits(classOf, m, size + 2) && HasReferent(classOf, m, 1)
    ensures HasReferent(classOf, m, size + 2)
    ensures StrongSlots(classOf, m, 1) == StrongSlots(classOf, m, size + 2) == [] && !HasRealMonitor(m, 1)
    ensures !HasRealMonitor(m, size + 2)
    ensures ScanSlots(classOf, m, 1) == ScanSlots(classOf, m, size + 2) == [] && WeakCells(m, 1) == [4]
    ensures WeakCells(m, size + 2) == []
  {
    hide SizeOf, KindOf, IsMarked, LaidOut;
    SampleLayout(m, c, size, d);
  }

  lemma SampleAtRest(classOf: Cell -> Class, m: seq<Cell>, c: Cell, size: nat, d: nat)
    requires IsSample(m, c, size, d) && SuitsSample(classOf, c, size, d)
    ensures AtRest(classOf, m, 1, size + 4)
  {
    SampleLayout(m, c, size, d);
    SampleFits(classOf, m, c, size, d);
    hide SizeOf, Fits, Tiled, Headers, HasReferent, StrongSlots, HasRealMonitor, SuitsSample, IsMarked;
    assert Sound(classOf, m, 1, size + 4, 1) && Sound(classOf, m, 1, size + 4, size + 2);
    forall h, k: nat | h in Headers(m, 1, size + 4) && IsWeakSlot(m, h, k)
      ensures k < |m| && WeakPointer(m, 1, size + 4, m[k])
    {
    }
  }

  lemma RootsLeadToIt(v: Cell)
    ensures Variables().HasValue(v) <==> v == 8
    ensures C.IsRootPointer(Variables(), v) <==> v == 8
  {
    var r := Variables();
    assert VariableAt(r.variables, r.globals[0]) == 8;
    if v == 8 {
      assert r.HasGlobal(1, v);
    }
  }

  lemma SampleReady(classOf: Cell -> Class, m: seq<Cell>, c: Cell, size: nat, d: nat)
    requires IsSample(m, c, size, d) && SuitsSample(classOf, c, size, d)
    ensures M.Ready(classOf, m, 1, size + 4, Variables())
  {
    SampleLayout(m, c, size, d);
    SampleAtRest(classOf, m, c, size, d);
    hide SizeOf, AtRest, Tiled, Headers, IsMarked, LaidOut, Roots.HasValue;
    forall v: Cell | Variables().HasValue(v)
      ensures PointsWell(m, 1, size + 4, v)
    {
      RootsLeadToIt(v);
    }
    assert Variables().Distinct();
  }

  lemma OnlyTarget(m: seq<Cell>, hi: nat)
    requires Tiled(m, 1, hi) && 1 in Headers(m, 1, hi) && 2 < hi && |m| <= MAX_CELLS
    ensures Variables().Targets(m, 1, hi) == {1}
  {
    HeaderBounds(m, 1, hi, 1);
    hide Tiled, Headers, Roots.HasValue;
    var r := Variables();
    RootsLeadToIt(8);
    assert r.IsTarget(1, hi, 1);
    forall h: nat | r.IsTarget(1, hi, h)
      ensures h == 1
    {
      var w: Cell :| r.HasValue(w) && InHeap(1, hi, w) && HeaderAt(w) == h;
      RootsLeadToIt(w);
    }
  }

  /** The marking collector keeps only the weak reference. */
  lemma OnlyTheReferenceIsAlive(classOf: Cell -> Class, m: seq<Cell>, c: Cell, size: nat, d: nat)
    requires IsSample(m, c, size, d) && SuitsSample(classOf, c, size, d)
    ensures M.Ready(classOf, m, 1, size + 4, Variables()) && Tiled(m, 1, size + 4)
    ensures Alive(classOf, m, 1, size + 4, Variables()) == {1}
  {
    SampleReady(classOf, m, c, size, d);
    SampleLayout(m, c, size, d);
    SampleFits(classOf, m, c, size, d);
    hide IsSample, SuitsSample, Tiled, Headers, ReachedIn, AtRest, LaidOut, Roots.Sound, Roots.Distinct,
      Roots.HasValue, Fits, StrongSlots, HasRealMonitor;
    SampleSize(m, c, size, d);
    OnlyTarget(m, size + 4);
    CollectionTheorems.WellFormedAtRest(classOf, m, 1, size + 4);
    var g := Start(classOf, m, 1, size + 4, {});
    TargetInUse(g, Variables(), 1);
    assert Leads(g, 1) == {};
    assert Followed(g, {1}, {1});
    ReachableIsLeast(g, {1}, {1});
    ReachableIsClosed(g, {1});
  }

  lemma DanglingCell(classOf: Cell -> Class, m: seq<Cell>, c: Cell, size: nat, d: nat)
    requires IsSample(m, c, size, d) && SuitsSample(classOf, c, size, d)
    ensures 4 + d in PointerSlots(classOf, m, 1) && 4 + d < |m| && IsReferenceCell(classOf, m, 1, 4 + d)
    ensures 4 + d !in WeakCells(m, 1)
    ensures m[4 + d] % CELL == 0 && InHeap(1, size + 4, m[4 + d]) && HeaderAt(m[4 + d]) == size + 2
  {
    hide SizeOf, KindOf, IsMarked, LaidOut;
    var offsets := InstanceOffsets(classOf(c));
    var i :| 0 <= i < |offsets| && offsets[i] == d;
    assert SlotsAt(4, offsets)[i] == 4 + d;
  }

  lemma SampleUses(m: seq<Cell>, c: Cell, size: nat, d: nat, classes: set<Cell>)
    requires IsSample(m, c, size, d) && c in classes
    ensures Tiled(m, 1, size + 4) && UsesOnly(m, 1, size + 4, classes)
  {
    SampleLayout(m, c, size, d);
    hide Tiled, Headers, SizeOf;
  }

  lemma SampleLoses(classOf: Cell -> Class, m: seq<Cell>, c: Cell, size: nat, d: nat)
    requires IsSample(m, c, size, d) && SuitsSample(classOf, c, size, d)
    ensures Tiled(m, 1, size + 4) && !FieldsKept(classOf, m, 1, size + 4, Variables())
  {
    hide IsSample, SuitsSample, Tiled, Headers, M.Ready, IsReferenceCell, Alive, Variables, FieldsKept, PointerSlots,
      WeakCells, InHeap;
    OnlyTheReferenceIsAlive(classOf, m, c, size, d);
    DanglingCell(classOf, m, c, size, d);
    SampleSize(m, c, size, d);
    LostField(classOf, m, 1, size + 4, Variables(), 1, 4 + d);
  }

  /** A class with another pointer field has an instance in some heap for which that field is lost. */
  lemma UnsafeClassLoses(classOf: Cell -> Class, c: Cell, classes: set<Cell>) returns (m: seq<Cell>, hi: nat)
    requires LaidOut(classOf) && IsReferenceClass(classOf(c)) && c in classes && !OnlyReferent(classOf(c))
    ensures M.Ready(classOf, m, 1, hi, Variables()) && Tiled(m, 1, hi) && UsesOnly(m, 1, hi, classes)
    ensures !FieldsKept(classOf, m, 1, hi, Variables())
  {
    hide IsSample, SuitsSample, Tiled, Headers, M.Ready, LaidOut, UsesOnly, IsReferenceClass, OnlyReferent, Variables,
      FieldsKept;
    var d, size;
    m, size, d := SampleFor(classOf, c);
    hi := size + 4;
    SampleReady(classOf, m, c, size, d);
    SampleLoses(classOf, m, c, size, d);
    SampleUses(m, c, size, d, classes);
  }

  lemma LostField(classOf: Cell -> Class, m: seq<Cell>, lo: nat, hi: nat, r: Roots, h: nat, s: nat)
    requires Tiled(m, lo, hi) && h in Alive(classOf, m, lo, hi, r) && s < |m| && IsReferenceCell(classOf, m, h, s)
    requires InHeap(lo, hi, m[s]) && HeaderAt(m[s]) !in Alive(classOf, m, lo, hi, r)
    ensures !FieldsKept(classOf, m, lo, hi, r)
  {
    hide Tiled, Alive, IsReferenceCell;
  }

  lemma SampleSize(m: seq<Cell>, c: Cell, size: nat, d: nat)
    requires IsSample(m, c, size, d)
    ensures 4 <= size && 4 + d < |m| == 2 * size + 8 <= MAX_CELLS
  {
  }

  lemma SampleFor(classOf: Cell -> Class, c: Cell) returns (m: seq<Cell>, size: nat, d: nat)
    requires LaidOut(classOf) && IsReferenceClass(classOf(c)) && !OnlyReferent(classOf(c))
    ensures IsSample(m, c, size, d) && SuitsSample(classOf, c, size, d)
  {
    hide LaidOut, SampleCell;
    var offsets := InstanceOffsets(classOf(c));
    d :| d in offsets && d != 0;
    size := InstanceSize(classOf(c));
    var i :| 0 <= i < |offsets| && offsets[i] == d;
    ExtentBounds(offsets, i);
    m := Sample(c, size, d);
    SampleFacts(c, size, d);
  }

  /**
   * The marking collector keeps what the fields of live objects lead to, in every heap with weak references of the
   * given classes, exactly if none of these classes has a pointer field besides the referent.
   */
  lemma FieldsKeptIff(classOf: Cell -> Class, classes: set<Cell>)
    requires LaidOut(classOf) && forall c | c in classes :: IsReferenceClass(classOf(c))
    ensures (forall c | c in classes :: OnlyReferent(classOf(c)))
            <==> (forall m, lo, hi, r ::
                    M.Ready(classOf, m, lo, hi, r) && Tiled(m, lo, hi) && UsesOnly(m, lo, hi, classes) ==>
                    FieldsKept(classOf, m, lo, hi, r))
  {
    hide LaidOut, IsReferenceClass, OnlyReferent, FieldsKept, UsesOnly, M.Ready, Tiled;
    if forall c | c in classes :: OnlyReferent(classOf(c)) {
      forall m, lo, hi, r | M.Ready(classOf, m, lo, hi, r) && Tiled(m, lo, hi) && UsesOnly(m, lo, hi, classes)
        ensures FieldsKept(classOf, m, lo, hi, r)
      {
        SafeClassesKeep(classOf, m, lo, hi, r, classes);
      }
    } else {
      var c :| c in classes && !OnlyReferent(classOf(c));
      var m, hi := UnsafeClassLoses(classOf, c, classes);
    }
  }

  /**
   * Every pointer of a kept object that is not weak is followed by the copying collector, and what it leads to is kept.
   */
  ghost predicate FieldsFollowed(sp: Spaces, r: Roots)
    requires Tiled(sp.m0, sp.lo, sp.free)
  {
    forall h, s | h in C.Kept(sp, C.RootTargets(sp, r)) && s in PointerSlots(sp.classOf, sp.m0, h) && s < |sp.m0|
      && s !in WeakCells(sp.m0, h)
                  && InHeap(sp.lo, sp.hi, Untagged(sp.m0[s])) ::
      s in ScanSlots(sp.classOf, sp.m0, h) && HeaderAt(Untagged(sp.m0[s])) in C.Kept(sp, C.RootTargets(sp, r))
  }

  /** The space in use has weak references of the given classes only. */
  ghost predicate SpacesUse(sp: Spaces, classOf: Cell -> Class, classes: set<Cell>) {
    sp.classOf == classOf && Tiled(sp.m0, sp.lo, sp.free) && UsesOnly(sp.m0, sp.lo, sp.free, classes)
  }

  lemma SafeSlotIsScanned(sp: Spaces, h: nat, s: nat)
    requires h + 1 < |sp.m0| && s in PointerSlots(sp.classOf, sp.m0, h) && s !in WeakCells(sp.m0, h)
    requires KindOf(sp.m0[h]) == GCT_WEAKREFERENCE ==> OnlyReferent(sp.classOf(sp.m0[h + 1]))
    ensures s in ScanSlots(sp.classOf, sp.m0, h)
  {
    if KindOf(sp.m0[h]) == GCT_WEAKREFERENCE {
      var offsets := InstanceOffsets(sp.classOf(sp.m0[h + 1]));
      assert s in MonitorSlot(sp.m0, h) || s in SlotsAt(h + 3, offsets);
      if s in SlotsAt(h + 3, offsets) {
        OnlyReferentSlot(sp.classOf(sp.m0[h + 1]), h, s);
      }
    }
  }

  lemma FollowedField(sp: Spaces, kept: set<nat>, h: nat, s: nat)
    requires Good(sp) && Tiled(sp.m0, sp.lo, sp.free) && C.Leading(sp, kept) && h in kept
    requires h in Headers(sp.m0, sp.lo, sp.free)
    requires s in ScanSlots(sp.classOf, sp.m0, h) && s < |sp.m0| && InHeap(sp.lo, sp.hi, Untagged(sp.m0[s]))
    ensures HeaderAt(Untagged(sp.m0[s])) in kept
  {
    hide Tiled, Headers, ScanSlots, Good;
    var v := PointerAt(sp, h, s);
    CheneyCopying.HeapAligned(sp.lo, sp.hi, sp.m0[s]);
    assert InHeap(sp.lo, sp.hi, v);
    C.SuccessorAligned(sp, h, s);
    assert HeaderAt(v) in C.Neighbours(sp, h);
  }

  lemma SafeClassesFollowed(sp: Spaces, r: Roots, from: nat, to: nat, classes: set<Cell>)
    requires N.Ready(sp, r, from, to) && Tiled(sp.m0, sp.lo, sp.free) && UsesOnly(sp.m0, sp.lo, sp.free, classes)
    requires forall c | c in classes :: OnlyReferent(sp.classOf(c))
    ensures FieldsFollowed(sp, r)
  {
    hide Tiled, Headers, ScanSlots, Settled, C.Kept, C.Neighbours, KindOf, WeakCells, OnlyReferent, PointerSlots,
      C.RootTargets, C.WellRooted, Copyable;
    TargetsAreObjects(sp, r);
    C.KeptIsLeading(sp, C.RootTargets(sp, r));
    KeptAreObjects(sp, r);
    forall h, s | h in C.Kept(sp, C.RootTargets(sp, r)) && s in PointerSlots(sp.classOf, sp.m0, h) && s < |sp.m0|
      && s !in WeakCells(sp.m0, h)
                  && InHeap(sp.lo, sp.hi, Untagged(sp.m0[s]))
      ensures s in ScanSlots(sp.classOf, sp.m0, h) && HeaderAt(Untagged(sp.m0[s])) in C.Kept(sp, C.RootTargets(sp, r))
    {
      ObjectBounds(sp, h);
      SafeSlotIsScanned(sp, h, s);
      FollowedField(sp, C.Kept(sp, C.RootTargets(sp, r)), h, s);
    }
  }

  lemma TargetsAreObjects(sp: Spaces, r: Roots)
    requires Tiled(sp.m0, sp.lo, sp.free)
    ensures C.RootTargets(sp, r) <= Headers(sp.m0, sp.lo, sp.free)
  {
    hide Headers, Tiled, C.IsRootTarget;
  }

  lemma KeptAreObjects(sp: Spaces, r: Roots)
    requires Tiled(sp.m0, sp.lo, sp.free)
    ensures C.Kept(sp, C.RootTargets(sp, r)) <= Headers(sp.m0, sp.lo, sp.free)
  {
    N.OnlyObjectsAreKept(sp, r);
  }

  function SampleSpaces(classOf: Cell -> Class, m: seq<Cell>, size: nat): Spaces {
    Spaces(classOf, m, 1, size + 4, size + 4, size + 4, {})
  }

  lemma SampleIsGood(classOf: Cell -> Class, m: seq<Cell>, c: Cell, size: nat, d: nat)
    requires IsSample(m, c, size, d) && SuitsSample(classOf, c, size, d)
    ensures Tiled(m, 1, size + 4) && Good(SampleSpaces(classOf, m, size))
    ensures GoodWeakPointers(SampleSpaces(classOf, m, size))
  {
    SampleLayout(m, c, size, d);
    SampleFits(classOf, m, c, size, d);
    hide SizeOf, Fits, Tiled, Headers, SuitsSample, ScanSlots, WeakCells, IsMarked;
    var sp := SampleSpaces(classOf, m, size);
    assert Copyable(sp, 1) && Copyable(sp, size + 2);
    forall h, s | h in Headers(m, 1, size + 4) && s in WeakCells(m, h)
      ensures GoodWeakCell(sp, h, s)
    {
    }
  }

  lemma SampleObjectsSettled(classOf: Cell -> Class, m: seq<Cell>, c: Cell, size: nat, d: nat)
    requires IsSample(m, c, size, d) && SuitsSample(classOf, c, size, d)
    ensures SettledObject(SampleSpaces(classOf, m, size), 1, 2 * size + 7, 1)
    ensures SettledObject(SampleSpaces(classOf, m, size), 1, 2 * size + 7, size + 2)
  {
    SampleFits(classOf, m, c, size, d);
    hide Fits, SuitsSample, ScanSlots, WeakCells, KindOf, IsMarked, SizeOf;
  }

  lemma SampleRooted(classOf: Cell -> Class, m: seq<Cell>, size: nat)
    requires Tiled(m, 1, size + 4) && 1 in Headers(m, 1, size + 4)
    ensures C.WellRooted(SampleSpaces(classOf, m, size), Variables())
    ensures forall v: Cell | C.IsRootPointer(Variables(), v) :: v == 8
  {
    hide Tiled, Headers, C.IsRootPointer;
    forall v: Cell | C.IsRootPointer(Variables(), v)
      ensures PointsToObject(SampleSpaces(classOf, m, size), v) && v == 8
    {
      RootsLeadToIt(v);
    }
    assert Variables().Distinct();
  }

  lemma SampleSettled(classOf: Cell -> Class, m: seq<Cell>, c: Cell, size: nat, d: nat)
    requires IsSample(m, c, size, d) && SuitsSample(classOf, c, size, d)
    ensures N.Ready(SampleSpaces(classOf, m, size), Variables(), 1, 2 * size + 7)
  {
    hide Fits, Tiled, Headers, SuitsSample, ScanSlots, WeakCells, Good, GoodWeakPointers, C.IsRootPointer, KindOf,
      IsMarked, SizeOf, IsSample, SettledObject,
      C.WellRooted, Variables;
    SampleLayout(m, c, size, d);
    SampleIsGood(classOf, m, c, size, d);
    SampleRooted(classOf, m, size);
    SampleObjectsSettled(classOf, m, c, size, d);
    SampleSize(m, c, size, d);
  }

  /** The copying collector keeps only the weak reference. */
  lemma OnlyTheReferenceIsKept(classOf: Cell -> Class, m: seq<Cell>, c: Cell, size: nat, d: nat)
    requires IsSample(m, c, size, d) && SuitsSample(classOf, c, size, d)
    ensures var sp := SampleSpaces(classOf, m, size);
            Tiled(m, 1, size + 4) && C.Kept(sp, C.RootTargets(sp, Variables())) == {1}
  {
    SampleLayout(m, c, size, d);
    SampleFits(classOf, m, c, size, d);
    SampleIsGood(classOf, m, c, size, d);
    hide Fits, Tiled, Headers, SuitsSample, ScanSlots, WeakCells, Good, GoodWeakPointers, C.IsRootPointer, C.Kept,
      KindOf, IsMarked;
    var sp, r := SampleSpaces(classOf, m, size), Variables();
    RootsLeadToIt(8);
    assert C.IsRootTarget(sp, r, 1);
    forall h: nat | C.IsRootTarget(sp, r, h)
      ensures h == 1
    {
      var v: Cell :| C.IsRootPointer(r, v) && InHeap(sp.lo, sp.hi, v) && HeaderAt(v) == h;
      RootsLeadToIt(v);
    }
    assert C.RootTargets(sp, r) == {1};
    assert C.Neighbours(sp, 1) == {};
    C.KeptIsLeast(sp, {1}, {1});
    C.KeptIsLeading(sp, {1});
  }

  lemma SampleNotFollowed(classOf: Cell -> Class, m: seq<Cell>, c: Cell, size: nat, d: nat)
    requires IsSample(m, c, size, d) && SuitsSample(classOf, c, size, d)
    ensures Tiled(m, 1, size + 4) && !FieldsFollowed(SampleSpaces(classOf, m, size), Variables())
  {
    hide IsSample, SuitsSample, Tiled, Headers, C.Kept, PointerSlots, ScanSlots, WeakCells, C.RootTargets, Variables,
      FieldsFollowed, IsReferenceCell, InHeap;
    OnlyTheReferenceIsKept(classOf, m, c, size, d);
    DanglingCell(classOf, m, c, size, d);
    SampleSize(m, c, size, d);
    assert Untagged(m[4 + d]) == m[4 + d];
    UnfollowedField(SampleSpaces(classOf, m, size), Variables(), 1, 4 + d);
  }

  lemma UnsafeClassNotFollowed(classOf: Cell -> Class, c: Cell, classes: set<Cell>) returns (sp: Spaces, to: nat)
    requires LaidOut(classOf) && IsReferenceClass(classOf(c)) && c in classes && !OnlyReferent(classOf(c))
    ensures N.Ready(sp, Variables(), 1, to) && SpacesUse(sp, classOf, classes) && !FieldsFollowed(sp, Variables())
  {
    hide IsSample, SuitsSample, Tiled, Headers, N.Ready, LaidOut, UsesOnly, IsReferenceClass, OnlyReferent, Variables,
      FieldsFollowed;
    var m, size, d := SampleFor(classOf, c);
    sp, to := SampleSpaces(classOf, m, size), 2 * size + 7;
    SampleSettled(classOf, m, c, size, d);
    SampleUses(m, c, size, d, classes);
    SampleNotFollowed(classOf, m, c, size, d);
  }

  lemma UnfollowedField(sp: Spaces, r: Roots, h: nat, s: nat)
    requires Tiled(sp.m0, sp.lo, sp.free) && h in C.Kept(sp, C.RootTargets(sp, r)) && s < |sp.m0|
    requires s in PointerSlots(sp.classOf, sp.m0, h)
    requires s !in WeakCells(sp.m0, h) && InHeap(sp.lo, sp.hi, Untagged(sp.m0[s]))
    requires HeaderAt(Untagged(sp.m0[s])) !in C.Kept(sp, C.RootTargets(sp, r))
    ensures !FieldsFollowed(sp, r)
  {
    hide Tiled, C.Kept, C.RootTargets, PointerSlots, WeakCells, ScanSlots;
  }

  /**
   * The copying collector follows the pointer fields of all objects that it keeps, in every heap with weak references
   * of the given classes, exactly if none of these classes has a pointer field besides the referent.
   */
  lemma FieldsFollowedIff(classOf: Cell -> Class, classes: set<Cell>)
    requires LaidOut(classOf) && forall c | c in classes :: IsReferenceClass(classOf(c))
    ensures (forall c | c in classes :: OnlyReferent(classOf(c)))
            <==> (forall sp: Spaces, r, from, to ::
                    N.Ready(sp, r, from, to) && SpacesUse(sp, classOf, classes) ==> FieldsFollowed(sp, r))
  {
    hide LaidOut, IsReferenceClass, OnlyReferent, FieldsFollowed, UsesOnly, N.Ready, Tiled;
    if forall c | c in classes :: OnlyReferent(classOf(c)) {
      forall sp: Spaces, r, from, to | N.Ready(sp, r, from, to) && SpacesUse(sp, classOf, classes)
        ensures FieldsFollowed(sp, r)
      {
        SafeClassesFollowed(sp, r, from, to, classes);
      }
    } else {
      var c :| c in classes && !OnlyReferent(classOf(c));
      var sp, to := UnsafeClassNotFollowed(classOf, c, classes);
    }
  }
}
