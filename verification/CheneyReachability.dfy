/** What the copying collector keeps: the objects that can be reached from its roots. */
module CheneyReachability {
  import opened Cells
  import opened HeapShape
  import opened Marking
  import opened Roots
  import opened TwoSpaces
  import opened CheneyCopying
  import opened CheneyScanning
  import opened CheneyRoots

  /** The objects that the object at h points to. */
  ghost function Neighbours(sp: Spaces, h: nat): set<int> {
    set s | s in ScanSlots(sp.classOf, sp.m0, h) && s < |sp.m0| && InHeap(sp.lo, sp.hi, PointerAt(sp, h, s)) ::
        HeaderAt(PointerAt(sp, h, s))
  }

  /** h can be reached from the roots in at most n steps. */
  ghost predicate ReachedIn(sp: Spaces, roots: set<nat>, n: nat, h: nat)
    requires Tiled(sp.m0, sp.lo, sp.free)
    decreases n
  {
    if n == 0 then h in roots
    else
      || ReachedIn(sp, roots, n - 1, h)
      || exists g | g in Headers(sp.m0, sp.lo, sp.free) :: ReachedIn(sp, roots, n - 1, g) && h in Neighbours(sp, g)
  }

  /** The spaces, with no decision taken about what may be kept. */
  function Undecided(sp: Spaces): Spaces {
    sp.(reachable := {})
  }

  /** All objects that can be reached from the roots. */
  ghost function Kept(sp: Spaces, roots: set<nat>): set<nat>
    requires Tiled(sp.m0, sp.lo, sp.free)
  {
    set h | h in Headers(sp.m0, sp.lo, sp.free) && exists n: nat :: ReachedIn(Undecided(sp), roots, n, h)
  }

  /** A collection that may keep the given objects. */
  function Keeping(sp: Spaces, objects: set<nat>): Spaces {
    sp.(reachable := objects)
  }

  lemma KeepingIsGood(sp: Spaces, objects: set<nat>)
    requires Good(sp)
    ensures Good(Keeping(sp, objects)) && Tiled(sp.m0, sp.lo, sp.free)
  {
    hide ScanSlots, Fits, NoDuplicates;
    var sp' := Keeping(sp, objects);
    forall h | h in Headers(sp.m0, sp.lo, sp.free)
      ensures Copyable(sp', h)
    {
      assert Copyable(sp, h);
      forall s | s in ScanSlots(sp.classOf, sp.m0, h)
        ensures PointsToObject(sp', if IsMonitorSlot(sp.m0, h, s) then Untagged(sp.m0[s]) else sp.m0[s])
      {
        assert PointsToObject(sp, if IsMonitorSlot(sp.m0, h, s) then Untagged(sp.m0[s]) else sp.m0[s]);
      }
    }
  }

  /** What an object of the space points to is an object of the space. */
  lemma SuccessorIsObject(sp: Spaces, h: nat, c: int)
    requires Good(sp) && Tiled(sp.m0, sp.lo, sp.free) && h in Headers(sp.m0, sp.lo, sp.free) && c in Neighbours(sp, h)
    ensures c in Headers(sp.m0, sp.lo, sp.free)
  {
    hide Fits, NoDuplicates, Headers, Tiled, ScanSlots, Apart;
    var s :| s in ScanSlots(sp.classOf, sp.m0, h) && s < |sp.m0| && InHeap(sp.lo, sp.hi, PointerAt(sp, h, s))
      && c == HeaderAt(PointerAt(sp, h, s));
    assert Copyable(sp, h);
  }

  /** Everything that an object of the set points to is in the set. */
  ghost predicate Leading(sp: Spaces, objects: set<nat>)
    requires Tiled(sp.m0, sp.lo, sp.free)
  {
    forall h, c | h in objects && h in Headers(sp.m0, sp.lo, sp.free) && c in Neighbours(sp, h) :: c in objects
  }

  lemma LeadingIsClosed(sp: Spaces, objects: set<nat>)
    requires Good(sp) && Tiled(sp.m0, sp.lo, sp.free) && Leading(sp, objects)
    ensures IsClosed(Keeping(sp, objects))
  {
    hide ScanSlots, Good, Headers, Tiled;
    KeepingIsGood(sp, objects);
    var sp' := Keeping(sp, objects);
    forall h, s | h in objects && h in Headers(sp.m0, sp.lo, sp.free) && s in ScanSlots(sp.classOf, sp.m0, h)
      && s < |sp.m0|
      ensures HasCopy(sp', map x | x in sp'.reachable :: 0, PointerAt(sp', h, s))
    {
      ClosedAt(sp, objects, h, s);
    }
  }

  lemma ClosedAt(sp: Spaces, objects: set<nat>, h: nat, s: nat)
    requires Good(sp) && Tiled(sp.m0, sp.lo, sp.free) && Leading(sp, objects)
    requires h in objects && h in Headers(sp.m0, sp.lo, sp.free) && s in ScanSlots(sp.classOf, sp.m0, h) && s < |sp.m0|
    ensures HasCopy(Keeping(sp, objects), map x | x in objects :: 0, PointerAt(sp, h, s))
  {
    hide ScanSlots, Headers, Tiled, Fits, NoDuplicates, Apart;
    var v := PointerAt(sp, h, s);
    HeapAligned(sp.lo, sp.hi, v);
    assert Copyable(sp, h);
    if InHeap(sp.lo, sp.hi, v) {
      assert HeaderAt(v) in Neighbours(sp, h);
      assert Untagged(v) == v;
    }
  }

  lemma KeptIsLeading(sp: Spaces, roots: set<nat>)
    requires Good(sp) && Tiled(sp.m0, sp.lo, sp.free) && roots <= Headers(sp.m0, sp.lo, sp.free)
    ensures roots <= Kept(sp, roots) && Leading(sp, Kept(sp, roots))
  {
    hide Good, Headers, Tiled, Neighbours;
    var sp0 := Undecided(sp);
    forall h | h in roots
      ensures h in Kept(sp, roots)
    {
      assert ReachedIn(sp0, roots, 0, h);
    }
    forall h, c | h in Kept(sp, roots) && h in Headers(sp.m0, sp.lo, sp.free) && c in Neighbours(sp, h)
      ensures c in Kept(sp, roots)
    {
      var n: nat :| ReachedIn(sp0, roots, n, h);
      SuccessorIsObject(sp, h, c);
      SameSuccessors(sp, sp0, h);
      assert ReachedIn(sp0, roots, n + 1, c);
    }
  }

  lemma SameSuccessors(sp: Spaces, sp': Spaces, h: nat)
    requires sp' == sp.(reachable := sp'.reachable)
    ensures Neighbours(sp, h) == Neighbours(sp', h)
  {
    hide ScanSlots;
  }

  lemma {:induction false} ReachedAreIn(sp: Spaces, roots: set<nat>, objects: set<nat>, n: nat, h: nat)
    requires Tiled(sp.m0, sp.lo, sp.free) && roots <= objects && Leading(sp, objects)
    requires ReachedIn(Undecided(sp), roots, n, h)
    ensures h in objects
    decreases n
  {
    hide Headers, Tiled, Neighbours;
    if n > 0 {
      if ReachedIn(Undecided(sp), roots, n - 1, h) {
        ReachedAreIn(sp, roots, objects, n - 1, h);
      } else {
        var g :| g in Headers(sp.m0, sp.lo, sp.free) && ReachedIn(Undecided(sp), roots, n - 1, g)
          && h in Neighbours(Undecided(sp), g);
        ReachedAreIn(sp, roots, objects, n - 1, g);
        SameSuccessors(sp, Undecided(sp), g);
      }
    }
  }

  /** The reachable objects are the least set that contains the roots and everything its objects point to. */
  lemma KeptIsLeast(sp: Spaces, roots: set<nat>, objects: set<nat>)
    requires Tiled(sp.m0, sp.lo, sp.free) && roots <= objects && Leading(sp, objects)
    ensures Kept(sp, roots) <= objects
  {
    hide Headers, Tiled, Neighbours;
    forall h | h in Kept(sp, roots)
      ensures h in objects
    {
      var n: nat :| ReachedIn(Undecided(sp), roots, n, h);
      ReachedAreIn(sp, roots, objects, n, h);
    }
  }

  /** The object pointers that the roots hold. */
  ghost predicate IsRootPointer(r: Roots, v: Cell) {
    || (exists i | 0 <= i < |r.globals| :: VariableAt(r.variables, r.globals[i]) == v)
    || (exists i | 0 <= i < |r.temporaries| :: TemporaryValue(r.variables, r.temporaries[i]) == v)
    || (exists i | 0 <= i < |r.monitors| :: MonitorPointer(r, i) == v)
  }

  /** The objects that the roots point to. */
  ghost function RootTargets(sp: Spaces, r: Roots): set<nat>
    requires Tiled(sp.m0, sp.lo, sp.free)
  {
    set h | h in Headers(sp.m0, sp.lo, sp.free) && IsRootTarget(sp, r, h)
  }

  ghost predicate IsRootTarget(sp: Spaces, r: Roots, h: nat) {
    exists v: Cell :: IsRootPointer(r, v) && InHeap(sp.lo, sp.hi, v) && HeaderAt(v) == h
  }

  /**
   * The roots that a collection starts from: what they point to in the space are objects, and no variable is a root
   * twice.
   */
  ghost predicate WellRooted(sp: Spaces, r: Roots)
    requires Tiled(sp.m0, sp.lo, sp.free)
  {
    r.Distinct() && forall v: Cell | IsRootPointer(r, v) :: PointsToObject(sp, v)
  }

  /** The decision to keep what can be reached. */
  ghost function KeepingReachable(sp: Spaces, r: Roots): Spaces
    requires Tiled(sp.m0, sp.lo, sp.free)
  {
    Keeping(sp, Kept(sp, RootTargets(sp, r)))
  }

  lemma RootMayBeFollowed(sp: Spaces, r: Roots, v: Cell)
    requires Good(sp) && Tiled(sp.m0, sp.lo, sp.free) && WellRooted(sp, r) && IsRootPointer(r, v)
    ensures MayFollow(KeepingReachable(sp, r), v)
  {
    hide Good, Headers, Tiled, Roots.Distinct, IsRootPointer, Neighbours, ReachedIn;
    var targets := RootTargets(sp, r);
    KeepingIsGood(sp, Kept(sp, targets));
    if InHeap(sp.lo, sp.hi, v) {
      assert PointsToObject(sp, v);
      ObjectBounds(sp, HeaderAt(v));
      assert IsRootTarget(sp, r, HeaderAt(v));
      assert ReachedIn(Undecided(sp), targets, 0, HeaderAt(v)) by {
        RootIsReached(sp, targets, HeaderAt(v));
      }
    }
  }

  lemma RootIsReached(sp: Spaces, roots: set<nat>, h: nat)
    requires Tiled(sp.m0, sp.lo, sp.free) && h in roots
    ensures ReachedIn(Undecided(sp), roots, 0, h)
  {
  }

  /** A collection can keep exactly what can be reached. */
  lemma CollectionMayStart(sp: Spaces, r: Roots)
    requires Good(sp) && Tiled(sp.m0, sp.lo, sp.free) && WellRooted(sp, r)
    ensures GoodRoots(KeepingReachable(sp, r), r) && IsClosed(KeepingReachable(sp, r))
  {
    var targets := RootTargets(sp, r);
    assert targets <= Headers(sp.m0, sp.lo, sp.free) && r.Distinct();
    KeptIsLeading(sp, targets);
    LeadingIsClosed(sp, Kept(sp, targets));
    hide Good, Headers, Tiled, Kept, MayFollow, RootTargets, IsClosed, Roots.Distinct, WellRooted;
    forall v: Cell | IsRootPointer(r, v)
      ensures MayFollow(KeepingReachable(sp, r), v)
    {
      RootMayBeFollowed(sp, r, v);
    }
  }

  /** After copying, every root target has a copy. */
  lemma RootTargetsCopied(sp: Spaces, p: Progress, r2: Roots, r: Roots)
    requires Tiled(sp.m0, sp.lo, sp.free) && WellRooted(sp, r)
    requires RootsForwarded(r2, r, sp, p.where, |r.globals|, |r.temporaries|, |r.monitors|)
    ensures RootTargets(sp, r) <= p.where.Keys
  {
    hide Headers, Tiled, Forwarded, Rebased, IsUntouched, Roots.Distinct;
    forall h | h in RootTargets(sp, r)
      ensures h in p.where
    {
      var v: Cell :| IsRootPointer(r, v) && InHeap(sp.lo, sp.hi, v) && HeaderAt(v) == h;
      assert PointsToObject(sp, v);
      assert Untagged(v) == v;
      if i :| 0 <= i < |r.globals| && VariableAt(r.variables, r.globals[i]) == v {
        assert GlobalMoved(r2, r, sp, p.where, i);
      } else if i :| 0 <= i < |r.temporaries| && TemporaryValue(r.variables, r.temporaries[i]) == v {
        assert CheneyRoots.TemporaryMoved(r2, r, sp, p.where, i);
      } else {
        var i :| 0 <= i < |r.monitors| && MonitorPointer(r, i) == v;
        assert MonitorMoved(r2, r, sp, p.where, i);
      }
    }
  }

  /** Once every copy has been scanned, everything that a copied object points to has been copied. */
  lemma CopiedIsLeading(m: seq<Cell>, sp: Spaces, p: Progress)
    requires Copied(m, sp, p) && Scanned(sp, p, |p.order|) && Tiled(sp.m0, sp.lo, sp.free)
    ensures Leading(sp, p.where.Keys)
  {
    hide ScanSlots, Headers, Tiled, NewSpace, OldSpace, IsOfScanned, IsLinkOfScanned, Good, Total;
    CopiedFacts(m, sp, p);
    forall h, c | h in p.where.Keys && h in Headers(sp.m0, sp.lo, sp.free) && c in Neighbours(sp, h)
      ensures c in p.where.Keys
    {
      var s :| s in ScanSlots(sp.classOf, sp.m0, h) && s < |sp.m0| && InHeap(sp.lo, sp.hi, PointerAt(sp, h, s))
        && c == HeaderAt(PointerAt(sp, h, s));
      assert h in Elements(p.order);
      var i :| 0 <= i < |p.order| && p.order[i] == h;
      assert s in p.done && HasCopy(sp, p.where, sp.m0[s]);
      SuccessorAligned(sp, h, s);
    }
  }

  lemma SuccessorAligned(sp: Spaces, h: nat, s: nat)
    requires Good(sp) && Tiled(sp.m0, sp.lo, sp.free) && h in Headers(sp.m0, sp.lo, sp.free)
    requires s in ScanSlots(sp.classOf, sp.m0, h) && s < |sp.m0| && InHeap(sp.lo, sp.hi, PointerAt(sp, h, s))
    ensures Untagged(sp.m0[s]) == PointerAt(sp, h, s)
  {
    hide ScanSlots, Headers, Tiled, Fits, NoDuplicates, Apart;
    assert Copyable(sp, h);
    assert PointsToObject(sp, PointerAt(sp, h, s));
  }

  /** What has been copied is exactly what can be reached from the roots. */
  lemma CopiedIsReachable(m: seq<Cell>, sp0: Spaces, sp: Spaces, p: Progress, r2: Roots, r: Roots)
    requires Good(sp0) && Tiled(sp0.m0, sp0.lo, sp0.free) && WellRooted(sp0, r) && sp == KeepingReachable(sp0, r)
    requires Copied(m, sp, p) && Scanned(sp, p, |p.order|)
    requires RootsForwarded(r2, r, sp, p.where, |r.globals|, |r.temporaries|, |r.monitors|)
    ensures p.where.Keys == Kept(sp0, RootTargets(sp0, r))
  {
    hide Headers, Tiled, Copied, Scanned, Good, Roots.Distinct, RootsForwarded, Neighbours, ReachedIn, IsRootPointer;
    CopiedFacts(m, sp, p);
    var objects := p.where.Keys;
    SameTargets(sp, sp0, r);
    RootTargetsCopied(sp, p, r2, r);
    CopiedIsLeading(m, sp, p);
    forall h, c | h in objects && h in Headers(sp0.m0, sp0.lo, sp0.free) && c in Neighbours(sp0, h)
      ensures c in objects
    {
      SameSuccessors(sp, sp0, h);
    }
    KeptIsLeast(sp0, RootTargets(sp0, r), objects);
  }

  lemma SameTargets(sp: Spaces, sp0: Spaces, r: Roots)
    requires Tiled(sp0.m0, sp0.lo, sp0.free) && sp == sp0.(reachable := sp.reachable) && WellRooted(sp0, r)
    ensures WellRooted(sp, r) && RootTargets(sp, r) == RootTargets(sp0, r)
  {
    hide Headers, Tiled, IsRootPointer, Roots.Distinct;
    forall v: Cell | IsRootPointer(r, v)
      ensures PointsToObject(sp, v)
    {
      assert PointsToObject(sp0, v);
    }
    forall h | h in Headers(sp.m0, sp.lo, sp.free)
      ensures IsRootTarget(sp, r, h) == IsRootTarget(sp0, r, h)
    {
    }
  }
}
