/** The mark phase as a whole: what is marked is what can be reached from the roots, no more and no less. */
module Tracing {
  import opened Cells
  import opened Objects
  import opened HeapShape
  import opened Marking
  import opened Reachability
  import opened Roots
  import opened WeakPointers
  import DeferredObjects

  /** The first field of a weak reference is a pointer, its referent. */
  ghost predicate HasReferent(classOf: Cell -> Class, m: seq<Cell>, h: nat) {
    h + 1 < |m| && (KindOf(m[h]) == GCT_WEAKREFERENCE ==> 0 in InstanceOffsets(classOf(m[h + 1])))
  }

  /** A heap between two collections. */
  ghost predicate AtRest(classOf: Cell -> Class, m: seq<Cell>, lo: nat, hi: nat) {
    && WellFormed(classOf, m, lo, hi) && WeakSound(m, lo, hi)
    && forall h | h in Headers(m, lo, hi) :: h < |m| && !IsMarked(m[h]) && HasReferent(classOf, m, h)
  }

  /** The objects that can be reached from the roots. */
  ghost function Alive(classOf: Cell -> Class, m: seq<Cell>, lo: nat, hi: nat, r: Roots): set<nat>
    requires Tiled(m, lo, hi)
  {
    Reachable(Start(classOf, m, lo, hi, {}), r.Targets(m, lo, hi))
  }

  /** Reachability does not depend on the set of objects that marking is allowed to mark. */
  lemma {:induction false} SameReach(g: Start, g': Start, roots: set<nat>, n: nat, h: nat)
    requires Tiled(g.m0, g.lo, g.hi) && g' == g.(reachable := g'.reachable)
    ensures ReachedIn(g, roots, n, h) == ReachedIn(g', roots, n, h)
    decreases n
  {
    hide InUse, Leads, Headers, Tiled;
    if n > 0 {
      SameReach(g, g', roots, n - 1, h);
      forall p | p in Headers(g.m0, g.lo, g.hi)
        ensures ReachedIn(g, roots, n - 1, p) == ReachedIn(g', roots, n - 1, p) && Leads(g, p) == Leads(g', p)
      {
        SameReach(g, g', roots, n - 1, p);
        SameLeads(g, g', p);
      }
    }
  }

  lemma SameLeads(g: Start, g': Start, h: nat)
    requires g' == g.(reachable := g'.reachable)
    ensures Leads(g, h) == Leads(g', h) && InUse(g, h) == InUse(g', h)
  {
    hide WellFormed, Fits, Sound;
  }

  lemma SameReachable(g: Start, g': Start, roots: set<nat>)
    requires Tiled(g.m0, g.lo, g.hi) && g' == g.(reachable := g'.reachable)
    ensures Reachable(g, roots) == Reachable(g', roots)
  {
    hide ReachedIn, Headers, Tiled;
    forall h, n: nat | h in Headers(g.m0, g.lo, g.hi)
      ensures ReachedIn(g, roots, n, h) == ReachedIn(g', roots, n, h)
    {
      SameReach(g, g', roots, n, h);
    }
  }

  lemma FollowedSame(g: Start, g': Start, objects: set<nat>)
    requires g' == g.(reachable := g'.reachable) && Followed(g, objects, objects)
    ensures Followed(g', objects, objects)
  {
    hide InUse, Leads;
    forall h | h in objects
      ensures InUse(g', h) && Leads(g', h) <= objects
    {
      SameLeads(g, g', h);
    }
  }

  lemma TargetInUse(g: Start, r: Roots, h: nat)
    requires WellFormed(g.classOf, g.m0, g.lo, g.hi) && r.Sound(g.m0, g.lo, g.hi) && h in r.Targets(g.m0, g.lo, g.hi)
    ensures InUse(g, h)
  {
    var v: Cell :| r.HasValue(v) && InHeap(g.lo, g.hi, v) && HeaderAt(v) == h;
    assert PointsWell(g.m0, g.lo, g.hi, v);
    HeaderBounds(g.m0, g.lo, g.hi, h);
  }

  /** Marking may start: the reachable objects are closed, and contain everything that the roots point to. */
  lemma MarkingStarts(g: Start, r: Roots)
    requires WellFormed(g.classOf, g.m0, g.lo, g.hi) && r.Sound(g.m0, g.lo, g.hi)
    requires g.reachable == Alive(g.classOf, g.m0, g.lo, g.hi, r)
    ensures Startable(g) && Reaching(g, r) && r.Targets(g.m0, g.lo, g.hi) <= g.reachable
    ensures g.reachable == Reachable(g, r.Targets(g.m0, g.lo, g.hi))
  {
    var g0 := g.(reachable := {});
    var targets := r.Targets(g.m0, g.lo, g.hi);
    assert 1 <= g.lo && Tiled(g.m0, g.lo, g.hi) && g.hi <= |g.m0| <= MAX_CELLS;
    hide WellFormed, InUse, Leads, Headers, Tiled, ReachedIn, Reachable;
    forall h | h in targets
      ensures InUse(g0, h)
    {
      TargetInUse(g0, r, h);
    }
    ReachableIsClosed(g0, targets);
    FollowedSame(g0, g, g.reachable);
    SameReachable(g0, g, targets);
    forall v: Cell | r.HasValue(v)
      ensures Covered(g, g.reachable, v)
    {
      TargetCovered(g, r, v);
    }
  }

  lemma TargetCovered(g: Start, r: Roots, v: Cell)
    requires 1 <= g.lo && Tiled(g.m0, g.lo, g.hi) && |g.m0| <= MAX_CELLS && r.Sound(g.m0, g.lo, g.hi) && r.HasValue(v)
    ensures Covered(g, r.Targets(g.m0, g.lo, g.hi), v)
  {
    if InHeap(g.lo, g.hi, v) {
      assert PointsWell(g.m0, g.lo, g.hi, v);
      HeaderBounds(g.m0, g.lo, g.hi, HeaderAt(v));
    }
  }

  /** Once everything marked has been followed, everything reachable is marked. */
  lemma MarkingIsComplete(g: Start, m: seq<Cell>, s: State, r: Roots)
    requires Consistent(g, m, s) && s.visited == s.marked && AllCovered(g, r, s.marked)
    requires g.reachable == Reachable(g, r.Targets(g.m0, g.lo, g.hi))
    ensures s.marked == g.reachable
  {
    var targets := r.Targets(g.m0, g.lo, g.hi);
    hide InUse, Leads, Headers, Tiled, Mirrors, Chained, Lists, Reachable, Roots.HasValue, WellFormed;
    assert Tiled(g.m0, g.lo, g.hi) by {
      StartTiled(g);
    }
    forall h | h in targets
      ensures h in s.marked
    {
      var v: Cell :| r.HasValue(v) && InHeap(g.lo, g.hi, v) && HeaderAt(v) == h;
    }
    ReachableIsLeast(g, targets, s.marked);
  }

  lemma StartTiled(g: Start)
    requires Startable(g)
    ensures WellFormed(g.classOf, g.m0, g.lo, g.hi) && Tiled(g.m0, g.lo, g.hi)
    ensures 1 <= g.lo <= g.hi <= |g.m0| <= MAX_CELLS
  {
  }

  /**
   * Marks the heap: afterwards exactly the objects that can be reached from the roots are marked, and the two weak
   * lists hold exactly the reachable weak objects.
   */
  method MarkHeap(mem: array<Cell>, currentHeap: nat, currentHeapEnd: nat, classOf: Cell -> Class, roots: RootSet)
    returns (marker: Marker)
    requires AtRest(classOf, mem[..], currentHeap, currentHeapEnd) && roots.variables != mem
    requires roots.Now().Sound(mem[..], currentHeap, currentHeapEnd) && roots.Now().Distinct()
    modifies mem
    ensures fresh(marker) && marker.mem == mem && Marked(marker.start, mem[..], marker.Now())
    ensures Tiled(old(mem[..]), currentHeap, currentHeapEnd)
    ensures marker.marked == Alive(classOf, old(mem[..]), currentHeap, currentHeapEnd, roots.Now())
    ensures marker.start == Start(classOf, old(mem[..]), currentHeap, currentHeapEnd, marker.marked)
  {
    hide Consistent, WellFormed, Startable, Alive, WeakSound, Roots.Sound, Roots.Distinct, Reaching, AllCovered,
      DeferredObjects.DeferredObjectTable.Valid;
    ghost var m0 := mem[..];
    ghost var alive := AliveOf(classOf, m0, currentHeap, currentHeapEnd, roots.Now());
    ghost var g := Start(classOf, m0, currentHeap, currentHeapEnd, alive);
    MarkingStarts(g, roots.Now());
    marker := new Marker(mem, currentHeap, currentHeapEnd, classOf, {}, alive);
    roots.MarkRootObjects(marker);
    ghost var first := marker.marked;
    marker.MarkNonRootObjects();
    CoveredStill(g, roots.Now(), first, marker.marked);
    MarkingIsComplete(g, mem[..], marker.Now(), roots.Now());
  }

  ghost function AliveOf(classOf: Cell -> Class, m: seq<Cell>, lo: nat, hi: nat, r: Roots): (alive: set<nat>)
    requires WellFormed(classOf, m, lo, hi)
    ensures Tiled(m, lo, hi) && alive == Alive(classOf, m, lo, hi, r)
  {
    Alive(classOf, m, lo, hi, r)
  }

  lemma CoveredStill(g: Start, r: Roots, before: set<nat>, objects: set<nat>)
    requires AllCovered(g, r, before) && before <= objects
    ensures AllCovered(g, r, objects)
  {
    hide Roots.HasValue;
    forall v: Cell | r.HasValue(v)
      ensures Covered(g, objects, v)
    {
      CoveredMore(g, before, objects, v);
    }
  }
}
