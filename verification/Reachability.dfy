/** What a collection has to keep: the objects that can be reached from the roots by strong pointers and monitors. */
module Reachability {
  import opened Objects
  import opened HeapShape
  import opened Marking

  /** h can be reached from the roots in at most n steps. */
  ghost predicate ReachedIn(g: Start, roots: set<nat>, n: nat, h: nat)
    requires Tiled(g.m0, g.lo, g.hi)
    decreases n
  {
    if n == 0 then h in roots
    else
      || ReachedIn(g, roots, n - 1, h)
      || exists p | p in Headers(g.m0, g.lo, g.hi) :: ReachedIn(g, roots, n - 1, p) && h in Leads(g, p)
  }

  /** All objects that can be reached from the roots. */
  ghost function Reachable(g: Start, roots: set<nat>): set<nat>
    requires Tiled(g.m0, g.lo, g.hi)
  {
    set h | h in Headers(g.m0, g.lo, g.hi) && exists n: nat :: ReachedIn(g, roots, n, h)
  }

  /** What an object in use leads to is in use. */
  lemma LeadsToUse(g: Start, h: nat, c: int)
    requires InUse(g, h) && c in Leads(g, h)
    ensures c >= 0 && InUse(g, c)
  {
    var target: int;
    if HasRealMonitor(g.m0, h) && InHeap(g.lo, g.hi, MonitorOf(g.m0, h)) && c == HeaderAt(MonitorOf(g.m0, h)) {
      target := MonitorOf(g.m0, h);
    } else {
      var slot :| slot in StrongSlots(g.classOf, g.m0, h) && InHeap(g.lo, g.hi, g.m0[slot])
        && c == HeaderAt(g.m0[slot]);
      target := g.m0[slot];
    }
    assert PointsWell(g.m0, g.lo, g.hi, target) && InHeap(g.lo, g.hi, target);
    HeaderBounds(g.m0, g.lo, g.hi, c);
  }

  lemma WellFormedTiled(g: Start)
    requires WellFormed(g.classOf, g.m0, g.lo, g.hi)
    ensures Tiled(g.m0, g.lo, g.hi)
  {
  }

  lemma {:induction false} ReachedAreInUse(g: Start, roots: set<nat>, n: nat, h: nat)
    requires WellFormed(g.classOf, g.m0, g.lo, g.hi) && forall r | r in roots :: InUse(g, r)
    requires ReachedIn(g, roots, n, h)
    ensures InUse(g, h)
    decreases n
  {
    hide InUse, Leads, Headers, Tiled, WellFormed;
    WellFormedTiled(g);
    if n > 0 {
      if ReachedIn(g, roots, n - 1, h) {
        ReachedAreInUse(g, roots, n - 1, h);
      } else {
        var p :| p in Headers(g.m0, g.lo, g.hi) && ReachedIn(g, roots, n - 1, p) && h in Leads(g, p);
        ReachedAreInUse(g, roots, n - 1, p);
        LeadsToUse(g, p, h);
      }
    }
  }

  /** The reachable objects contain the roots and everything they lead to. */
  lemma ReachableIsClosed(g: Start, roots: set<nat>)
    requires WellFormed(g.classOf, g.m0, g.lo, g.hi) && forall r | r in roots :: InUse(g, r)
    ensures roots <= Reachable(g, roots)
    ensures Followed(g, Reachable(g, roots), Reachable(g, roots))
  {
    var all := Reachable(g, roots);
    forall r | r in roots
      ensures r in all
    {
      assert ReachedIn(g, roots, 0, r);
    }
    forall h | h in all
      ensures InUse(g, h) && Leads(g, h) <= all
    {
      var n: nat :| ReachedIn(g, roots, n, h);
      ReachedAreInUse(g, roots, n, h);
      forall c | c in Leads(g, h)
        ensures c in all
      {
        LeadsToUse(g, h, c);
        assert ReachedIn(g, roots, n + 1, c);
      }
    }
  }

  lemma {:induction false} ReachedAreIn(g: Start, roots: set<nat>, objects: set<nat>, n: nat, h: nat)
    requires Tiled(g.m0, g.lo, g.hi) && roots <= objects && Followed(g, objects, objects)
    requires ReachedIn(g, roots, n, h)
    ensures h in objects
    decreases n
  {
    hide InUse, Leads, Headers, Tiled, WellFormed;
    if n > 0 {
      if ReachedIn(g, roots, n - 1, h) {
        ReachedAreIn(g, roots, objects, n - 1, h);
      } else {
        var p :| p in Headers(g.m0, g.lo, g.hi) && ReachedIn(g, roots, n - 1, p) && h in Leads(g, p);
        ReachedAreIn(g, roots, objects, n - 1, p);
      }
    }
  }

  /** The reachable objects are the least closed set that contains the roots. */
  lemma ReachableIsLeast(g: Start, roots: set<nat>, objects: set<nat>)
    requires Tiled(g.m0, g.lo, g.hi) && roots <= objects && Followed(g, objects, objects)
    ensures Reachable(g, roots) <= objects
  {
    forall h | h in Reachable(g, roots)
      ensures h in objects
    {
      var n: nat :| ReachedIn(g, roots, n, h);
      ReachedAreIn(g, roots, objects, n, h);
    }
  }
}
