/** The roots after a collection, and that exactly the surviving objects can be reached from them. */
module RootsAfter {
  import opened Cells
  import opened FreeList
  import opened Objects
  import opened HeapShape
  import opened Marking
  import opened Reachability
  import opened Roots
  import opened Relocation
  import opened Tracing
  import opened Outcomes
  import opened Preservation
  import opened Isomorphism

  /** Every pointer moves along with its object. */
  ghost predicate Forwards(o: Outcome) {
    && o.t.lo == o.g.lo && o.t.hi == o.g.hi
    && forall v: Cell :: PointerMoved(o, v, o.Forward(v))
  }

  /** What a collection has made of the roots r0. */
  ghost predicate RootsKept(o: Outcome, r: Roots, r0: Roots) {
    if o.compacted then RootsMoved(r, r0, o.t) else r == r0
  }

  lemma VariableKept(o: Outcome, r: Roots, r0: Roots, i: nat)
    requires RootsKept(o, r, r0) && Forwards(o) && r0.Distinct() && i < |r0.globals|
    ensures i < |r.globals|
    ensures VariableAt(r.variables, r.globals[i]) == o.Forward(VariableAt(r0.variables, r0.globals[i]))
  {
    hide PointerMoved, Relocated;
    assert r0.globals[i] in r0.globals;
  }

  lemma TemporaryKept(o: Outcome, r: Roots, r0: Roots, i: nat)
    requires RootsKept(o, r, r0) && r0.Distinct() && i < |r0.temporaries|
    ensures i < |r.temporaries|
    ensures TemporaryValue(r.variables, r.temporaries[i]) == o.Forward(TemporaryValue(r0.variables, r0.temporaries[i]))
  {
    hide Relocated, Rebased;
    if o.compacted {
      assert TemporaryMoved(r, r0, o.t, i);
    }
  }

  /** The monitor in a monitorOrHashCode cell. */
  lemma MonitorKept(o: Outcome, r: Roots, r0: Roots, i: nat)
    requires RootsKept(o, r, r0) && Forwards(o) && r0.Distinct() && i < |r0.monitors|
    ensures i < |r.monitors|
    ensures var v, w := VariableAt(r0.variables, r0.monitors[i]), VariableAt(r.variables, r.monitors[i]);
            w % 4 == v % 4 && (v % 4 == MHC_MONITOR ==> w == o.Forward(v))
  {
    hide Relocated;
    assert r0.monitors[i] in r0.monitors;
    var v := VariableAt(r0.variables, r0.monitors[i]);
    assert PointerMoved(o, v, o.Forward(v));
  }

  /** Roots that lie in the heap point to live objects. */
  ghost predicate RootsLive(g: Start, r: Roots) {
    forall v: Cell | r.HasValue(v) && InHeap(g.lo, g.hi, v) :: CELL <= v && v % CELL == 0 && HeaderAt(v) in g.reachable
  }

  /** A root pointer after the collection leads to where its object went. */
  lemma RootFollows(o: Outcome, m5: seq<Cell>, chunks: seq<Chunk>, first: Cell, r0: Roots, v: Cell)
    requires Preserved(o, m5, chunks, first) && Forwards(o) && RootsLive(o.g, r0) && r0.HasValue(v)
    ensures Follows(o, v, o.Forward(v))
  {
    hide Preserved, PointerMoved, Roots.HasValue, Outcome.Place, Outcome.Forward, Inside, Follows;
    assert PointerMoved(o, v, o.Forward(v));
    if InHeap(o.g.lo, o.g.hi, v) {
      InsideObject(o, m5, chunks, first, v, 0);
    }
    FollowsFrom(o, v, o.Forward(v), 0);
  }

  /** A monitor pointer, tagged, after the collection. */
  lemma MonitorFollows(o: Outcome, m5: seq<Cell>, chunks: seq<Chunk>, first: Cell, r0: Roots, mhc: Cell)
    requires Preserved(o, m5, chunks, first) && Forwards(o) && RootsLive(o.g, r0) && r0.HasValue(MonitorValue(mhc))
    requires mhc % 4 == MHC_MONITOR
    ensures MHC_MONITOR <= o.Forward(mhc) && Follows(o, MonitorValue(mhc), o.Forward(mhc) - MHC_MONITOR)
  {
    hide Preserved, PointerMoved, Roots.HasValue, Outcome.Place, Outcome.Forward, Inside, Follows;
    assert PointerMoved(o, mhc, o.Forward(mhc));
    ForwardTag(o, mhc, o.Forward(mhc));
    if InHeap(o.g.lo, o.g.hi, mhc - MHC_MONITOR) {
      InsideObject(o, m5, chunks, first, mhc, MHC_MONITOR);
    }
    FollowsFrom(o, mhc, o.Forward(mhc), MHC_MONITOR);
  }

  lemma ForwardTag(o: Outcome, v: Cell, w: Cell)
    requires PointerMoved(o, v, w)
    ensures w % 4 == v % 4
  {
  }

  lemma OutsideFollows(o: Outcome)
    requires 1 <= o.g.lo
    ensures Follows(o, NULL, NULL)
  {
  }

  /** What the i-th monitorOrHashCode cell contributes to the roots, before and after. */
  lemma MonitorRoot(o: Outcome, m5: seq<Cell>, chunks: seq<Chunk>, first: Cell, r: Roots, r0: Roots, i: nat)
    requires Preserved(o, m5, chunks, first) && Forwards(o) && RootsLive(o.g, r0) && RootsKept(o, r, r0)
    requires r0.Distinct() && i < |r0.monitors|
    ensures i < |r.monitors|
    ensures Follows(o, MonitorValue(VariableAt(r0.variables, r0.monitors[i])),
                    MonitorValue(VariableAt(r.variables, r.monitors[i])))
  {
    hide Preserved, Outcome.Place, Outcome.Forward, Follows, Forwards, RootsLive, RootsKept, Roots.Distinct, AtRest,
      Row, Free, Startable;
    PreservedFacts(o, m5, chunks, first);
    MonitorKept(o, r, r0, i);
    var v := VariableAt(r0.variables, r0.monitors[i]);
    assert r0.HasMonitor(|r0.monitors|, MonitorValue(v));
    if v % 4 == MHC_MONITOR {
      MonitorFollows(o, m5, chunks, first, r0, v);
    } else {
      OutsideFollows(o);
    }
  }

  /** Every root before has become a root after that leads to where its object went. */
  lemma RootKept(o: Outcome, m5: seq<Cell>, chunks: seq<Chunk>, first: Cell, r: Roots, r0: Roots,
                 v: Cell) returns (w: Cell)
    requires Preserved(o, m5, chunks, first) && Forwards(o) && RootsLive(o.g, r0) && RootsKept(o, r, r0)
    requires r0.Distinct() && r0.HasValue(v)
    ensures r.HasValue(w) && Follows(o, v, w)
  {
    hide Preserved, Outcome.Place, Outcome.Forward, Follows, Forwards, RootsLive, Roots.Distinct;
    RootsShape(o, r, r0);
    hide RootsKept;
    if r0.HasGlobal(|r0.globals|, v) {
      var i :| 0 <= i < |r0.globals| && VariableAt(r0.variables, r0.globals[i]) == v;
      VariableKept(o, r, r0, i);
      RootFollows(o, m5, chunks, first, r0, v);
      w := o.Forward(v);
      assert r.HasGlobal(|r.globals|, w);
    } else if r0.HasTemporary(|r0.temporaries|, v) {
      var i :| 0 <= i < |r0.temporaries| && TemporaryValue(r0.variables, r0.temporaries[i]) == v;
      TemporaryKept(o, r, r0, i);
      RootFollows(o, m5, chunks, first, r0, v);
      w := o.Forward(v);
      assert r.HasTemporary(|r.temporaries|, w);
    } else {
      var i :| 0 <= i < |r0.monitors| && MonitorValue(VariableAt(r0.variables, r0.monitors[i])) == v;
      MonitorRoot(o, m5, chunks, first, r, r0, i);
      w := MonitorValue(VariableAt(r.variables, r.monitors[i]));
      assert r.HasMonitor(|r.monitors|, w);
    }
  }

  lemma RootsShape(o: Outcome, r: Roots, r0: Roots)
    requires RootsKept(o, r, r0)
    ensures |r.globals| == |r0.globals| && |r.temporaries| == |r0.temporaries| && |r.monitors| == |r0.monitors|
  {
  }

  /** Every root after was a root before. */
  lemma RootFrom(o: Outcome, m5: seq<Cell>, chunks: seq<Chunk>, first: Cell, r: Roots, r0: Roots,
                 w: Cell) returns (v: Cell)
    requires Preserved(o, m5, chunks, first) && Forwards(o) && RootsLive(o.g, r0) && RootsKept(o, r, r0)
    requires r0.Distinct() && r.HasValue(w)
    ensures r0.HasValue(v) && Follows(o, v, w)
  {
    hide Preserved, Outcome.Place, Outcome.Forward, Follows, Forwards, RootsLive, Roots.Distinct;
    RootsShape(o, r, r0);
    hide RootsKept;
    if r.HasGlobal(|r.globals|, w) {
      var i :| 0 <= i < |r.globals| && VariableAt(r.variables, r.globals[i]) == w;
      VariableKept(o, r, r0, i);
      v := VariableAt(r0.variables, r0.globals[i]);
      assert r0.HasGlobal(|r0.globals|, v);
      RootFollows(o, m5, chunks, first, r0, v);
    } else if r.HasTemporary(|r.temporaries|, w) {
      var i :| 0 <= i < |r.temporaries| && TemporaryValue(r.variables, r.temporaries[i]) == w;
      TemporaryKept(o, r, r0, i);
      v := TemporaryValue(r0.variables, r0.temporaries[i]);
      assert r0.HasTemporary(|r0.temporaries|, v);
      RootFollows(o, m5, chunks, first, r0, v);
    } else {
      var i :| 0 <= i < |r.monitors| && MonitorValue(VariableAt(r.variables, r.monitors[i])) == w;
      MonitorRoot(o, m5, chunks, first, r, r0, i);
      v := MonitorValue(VariableAt(r0.variables, r0.monitors[i]));
      assert r0.HasMonitor(|r0.monitors|, v);
    }
  }

  /** The roots are sound after the collection. */
  lemma RootsSoundAfter(o: Outcome, m5: seq<Cell>, chunks: seq<Chunk>, first: Cell, r: Roots, r0: Roots)
    requires Preserved(o, m5, chunks, first) && Forwards(o) && RootsLive(o.g, r0) && RootsKept(o, r, r0)
    requires r0.Distinct()
    ensures Tiled(m5, o.g.lo, o.g.hi) && r.Sound(m5, o.g.lo, o.g.hi) && r.Distinct()
  {
    hide Preserved, Outcome.Place, Outcome.Forward, Follows, Forwards, RootsLive, Roots.Distinct, RootsKept,
      Roots.HasValue, PointsWell,
      AtRest, Row, Free, Startable, Tiled;
    PreservedFacts(o, m5, chunks, first);
    forall w: Cell | r.HasValue(w)
      ensures PointsWell(m5, o.g.lo, o.g.hi, w)
    {
      var v := RootFrom(o, m5, chunks, first, r, r0, w);
      FollowsWell(o, m5, chunks, first, v, w);
    }
    DistinctAfterwards(o, r, r0);
  }

  lemma DistinctAfterwards(o: Outcome, r: Roots, r0: Roots)
    requires RootsKept(o, r, r0) && r0.Distinct()
    ensures r.Distinct()
  {
    hide Relocated, Rebased;
    if o.compacted {
      forall i | 0 <= i < |r0.temporaries|
        ensures r.temporaries[i].variable == r0.temporaries[i].variable
      {
        assert TemporaryMoved(r, r0, o.t, i);
      }
    }
  }

  /** The targets of the roots after are the places of the targets before. */
  lemma TargetMoves(o: Outcome, m5: seq<Cell>, chunks: seq<Chunk>, first: Cell, r: Roots, r0: Roots, h: nat)
    requires Preserved(o, m5, chunks, first) && Forwards(o) && RootsLive(o.g, r0) && RootsKept(o, r, r0)
    requires r0.Distinct()
    requires Tiled(o.g.m0, o.g.lo, o.g.hi) && h in r0.Targets(o.g.m0, o.g.lo, o.g.hi)
    ensures Tiled(m5, o.g.lo, o.g.hi) && o.Place(h) in r.Targets(m5, o.g.lo, o.g.hi)
  {
    hide Preserved, Outcome.Place, Outcome.Forward, Forwards, Roots.Distinct, RootsKept, Roots.HasValue, PointsWell,
      AtRest, Row, Free, Startable, Tiled, Headers, Copy, InUse, Leads, KindOf;
    PreservedFacts(o, m5, chunks, first);
    var v: Cell :| r0.HasValue(v) && InHeap(o.g.lo, o.g.hi, v) && HeaderAt(v) == h;
    var w := RootKept(o, m5, chunks, first, r, r0, v);
    CopyFacts(o, m5, chunks, first, h);
    FollowsWell(o, m5, chunks, first, v, w);
  }

  lemma TargetFrom(o: Outcome, m5: seq<Cell>, chunks: seq<Chunk>, first: Cell, r: Roots, r0: Roots, n: nat)
    requires Preserved(o, m5, chunks, first) && Forwards(o) && RootsLive(o.g, r0) && RootsKept(o, r, r0)
    requires r0.Distinct()
    requires Tiled(m5, o.g.lo, o.g.hi) && n in r.Targets(m5, o.g.lo, o.g.hi)
    ensures n in Places(o)
  {
    hide Preserved, Outcome.Place, Outcome.Forward, Forwards, Roots.Distinct, RootsKept, Roots.HasValue, PointsWell,
      AtRest, Row, Free, Startable, Tiled, Headers, Copy, InUse, Leads, KindOf;
    var w: Cell :| r.HasValue(w) && InHeap(o.g.lo, o.g.hi, w) && HeaderAt(w) == n;
    var v := RootFrom(o, m5, chunks, first, r, r0, w);
    FollowsWell(o, m5, chunks, first, v, w);
  }

  /** A path from a root is a path after the collection. */
  lemma {:induction false} PathKept(o: Outcome, m5: seq<Cell>, chunks: seq<Chunk>, first: Cell, targets0: set<nat>,
                                    targets: set<nat>, n: nat, h: nat)
    requires Preserved(o, m5, chunks, first) && Tiled(m5, o.g.lo, o.g.hi) && Tiled(o.g.m0, o.g.lo, o.g.hi)
    requires forall r | r in targets0 :: r in o.g.reachable && o.Place(r) in targets
    requires ReachedIn(o.g, targets0, n, h)
    ensures h in o.g.reachable && ReachedIn(After(o, m5), targets, n, o.Place(h))
    decreases n
  {
    hide Preserved, Outcome.Place, AtRest, Row, Free, Startable, Tiled, Headers, Copy, InUse, Leads, KindOf;
    if n > 0 {
      if ReachedIn(o.g, targets0, n - 1, h) {
        PathKept(o, m5, chunks, first, targets0, targets, n - 1, h);
      } else {
        var p :| p in Headers(o.g.m0, o.g.lo, o.g.hi) && ReachedIn(o.g, targets0, n - 1, p) && h in Leads(o.g, p);
        PathKept(o, m5, chunks, first, targets0, targets, n - 1, p);
        EdgeKept(o, m5, chunks, first, p, h);
        CopyFacts(o, m5, chunks, first, p);
      }
    }
  }

  /** The places of the live objects are closed. */
  lemma PlacesClosed(o: Outcome, m5: seq<Cell>, chunks: seq<Chunk>, first: Cell)
    requires Preserved(o, m5, chunks, first)
    ensures Followed(After(o, m5), Places(o), Places(o))
  {
    hide Preserved, Outcome.Place, Leads, InUse;
    forall n | n in Places(o)
      ensures InUse(After(o, m5), n) && Leads(After(o, m5), n) <= Places(o)
    {
      var h :| h in o.g.reachable && n == o.Place(h);
      CopyInUse(o, m5, chunks, first, h);
      forall d | d in Leads(After(o, m5), n)
        ensures d in Places(o)
      {
        var c := EdgeFrom(o, m5, chunks, first, h, d);
      }
    }
  }

  /** After the collection exactly the surviving objects can be reached from the roots. */
  lemma AliveAfter(o: Outcome, m5: seq<Cell>, chunks: seq<Chunk>, first: Cell, r: Roots, r0: Roots)
    requires Preserved(o, m5, chunks, first) && Forwards(o) && RootsLive(o.g, r0) && RootsKept(o, r, r0)
    requires r0.Distinct()
    requires Tiled(o.g.m0, o.g.lo, o.g.hi) && o.g.reachable == Reachable(o.g, r0.Targets(o.g.m0, o.g.lo, o.g.hi))
    requires r0.Targets(o.g.m0, o.g.lo, o.g.hi) <= o.g.reachable
    ensures Tiled(m5, o.g.lo, o.g.hi) && Alive(o.g.classOf, m5, o.g.lo, o.g.hi, r) == Places(o)
  {
    hide Preserved, Outcome.Place, Outcome.Forward, Forwards, Roots.Distinct, RootsKept, RootsLive, AtRest, Row, Free,
      Startable, Tiled,
      Headers, Copy, InUse, Leads, KindOf, ReachedIn, Roots.Targets, Followed;
    PreservedFacts(o, m5, chunks, first);
    var targets0, targets := r0.Targets(o.g.m0, o.g.lo, o.g.hi), r.Targets(m5, o.g.lo, o.g.hi);
    forall n | n in targets
      ensures n in Places(o)
    {
      TargetFrom(o, m5, chunks, first, r, r0, n);
    }
    PlacesClosed(o, m5, chunks, first);
    ReachableIsLeast(After(o, m5), targets, Places(o));
    forall t | t in targets0
      ensures t in o.g.reachable && o.Place(t) in targets
    {
      TargetMoves(o, m5, chunks, first, r, r0, t);
    }
    forall n | n in Places(o)
      ensures n in Reachable(After(o, m5), targets)
    {
      var h :| h in o.g.reachable && n == o.Place(h);
      var k: nat :| ReachedIn(o.g, targets0, k, h);
      PathKept(o, m5, chunks, first, targets0, targets, k, h);
      CopyFacts(o, m5, chunks, first, h);
    }
  }
}
