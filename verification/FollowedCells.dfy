/**
 * What a collection does to fields, items and roots, told from the classes of the objects: everything that they lead
 * to is kept, and they lead to its new place.
 */
module FollowedCells {
  import opened Cells
  import opened FreeList
  import opened Objects
  import opened HeapShape
  import opened HeapUpdate
  import opened Marking
  import opened Roots
  import opened Relocation
  import opened Tracing
  import opened Outcomes
  import opened Preservation
  import opened Isomorphism
  import opened RootsAfter
  import opened Collecting
  import opened CollectionTheorems
  import opened PointerCells

  /** w is the new address of the object that v has led to, and v has led to an object that is kept. */
  ghost predicate LeadsOn(o: Outcome, v: int, w: int) {
    if InHeap(o.g.lo, o.g.hi, v)
    then HeaderAt(v) in o.g.reachable && w == CELL * (o.Place(HeaderAt(v)) + HEADERSIZE) else w == v
  }

  lemma SlotsFit(g: Start, h: nat)
    requires InUse(g, h)
    ensures h + 1 < |g.m0| && (KindOf(g.m0[h]) == GCT_OBJECTARRAY ==> h + 3 < |g.m0|)
    ensures HasMonitorCell(KindOf(g.m0[h])) ==> h + 2 < |g.m0|
  {
  }

  /** The references of live objects, inherited fields among them, but for those of weak objects. */
  lemma ReferenceFollowed(o: Outcome, classOf: Cell -> Class, m0: seq<Cell>, lo: nat, hi: nat, r0: Roots,
                          m5: seq<Cell>, r: Roots, m2: seq<Cell>, chunks: seq<Chunk>, first: Cell, h: nat, s: nat)
    requires Ready(classOf, m0, lo, hi, r0) && Collection(o, classOf, m0, lo, hi, r0, m5, r, m2, chunks, first)
    requires Tiled(m0, lo, hi) && h in Alive(classOf, m0, lo, hi, r0) && IsReference(classOf, m0, h, s)
    requires h < |m0| && KindOf(m0[h]) !in {GCT_WEAKPOINTERLIST, GCT_WEAKREFERENCE}
    ensures s < |m0| && 0 <= s - h + o.Place(h) < |m5|
    ensures InHeap(lo, hi, m0[s]) ==> HeaderAt(m0[s]) in Alive(classOf, m0, lo, hi, r0)
    ensures LeadsOn(o, m0[s], m5[s - h + o.Place(h)])
  {
    CollectionIsCorrect(o, classOf, m0, lo, hi, r0, m5, r, m2, chunks, first);
    assert o.g.classOf == classOf && o.g.m0 == m0 && o.g.lo == lo && o.g.hi == hi;
    assert o.g.reachable == Alive(classOf, m0, lo, hi, r0) && Preserved(o, m5, chunks, first);
    hide Ready, Collection, Correct, Preserved, Tiled, Headers, Alive, KindOf, Outcome.Place, IsReference, StrongSlots,
      InUse, Leads, Copy, Fits;
    CopyFacts(o, m5, chunks, first, h);
    SlotsFit(o.g, h);
    StrongSlotsAre(classOf, m0, h, s);
    StrongMoved(o, m5, chunks, first, h, s);
  }

  /** The monitor of a live object. */
  lemma MonitorFollowed(o: Outcome, classOf: Cell -> Class, m0: seq<Cell>, lo: nat, hi: nat, r0: Roots,
                        m5: seq<Cell>, r: Roots, m2: seq<Cell>, chunks: seq<Chunk>, first: Cell, h: nat)
    requires Ready(classOf, m0, lo, hi, r0) && Collection(o, classOf, m0, lo, hi, r0, m5, r, m2, chunks, first)
    requires Tiled(m0, lo, hi) && h in Alive(classOf, m0, lo, hi, r0)
    requires IsLockCell(m0, h, h + 2) && m0[h + 2] % 4 == MHC_MONITOR
    ensures o.Place(h) + 2 < |m5|
    ensures LeadsOn(o, m0[h + 2] - MHC_MONITOR, m5[o.Place(h) + 2] - MHC_MONITOR)
  {
    hide Ready, Collection, Correct, Preserved, Tiled, Headers, Alive, KindOf, Outcome.Place, IsLockCell, LeadsOn,
      InUse, Leads, Copy, Fits;
    CollectionIsCorrect(o, classOf, m0, lo, hi, r0, m5, r, m2, chunks, first);
    CorrectFacts(o, classOf, m0, lo, hi, r0, m5, r, m2, chunks, first);
    LockLeadsOn(o, m5, chunks, first, h);
  }

  lemma CorrectFacts(o: Outcome, classOf: Cell -> Class, m0: seq<Cell>, lo: nat, hi: nat, r0: Roots,
                     m5: seq<Cell>, r: Roots, m2: seq<Cell>, chunks: seq<Chunk>, first: Cell)
    requires Collection(o, classOf, m0, lo, hi, r0, m5, r, m2, chunks, first) && Correct(o, m5, r, r0, chunks, first)
    ensures o.g.classOf == classOf && o.g.m0 == m0 && o.g.lo == lo && o.g.hi == hi && Tiled(m0, lo, hi)
    ensures o.g.reachable == Alive(classOf, m0, lo, hi, r0) && Preserved(o, m5, chunks, first)
  {
    hide Preserved, Tiled, Alive;
  }

  lemma LockLeadsOn(o: Outcome, m5: seq<Cell>, chunks: seq<Chunk>, first: Cell, h: nat)
    requires Preserved(o, m5, chunks, first) && h in o.g.reachable
    requires IsLockCell(o.g.m0, h, h + 2) && o.g.m0[h + 2] % 4 == MHC_MONITOR
    ensures o.Place(h) + 2 < |m5|
    ensures LeadsOn(o, o.g.m0[h + 2] - MHC_MONITOR, m5[o.Place(h) + 2] - MHC_MONITOR)
  {
    hide Preserved, KindOf, Outcome.Place;
    assert HasRealMonitor(o.g.m0, h);
    MonitorMoved(o, m5, chunks, first, h);
  }

  /** The pointer that the i-th global root holds. */
  lemma GlobalFollowed(o: Outcome, m5: seq<Cell>, r: Roots, r0: Roots, chunks: seq<Chunk>, first: Cell, i: nat)
    requires Correct(o, m5, r, r0, chunks, first) && i < |r0.globals|
    ensures r.globals == r0.globals && r0.globals[i] < |r0.variables| == |r.variables|
    ensures LeadsOn(o, r0.variables[r0.globals[i]], r.variables[r0.globals[i]])
  {
    hide Preserved, Forwards, RootsLive, Outcome.Place, Outcome.Forward, Roots.HasValue;
    RootsShape(o, r, r0);
    VariableKept(o, r, r0, i);
    var v := r0.variables[r0.globals[i]];
    assert r0.HasValue(v) by {
      GlobalIsValue(r0, i);
    }
    RootFollows(o, m5, chunks, first, r0, v);
  }

  lemma GlobalIsValue(r: Roots, i: nat)
    requires i < |r.globals| && r.globals[i] < |r.variables|
    ensures r.HasValue(r.variables[r.globals[i]])
  {
    assert VariableAt(r.variables, r.globals[i]) == r.variables[r.globals[i]];
  }

  /** The object pointer of the i-th temporary root: that of the variable itself, or the base of a derived address. */
  lemma TemporaryFollowed(o: Outcome, m5: seq<Cell>, r: Roots, r0: Roots, chunks: seq<Chunk>, first: Cell, i: nat)
    requires Correct(o, m5, r, r0, chunks, first) && i < |r0.temporaries|
    ensures |r.temporaries| == |r0.temporaries| && |r.variables| == |r0.variables|
    ensures match r0.temporaries[i]
            case Location(v) =>
              v < |r0.variables| && r.temporaries[i] == r0.temporaries[i] && LeadsOn(o, r0.variables[v], r.variables[v])
            case Derived(v, base) =>
              r.temporaries[i].Derived? && r.temporaries[i].variable == v && LeadsOn(o, base, r.temporaries[i].base)
  {
    hide Preserved, Forwards, RootsLive, Outcome.Place, Outcome.Forward, Roots.HasValue, Relocated, Rebased;
    RootsShape(o, r, r0);
    TemporaryKept(o, r, r0, i);
    var v := TemporaryValue(r0.variables, r0.temporaries[i]);
    assert r0.HasValue(v) by {
      TemporaryIsValue(r0, i);
    }
    RootFollows(o, m5, chunks, first, r0, v);
    TemporaryShape(o, r, r0, i);
  }

  lemma TemporaryIsValue(r: Roots, i: nat)
    requires i < |r.temporaries|
    ensures r.HasValue(TemporaryValue(r.variables, r.temporaries[i]))
  {
  }

  lemma TemporaryShape(o: Outcome, r: Roots, r0: Roots, i: nat)
    requires RootsKept(o, r, r0) && r0.Distinct() && i < |r0.temporaries|
    ensures |r.temporaries| == |r0.temporaries| && |r.variables| == |r0.variables|
    ensures r0.temporaries[i].variable < |r0.variables|
    ensures match r0.temporaries[i]
            case Location(_) => r.temporaries[i] == r0.temporaries[i]
            case Derived(v, _) => r.temporaries[i].Derived? && r.temporaries[i].variable == v
  {
    hide Relocated, Rebased;
    if o.compacted {
      assert TemporaryMoved(r, r0, o.t, i);
    }
  }

  /** The monitor of the i-th class or interned string. */
  lemma MonitorRootFollowed(o: Outcome, m5: seq<Cell>, r: Roots, r0: Roots, chunks: seq<Chunk>, first: Cell, i: nat)
    requires Correct(o, m5, r, r0, chunks, first) && i < |r0.monitors|
    ensures r.monitors == r0.monitors && r0.monitors[i] < |r0.variables| == |r.variables|
    ensures var v, w := r0.variables[r0.monitors[i]], r.variables[r0.monitors[i]];
            w % 4 == v % 4 && (v % 4 == MHC_MONITOR ==> LeadsOn(o, v - MHC_MONITOR, w - MHC_MONITOR))
  {
    hide Preserved, Forwards, RootsLive, Outcome.Place, Outcome.Forward, Roots.HasValue;
    RootsShape(o, r, r0);
    MonitorKept(o, r, r0, i);
    MonitorRoot(o, m5, chunks, first, r, r0, i);
  }
}
