/** The correctness of a collection: the reachable graph before and the heap after are isomorphic, in the same order. */
module CollectionTheorems {
  import opened Cells
  import opened FreeList
  import opened Objects
  import opened HeapShape
  import opened Marking
  import opened Reachability
  import opened Roots
  import opened Relocation
  import opened HeapUpdate
  import opened Tracing
  import opened Clearing
  import opened Survivors
  import opened Outcomes
  import opened Preservation
  import opened Isomorphism
  import opened RootsAfter
  import opened Collecting

  lemma AllForwarded(o: Outcome, m5: seq<Cell>, m2: seq<Cell>, chunks: seq<Chunk>, first: Cell)
    requires AfterCollection(o, m5, m2, chunks, first)
    ensures Forwards(o)
  {
    hide PointerMoved, Traced, LaidOut, Row, Free, Survived, Sweeping.DeadRuns;
    forall v: Cell
      ensures PointerMoved(o, v, o.Forward(v))
    {
      PointerForwarded(o, m5, m2, chunks, first, v);
    }
  }

  lemma RootsAreLive(g: Start, r: Roots)
    requires Reaching(g, r) && Tiled(g.m0, g.lo, g.hi) && r.Sound(g.m0, g.lo, g.hi)
    ensures RootsLive(g, r)
  {
    hide Roots.HasValue, Headers, KindOf;
    forall v: Cell | r.HasValue(v) && InHeap(g.lo, g.hi, v)
      ensures CELL <= v && v % CELL == 0 && HeaderAt(v) in g.reachable
    {
      assert PointsWell(g.m0, g.lo, g.hi, v) && Covered(g, g.reachable, v);
    }
  }

  /** Everything that the theorems below need to know of a collection. */
  ghost predicate Correct(o: Outcome, m5: seq<Cell>, r: Roots, r0: Roots, chunks: seq<Chunk>, first: Cell) {
    && Preserved(o, m5, chunks, first) && Forwards(o) && RootsLive(o.g, r0) && RootsKept(o, r, r0) && r0.Distinct()
    && Tiled(o.g.m0, o.g.lo, o.g.hi) && o.g.reachable == Reachable(o.g, r0.Targets(o.g.m0, o.g.lo, o.g.hi))
    && r0.Targets(o.g.m0, o.g.lo, o.g.hi) <= o.g.reachable
  }

  lemma CollectionIsCorrect(o: Outcome, classOf: Cell -> Class, m0: seq<Cell>, lo: nat, hi: nat, r0: Roots,
                            m5: seq<Cell>, r: Roots, m2: seq<Cell>, chunks: seq<Chunk>, first: Cell)
    requires Ready(classOf, m0, lo, hi, r0) && Collection(o, classOf, m0, lo, hi, r0, m5, r, m2, chunks, first)
    ensures Correct(o, m5, r, r0, chunks, first)
  {
    hide AtRest, LaidOut, Roots.Sound, Roots.Distinct, Tiled, AfterCollection, Preserved, Forwards, RootsLive,
      Reachable, Alive, RootsMoved;
    AllForwarded(o, m5, m2, chunks, first);
    CollectionPreserves(o, m5, m2, chunks, first);
    WellFormedAtRest(classOf, m0, lo, hi);
    MarkingStarts(o.g, r0);
    RootsAreLive(o.g, r0);
  }

  lemma WellFormedAtRest(classOf: Cell -> Class, m: seq<Cell>, lo: nat, hi: nat)
    requires AtRest(classOf, m, lo, hi)
    ensures WellFormed(classOf, m, lo, hi) && Tiled(m, lo, hi)
  {
  }

  lemma LaidOutStill(o: Outcome, m5: seq<Cell>, chunks: seq<Chunk>, first: Cell)
    requires Preserved(o, m5, chunks, first)
    ensures LaidOut(o.g.classOf)
  {
  }

  /**
   * A collection leaves a heap and roots that the next collection can start from, and exactly the survivors can be
   * reached from the roots.
   */
  lemma ReadyAgain(o: Outcome, classOf: Cell -> Class, m0: seq<Cell>, lo: nat, hi: nat, r0: Roots,
                   m5: seq<Cell>, r: Roots, m2: seq<Cell>, chunks: seq<Chunk>, first: Cell)
    requires Ready(classOf, m0, lo, hi, r0) && Collection(o, classOf, m0, lo, hi, r0, m5, r, m2, chunks, first)
    ensures Ready(classOf, m5, lo, hi, r)
    ensures Tiled(m5, lo, hi) && Alive(classOf, m5, lo, hi, r) == Places(o)
  {
    CollectionIsCorrect(o, classOf, m0, lo, hi, r0, m5, r, m2, chunks, first);
    assert o.g.classOf == classOf && o.g.lo == lo && o.g.hi == hi;
    hide AtRest, LaidOut, Roots.Sound, Roots.Distinct, Tiled, AfterCollection, Preserved, Forwards, RootsLive,
      Reachable, Alive, RootsKept,
      Collection, Places, Roots.Targets;
    AtRestAfter(o, m5, chunks, first);
    LaidOutStill(o, m5, chunks, first);
    RootsSoundAfter(o, m5, chunks, first, r, r0);
    AliveAfter(o, m5, chunks, first, r, r0);
  }

  /** The survivors keep their order and do not overlap. */
  lemma OrderPreserved(o: Outcome, m5: seq<Cell>, chunks: seq<Chunk>, first: Cell, h: nat, k: nat)
    requires Preserved(o, m5, chunks, first) && h in o.g.reachable && k in o.g.reachable && h < k
    ensures h < |o.g.m0| && o.Place(h) + SizeOf(o.g.m0[h]) + HEADERSIZE <= o.Place(k)
  {
    hide AtRest, Row, Free, Startable, Preserved, Tiled, Headers, Copy, InUse, Leads, KindOf, SizeOf, NewIndex;
    CopyFacts(o, m5, chunks, first, h);
    CopyFacts(o, m5, chunks, first, k);
    NewIndexAscends(o.g.m0, o.g.lo, o.g.hi, o.g.reachable, h, k);
    HeadersApart(o.g.m0, o.g.lo, o.g.hi, h, k);
  }

  /**
   * A collection is an isomorphism: each reachable object has a copy of the same type and size, cell for cell, which
   * leads to the copies of exactly the objects that it led to.
   */
  lemma GraphPreserved(o: Outcome, classOf: Cell -> Class, m0: seq<Cell>, lo: nat, hi: nat, r0: Roots,
                       m5: seq<Cell>, r: Roots, m2: seq<Cell>, chunks: seq<Chunk>, first: Cell, h: nat)
    requires Ready(classOf, m0, lo, hi, r0) && Collection(o, classOf, m0, lo, hi, r0, m5, r, m2, chunks, first)
    requires Tiled(m0, lo, hi) && h in Alive(classOf, m0, lo, hi, r0)
    ensures Tiled(m5, lo, hi) && o.Place(h) in Headers(m5, lo, hi)
    ensures h < |m0| && o.Place(h) < |m5| && m5[o.Place(h)] == m0[h] && Copy(o, m5, h)
    ensures forall d: int ::
              d in Leads(After(o, m5), o.Place(h))
              <==> exists c: nat :: c in Leads(o.g, h) && d == o.Place(c)
  {
    CollectionIsCorrect(o, classOf, m0, lo, hi, r0, m5, r, m2, chunks, first);
    assert o.g.classOf == classOf && o.g.lo == lo && o.g.hi == hi && o.g.m0 == m0 && h in o.g.reachable;
    hide AtRest, LaidOut, Roots.Sound, Roots.Distinct, Tiled, AfterCollection, Preserved, Forwards, RootsLive,
      Reachable, Alive, RootsKept,
      Collection, Copy, Leads, InUse, Headers, KindOf;
    CopyFacts(o, m5, chunks, first, h);
    SameGraph(o, m5, chunks, first, h);
  }

  /**
   * A temporary root of the second kind: a derived address that lies in the object of its base still lies at the same
   * place in it.
   */
  lemma DerivedRootMoves(o: Outcome, m5: seq<Cell>, r: Roots, r0: Roots, chunks: seq<Chunk>, first: Cell, i: nat,
                         c: nat)
    requires Correct(o, m5, r, r0, chunks, first) && i < |r0.temporaries| && r0.temporaries[i].Derived?
    requires var v := r0.temporaries[i].variable;
             v < |r0.variables| && Inside(o.g, c, r0.temporaries[i].base) && Inside(o.g, c, r0.variables[v])
    ensures var v := r0.temporaries[i].variable;
            v < |r.variables| && r.variables[v] == r0.variables[v] - CELL * c + CELL * o.Place(c)
  {
    hide Preserved, Inside, RootsLive, Reachable, Relocated;
    var v, base := r0.temporaries[i].variable, r0.temporaries[i].base;
    assert PointerMoved(o, base, o.Forward(base)) && PointerMoved(o, r0.variables[v], o.Forward(r0.variables[v]));
    if o.compacted {
      assert TemporaryMoved(r, r0, o.t, i);
      RebasedBy(r0.variables[v], base, o.Forward(base), o.Forward(r0.variables[v]));
    } else {
      assert o.Forward(r0.variables[v]) == r0.variables[v];
    }
  }

  lemma RebasedBy(derived: Cell, base: Cell, newBase: Cell, newDerived: Cell)
    requires newDerived - derived == newBase - base
    ensures Rebased(derived, base, newBase) == newDerived
  {
  }
}
