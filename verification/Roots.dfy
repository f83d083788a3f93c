/** markRootObjects and updateRootObjects: the pointers into the heap that lie outside it. */
module Roots {
  import opened Cells
  import opened FreeList
  import opened Objects
  import opened HeapShape
  import opened Marking
  import opened Relocation
  import opened HeapUpdate

  /**
   * A temporary root is the location of a variable that holds an object pointer, or of one that holds an address
   * derived from an object pointer, together with that object pointer.
   */
  datatype TemporaryRoot = Location(variable: nat) | Derived(variable: nat, base: Cell)

  /** The pointer in a monitorOrHashCode cell that the marker follows. */
  function MonitorValue(mhc: Cell): Cell {
    if mhc % 4 == MHC_MONITOR then mhc - MHC_MONITOR else NULL
  }

  /** The derived address that goes with the new base. */
  function Rebased(derived: Cell, base: Cell, newBase: Cell): Cell {
    (newBase + (derived - base)) % 0x1_0000_0000
  }

  function VariableAt(variables: seq<Cell>, i: nat): Cell {
    if i < |variables| then variables[i] else NULL
  }

  function TemporaryValue(variables: seq<Cell>, temporary: TemporaryRoot): Cell {
    match temporary
    case Location(v) => VariableAt(variables, v)
    case Derived(_, base) => base
  }

  /** The roots: variables, temporary roots, and the monitorOrHashCode cells of classes and interned strings. */
  datatype Roots = Roots(variables: seq<Cell>, globals: seq<nat>, temporaries: seq<TemporaryRoot>, monitors: seq<nat>) {
    /** The object pointer v is one of those that marking starts from. */
    ghost predicate HasValue(v: Cell) {
      HasGlobal(|globals|, v) || HasTemporary(|temporaries|, v) || HasMonitor(|monitors|, v)
    }

    ghost predicate HasGlobal(n: nat, v: Cell)
    {
      exists i | 0 <= i < n && i < |globals| :: VariableAt(variables, globals[i]) == v
    }

    ghost predicate HasTemporary(n: nat, v: Cell) {
      exists i | 0 <= i < n && i < |temporaries| :: TemporaryValue(variables, temporaries[i]) == v
    }

    ghost predicate HasMonitor(n: nat, v: Cell) {
      exists i | 0 <= i < n && i < |monitors| :: MonitorValue(VariableAt(variables, monitors[i])) == v
    }

    /** The objects that a root points to. */
    ghost function Targets(m: seq<Cell>, lo: nat, hi: nat): set<nat>
      requires Tiled(m, lo, hi)
    {
      set h | h in Headers(m, lo, hi) && h < |m| <= MAX_CELLS && IsTarget(lo, hi, h)
    }

    ghost predicate IsTarget(lo: nat, hi: nat, h: nat) {
      exists v: Cell :: HasValue(v) && InHeap(lo, hi, v) && HeaderAt(v) == h
    }

    /** All roots that point into the heap point to objects. */
    ghost predicate Sound(m: seq<Cell>, lo: nat, hi: nat)
      requires Tiled(m, lo, hi)
    {
      forall v: Cell | HasValue(v) :: PointsWell(m, lo, hi, v)
    }

    /** No variable is a root twice. */
    ghost predicate Distinct() {
      && NoDuplicates(globals) && NoDuplicates(monitors)
      && (forall i | 0 <= i < |globals| :: globals[i] < |variables| && globals[i] !in monitors)
      && (forall i | 0 <= i < |monitors| :: monitors[i] < |variables|)
      && (forall i | 0 <= i < |temporaries| ::
            && temporaries[i].variable < |variables|
            && temporaries[i].variable !in globals && temporaries[i].variable !in monitors)
      && (forall i, j | 0 <= i < j < |temporaries| :: temporaries[i].variable != temporaries[j].variable)
    }
  }

  /** The object that v points to, if it lies in the heap, is one of the given ones. */
  ghost predicate Covered(g: Start, objects: set<nat>, v: Cell) {
    InHeap(g.lo, g.hi, v) ==> CELL <= v && HeaderAt(v) in objects
  }

  /** What marking the roots needs: everything they point to may be marked. */
  ghost predicate Reaching(g: Start, r: Roots) {
    forall v: Cell | r.HasValue(v) :: Covered(g, g.reachable, v)
  }

  ghost predicate AllCovered(g: Start, r: Roots, objects: set<nat>) {
    forall v: Cell | r.HasValue(v) :: Covered(g, objects, v)
  }

  /** MARK_OBJECT. */
  method MarkObject(marker: Marker, value: Cell)
    requires marker.Valid() && Covered(marker.start, marker.start.reachable, value)
    modifies marker`marked, marker.mem
    ensures marker.Valid() && old(marker.marked) <= marker.marked && Covered(marker.start, marker.marked, value)
  {
    hide Consistent, DeferredObjects.DeferredObjectTable.Valid;
    if InHeap(marker.currentHeap, marker.currentHeapEnd, value) {
      marker.SetMark(HeaderAt(value));
    }
  }

  class RootSet {
    const variables: array<Cell>
    const globalRoots: seq<nat>
    const temporaryRoots: array<TemporaryRoot>
    const monitors: seq<nat>

    constructor (variables: array<Cell>, globalRoots: seq<nat>, temporaryRoots: array<TemporaryRoot>,
                 monitors: seq<nat>)
      ensures this.variables == variables && this.globalRoots == globalRoots
      ensures this.temporaryRoots == temporaryRoots && this.monitors == monitors
    {
      this.variables, this.globalRoots, this.temporaryRoots, this.monitors :=
        variables, globalRoots, temporaryRoots, monitors;
    }

    ghost function Now(): Roots
      reads variables, temporaryRoots
    {
      Roots(variables[..], globalRoots, temporaryRoots[..], monitors)
    }

    /** Marks the objects that the global variables point to. */
    method MarkGlobals(marker: Marker)
      requires marker.Valid() && Reaching(marker.start, Now()) && Now().Distinct() && variables != marker.mem
      modifies marker`marked, marker.mem
      ensures marker.Valid() && old(marker.marked) <= marker.marked
      ensures forall i | 0 <= i < |globalRoots| ::
                Covered(marker.start, marker.marked, VariableAt(variables[..], globalRoots[i]))
    {
      hide Consistent, DeferredObjects.DeferredObjectTable.Valid, Covered;
      var i := 0;
      while i < |globalRoots|
        invariant 0 <= i <= |globalRoots| && marker.Valid() && old(marker.marked) <= marker.marked
        invariant forall k | 0 <= k < i ::
                    Covered(marker.start, marker.marked, VariableAt(variables[..], globalRoots[k]))
      {
        ghost var before := marker.marked;
        assert Now().HasGlobal(|globalRoots|, VariableAt(variables[..], globalRoots[i]));
        MarkObject(marker, variables[globalRoots[i]]);
        forall k | 0 <= k < i
          ensures Covered(marker.start, marker.marked, VariableAt(variables[..], globalRoots[k]))
        {
          CoveredMore(marker.start, before, marker.marked, VariableAt(variables[..], globalRoots[k]));
        }
        i := i + 1;
      }
    }

    /** Marks the objects that the temporary roots stand for. */
    method MarkTemporaries(marker: Marker)
      requires marker.Valid() && Reaching(marker.start, Now()) && Now().Distinct() && variables != marker.mem
      modifies marker`marked, marker.mem
      ensures marker.Valid() && old(marker.marked) <= marker.marked
      ensures forall i | 0 <= i < temporaryRoots.Length ::
                Covered(marker.start, marker.marked, TemporaryValue(variables[..], temporaryRoots[i]))
    {
      hide Consistent, DeferredObjects.DeferredObjectTable.Valid, Covered;
      var i := 0;
      while i < temporaryRoots.Length
        invariant 0 <= i <= temporaryRoots.Length && marker.Valid() && old(marker.marked) <= marker.marked
        invariant forall k | 0 <= k < i ::
                    Covered(marker.start, marker.marked, TemporaryValue(variables[..], temporaryRoots[k]))
      {
        ghost var before := marker.marked;
        assert Now().temporaries[i] == temporaryRoots[i];
        assert Now().HasTemporary(temporaryRoots.Length, TemporaryValue(variables[..], temporaryRoots[i]));
        match temporaryRoots[i] {
          case Location(v) => MarkObject(marker, variables[v]);
          case Derived(_, base) => MarkObject(marker, base);
        }
        forall k | 0 <= k < i
          ensures Covered(marker.start, marker.marked, TemporaryValue(variables[..], temporaryRoots[k]))
        {
          CoveredMore(marker.start, before, marker.marked, TemporaryValue(variables[..], temporaryRoots[k]));
        }
        i := i + 1;
      }
    }

    /** Marks the monitors of the classes and the interned strings. */
    method MarkMonitors(marker: Marker)
      requires marker.Valid() && Reaching(marker.start, Now()) && Now().Distinct() && variables != marker.mem
      modifies marker`marked, marker.mem
      ensures marker.Valid() && old(marker.marked) <= marker.marked
      ensures forall i | 0 <= i < |monitors| ::
                Covered(marker.start, marker.marked, MonitorValue(VariableAt(variables[..], monitors[i])))
    {
      hide Consistent, DeferredObjects.DeferredObjectTable.Valid, Covered;
      var i := 0;
      while i < |monitors|
        invariant 0 <= i <= |monitors| && marker.Valid() && old(marker.marked) <= marker.marked
        invariant forall k | 0 <= k < i ::
                    Covered(marker.start, marker.marked, MonitorValue(VariableAt(variables[..], monitors[k])))
      {
        ghost var before := marker.marked;
        var mhc := variables[monitors[i]];
        assert Now().HasMonitor(|monitors|, MonitorValue(VariableAt(variables[..], monitors[i])));
        if mhc % 4 == MHC_MONITOR {
          MarkObject(marker, mhc - MHC_MONITOR);
        } else {
          MonitorUncovered(marker.start, marker.mem[..], marker.Now(), marker.marked);
        }
        forall k | 0 <= k < i
          ensures Covered(marker.start, marker.marked, MonitorValue(VariableAt(variables[..], monitors[k])))
        {
          CoveredMore(marker.start, before, marker.marked, MonitorValue(VariableAt(variables[..], monitors[k])));
        }
        i := i + 1;
      }
    }

    /** Marks everything that a root points to. */
    method MarkRootObjects(marker: Marker)
      requires marker.Valid() && Reaching(marker.start, Now()) && Now().Distinct() && variables != marker.mem
      modifies marker`marked, marker.mem
      ensures marker.Valid() && old(marker.marked) <= marker.marked
      ensures AllCovered(marker.start, Now(), marker.marked)
    {
      hide Consistent, DeferredObjects.DeferredObjectTable.Valid, Covered, Reaching, Roots.Distinct;
      MarkGlobals(marker);
      ghost var first := marker.marked;
      MarkMonitors(marker);
      ghost var second := marker.marked;
      MarkTemporaries(marker);
      forall v: Cell | Now().HasValue(v)
        ensures Covered(marker.start, marker.marked, v)
      {
        if Now().HasGlobal(|globalRoots|, v) {
          CoveredMore(marker.start, first, marker.marked, v);
        } else if Now().HasMonitor(|monitors|, v) {
          CoveredMore(marker.start, second, marker.marked, v);
        } else {
          var i :| 0 <= i < |Now().temporaries| && TemporaryValue(variables[..], Now().temporaries[i]) == v;
          assert Now().temporaries[i] == temporaryRoots[i];
        }
      }
    }

    /** Rewrites the temporary roots: a derived address keeps its distance to its base. */
    method UpdateTemporaries(mem: array<Cell>, t: Table)
      requires TableIn(mem[..], t) && Now().Distinct() && variables != mem
      modifies variables, temporaryRoots
      ensures TableIn(mem[..], t) && Swept(t.lo, t.hi, t.chunks) && Now().Distinct()
      ensures TemporariesMoved(Now(), old(Now()), t, temporaryRoots.Length)
    {
      hide TableIn, Swept, Relocated, Roots.Distinct;
      ghost var r := Now();
      TableShape(mem[..], t);
      NoneMoved(r, t);
      var i := 0;
      while i < temporaryRoots.Length
        invariant 0 <= i <= temporaryRoots.Length && TemporariesMoved(Now(), r, t, i) && r.Distinct()
      {
        UpdateTemporary(mem, t, i, r);
        i := i + 1;
      }
      DistinctAfter(Now(), r, t, i);
    }

    method UpdateTemporary(mem: array<Cell>, t: Table, i: nat, ghost r: Roots)
      requires TableIn(mem[..], t) && r.Distinct() && variables != mem && i < temporaryRoots.Length
      requires TemporariesMoved(Now(), r, t, i)
      modifies variables, temporaryRoots
      ensures TemporariesMoved(Now(), r, t, i + 1)
    {
      hide TableIn, Swept, Relocated, Roots.Distinct;
      ghost var before := Now();
      TableShape(mem[..], t);
      TemporaryNext(before, r, t, i);
      assert temporaryRoots[i] == before.temporaries[i];
      match temporaryRoots[i] {
        case Location(v) =>
          variables[v] := UpdatePointer(mem, t, variables[v]);
          assert variables[..] == before.variables[v := Relocated(t, before.variables[v])];
        case Derived(v, base) =>
          var newBase := UpdatePointer(mem, t, base);
          temporaryRoots[i] := Derived(v, newBase);
          variables[v] := Rebased(variables[v], base, newBase);
          assert temporaryRoots[..] == before.temporaries[i := Derived(v, newBase)];
          assert variables[..] == before.variables[v := Rebased(before.variables[v], base, newBase)];
      }
      TemporaryDone(Now(), before, r, t, i);
    }

    /** updateMonitor on the classes and the interned strings. */
    method UpdateMonitors(mem: array<Cell>, t: Table)
      requires TableIn(mem[..], t) && Now().Distinct() && variables != mem
      modifies variables
      ensures TableIn(mem[..], t)
      ensures Rewritten(variables[..], old(variables[..]), t, Tagged(old(variables[..]), monitors))
    {
      hide TableIn, Rewritten, Swept, Relocated;
      ghost var m := variables[..];
      TableShape(mem[..], t);
      RewrittenNone(m, t);
      assert Tagged(m, monitors[..0]) == {};
      var i := 0;
      while i < |monitors|
        invariant 0 <= i <= |monitors| && Rewritten(variables[..], m, t, Tagged(m, monitors[..i]))
      {
        UpdateMonitor(mem, t, i, m);
        i := i + 1;
      }
      assert monitors[..i] == monitors;
    }

    method UpdateMonitor(mem: array<Cell>, t: Table, i: nat, ghost m: seq<Cell>)
      requires TableIn(mem[..], t) && variables != mem && i < |monitors| && NoDuplicates(monitors)
      requires monitors[i] < variables.Length
      requires Rewritten(variables[..], m, t, Tagged(m, monitors[..i]))
      modifies variables
      ensures Rewritten(variables[..], m, t, Tagged(m, monitors[..i + 1]))
    {
      hide TableIn, Rewritten, Swept, Relocated;
      ghost var before := variables[..];
      TableShape(mem[..], t);
      var k := monitors[i];
      assert k !in monitors[..i];
      assert monitors[..i + 1] == monitors[..i] + [k];
      RewrittenAt(before, m, t, Tagged(m, monitors[..i]), k);
      if variables[k] % 4 != MHC_UNLOCKED {
        variables[k] := UpdatePointer(mem, t, variables[k]);
        RewrittenOne(before, t, k);
        assert variables[..] == before[k := Relocated(t, before[k])];
        assert Tagged(m, monitors[..i + 1]) == Tagged(m, monitors[..i]) + {k};
        RewrittenTrans(variables[..], before, m, t, Tagged(m, monitors[..i]), {k});
      } else {
        assert Tagged(m, monitors[..i + 1]) == Tagged(m, monitors[..i]);
      }
    }

    /** Rewrites everything that was marked from, and the other tagged pointers of classes and interned strings. */
    method UpdateRootObjects(mem: array<Cell>, t: Table)
      requires TableIn(mem[..], t) && Now().Distinct() && variables != mem
      modifies variables, temporaryRoots
      ensures TableIn(mem[..], t) && Swept(t.lo, t.hi, t.chunks)
      ensures RootsMoved(Now(), old(Now()), t)
    {
      hide TableIn, Rewritten, Swept, Relocated, Roots.Distinct, TemporariesMoved, RootsMoved;
      ghost var r := Now();
      TableShape(mem[..], t);
      GlobalsWritable(mem, t, variables, r);
      UpdatePointers(mem, t, variables, globalRoots);
      ghost var r1 := Now();
      DistinctKept(r1, r, t);
      UpdateTemporaries(mem, t);
      ghost var r2 := Now();
      UpdateMonitors(mem, t);
      AllMoved(Now(), r2, r1, r, t);
    }
  }

  /** The monitorOrHashCode cells that hold a tagged pointer. */
  ghost function Tagged(variables: seq<Cell>, monitors: seq<nat>): set<nat> {
    set k | k in monitors && k < |variables| && variables[k] % 4 != MHC_UNLOCKED
  }

  lemma GlobalsWritable(mem: array<Cell>, t: Table, variables: array<Cell>, r: Roots)
    requires r.Distinct() && variables != mem && r.variables == variables[..]
    ensures Writable(mem, t, variables, r.globals)
  {
    forall s | s in r.globals
      ensures s < variables.Length
    {
      var i :| 0 <= i < |r.globals| && r.globals[i] == s;
    }
  }

  lemma DistinctKept(r1: Roots, r: Roots, t: Table)
    requires r.Distinct() && |r1.variables| == |r.variables|
    requires r1.globals == r.globals && r1.monitors == r.monitors && r1.temporaries == r.temporaries
    ensures r1.Distinct()
  {
  }

  /** What has become of the roots. */
  ghost predicate RootsMoved(r2: Roots, r: Roots, t: Table) {
    && Swept(t.lo, t.hi, t.chunks) && r2.globals == r.globals && r2.monitors == r.monitors
    && |r2.temporaries| == |r.temporaries| && |r2.variables| == |r.variables|
    && (forall k {:trigger r2.variables[k]} | k in r.globals && k < |r.variables| ::
          r2.variables[k] == Relocated(t, r.variables[k]))
    && (forall i | 0 <= i < |r.temporaries| :: TemporaryMoved(r2, r, t, i))
    && (forall k {:trigger r2.variables[k]} | k in r.monitors && k < |r.variables| ::
          r2.variables[k] == if r.variables[k] % 4 == MHC_UNLOCKED then r.variables[k]
                             else Relocated(t, r.variables[k]))
    && (forall k: nat {:trigger r2.variables[k]} | k < |r.variables| && k !in r.globals && k !in r.monitors
                                                    && !IsTemporary(r, |r.temporaries|, k) ::
                                                         r2.variables[k] == r.variables[k])
  }

  lemma AllMoved(r3: Roots, r2: Roots, r1: Roots, r: Roots, t: Table)
    requires r.Distinct() && |r1.variables| == |r.variables|
    requires r1.globals == r.globals && r1.monitors == r.monitors && r1.temporaries == r.temporaries
    requires Rewritten(r1.variables, r.variables, t, Elements(r.globals))
    requires TemporariesMoved(r2, r1, t, |r.temporaries|)
    requires r3.globals == r.globals && r3.monitors == r.monitors && r3.temporaries == r2.temporaries
    requires Rewritten(r3.variables, r2.variables, t, Tagged(r2.variables, r.monitors))
    ensures RootsMoved(r3, r, t)
  {
    hide Swept, Relocated, Rebased;
    forall i | 0 <= i < |r.temporaries|
      ensures TemporaryMoved(r3, r, t, i)
    {
      assert TemporaryMoved(r2, r1, t, i);
      var v := r.temporaries[i].variable;
      assert v !in r.globals && v !in r.monitors;
    }
    forall k: nat | k < |r.variables| && (k in r.globals || k in r.monitors)
      ensures !IsTemporary(r1, |r.temporaries|, k)
    {
    }
  }

  /** A temporary root after relocation. */
  ghost predicate TemporaryMoved(r2: Roots, r: Roots, t: Table, i: nat)
    requires Swept(t.lo, t.hi, t.chunks) && i < |r.temporaries| == |r2.temporaries|
  {
    match r.temporaries[i]
    case Location(v) =>
      && v < |r.variables| == |r2.variables| && r2.temporaries[i] == r.temporaries[i]
      && r2.variables[v] == Relocated(t, r.variables[v])
    case Derived(v, base) =>
      && v < |r.variables| == |r2.variables| && r2.temporaries[i] == Derived(v, Relocated(t, base))
      && r2.variables[v] == Rebased(r.variables[v], base, Relocated(t, base))
  }

  /** Variable k belongs to one of the first n temporary roots. */
  ghost predicate IsTemporary(r: Roots, n: nat, k: nat) {
    exists i | 0 <= i < n && i < |r.temporaries| :: r.temporaries[i].variable == k
  }

  /** The first n temporary roots are relocated, everything else is unchanged. */
  ghost predicate TemporariesMoved(r2: Roots, r: Roots, t: Table, n: nat) {
    && Swept(t.lo, t.hi, t.chunks) && n <= |r.temporaries| == |r2.temporaries| && |r.variables| == |r2.variables|
    && r2.globals == r.globals && r2.monitors == r.monitors
    && (forall i | 0 <= i < n :: TemporaryMoved(r2, r, t, i))
    && (forall i | n <= i < |r.temporaries| :: r2.temporaries[i] == r.temporaries[i])
    && (forall k: nat {:trigger r2.variables[k]} | k < |r.variables| && !IsTemporary(r, n, k) ::
          r2.variables[k] == r.variables[k])
  }

  lemma NoneMoved(r: Roots, t: Table)
    requires Swept(t.lo, t.hi, t.chunks)
    ensures TemporariesMoved(r, r, t, 0)
  {
  }

  /** The next temporary root is still where it was. */
  lemma TemporaryNext(r2: Roots, r: Roots, t: Table, i: nat)
    requires TemporariesMoved(r2, r, t, i) && r.Distinct() && i < |r.temporaries|
    ensures r2.temporaries[i] == r.temporaries[i]
    ensures r.temporaries[i].variable < |r.variables| && !IsTemporary(r, i, r.temporaries[i].variable)
    ensures r2.variables[r.temporaries[i].variable] == r.variables[r.temporaries[i].variable]
  {
    hide Swept, Relocated;
  }

  /** Relocating one more temporary root. */
  lemma TemporaryDone(r3: Roots, r2: Roots, r: Roots, t: Table, i: nat)
    requires TemporariesMoved(r2, r, t, i) && r.Distinct() && i < |r.temporaries|
    requires |r3.temporaries| == |r.temporaries| && r3.globals == r.globals && r3.monitors == r.monitors
    requires TemporaryMoved(r3, r, t, i)
    requires forall k | 0 <= k < |r.temporaries| && k != i :: r3.temporaries[k] == r2.temporaries[k]
    requires |r3.variables| == |r.variables|
    requires forall k {:trigger r3.variables[k]} | 0 <= k < |r.variables| && k != r.temporaries[i].variable ::
               r3.variables[k] == r2.variables[k]
    ensures TemporariesMoved(r3, r, t, i + 1)
  {
    hide Swept, Relocated, Rebased;
    forall k | 0 <= k < i
      ensures TemporaryMoved(r3, r, t, k)
    {
      assert TemporaryMoved(r2, r, t, k);
    }
    forall k: nat | k < |r.variables| && !IsTemporary(r, i + 1, k)
      ensures r3.variables[k] == r.variables[k]
    {
      assert !IsTemporary(r, i, k);
    }
  }

  lemma DistinctAfter(r2: Roots, r: Roots, t: Table, n: nat)
    requires TemporariesMoved(r2, r, t, n) && r.Distinct()
    ensures r2.Distinct()
  {
    hide Swept, Relocated;
    forall i | 0 <= i < |r.temporaries|
      ensures r2.temporaries[i].variable == r.temporaries[i].variable
    {
      if i < n {
        assert TemporaryMoved(r2, r, t, i);
      }
    }
  }

  lemma MonitorUncovered(g: Start, m: seq<Cell>, s: State, objects: set<nat>)
    requires Consistent(g, m, s)
    ensures Covered(g, objects, NULL)
  {
  }

  lemma CoveredMore(g: Start, before: set<nat>, objects: set<nat>, v: Cell)
    requires Covered(g, before, v) && before <= objects
    ensures Covered(g, objects, v)
  {
  }
}
