/** copyRootObjects (collectorDebug.c): what the roots point to is copied first. */
module CheneyRoots {
  import opened Cells
  import opened Objects
  import opened HeapShape
  import opened Marking
  import opened Roots
  import opened TwoSpaces
  import opened CheneyCopying
  import opened CheneyTraversal

  /** A root pointer that the collector may follow. */
  ghost predicate MayFollow(sp: Spaces, v: Cell) {
    && Good(sp) && PointsToObject(sp, v)
    && (InHeap(sp.lo, sp.hi, v) ==> HeaderAt(v) in sp.reachable)
  }

  /** The pointer that the i-th monitor root holds; a cell without a tag holds a hash code. */
  function MonitorPointer(r: Roots, i: nat): Cell
    requires i < |r.monitors|
  {
    var v := VariableAt(r.variables, r.monitors[i]);
    if v % CELL == MHC_UNLOCKED then NULL else Untagged(v)
  }

  /** All roots point to objects that may be kept. */
  ghost predicate GoodRoots(sp: Spaces, r: Roots) {
    && r.Distinct()
    && (forall i | 0 <= i < |r.globals| :: MayFollow(sp, VariableAt(r.variables, r.globals[i])))
    && (forall i | 0 <= i < |r.temporaries| :: MayFollow(sp, TemporaryValue(r.variables, r.temporaries[i])))
    && (forall i | 0 <= i < |r.monitors| :: MayFollow(sp, MonitorPointer(r, i)))
  }

  ghost predicate GlobalMoved(r2: Roots, r: Roots, sp: Spaces, where: map<nat, nat>, i: nat)
    requires i < |r.globals|
  {
    var k := r.globals[i];
    k < |r.variables| && k < |r2.variables| && HasCopy(sp, where, r.variables[k])
      && r2.variables[k] == Forwarded(sp, where, r.variables[k])
  }

  ghost predicate TemporaryMoved(r2: Roots, r: Roots, sp: Spaces, where: map<nat, nat>, i: nat)
    requires i < |r.temporaries|
  {
    && i < |r2.temporaries| && r.temporaries[i].variable < |r.variables| && r.temporaries[i].variable < |r2.variables|
    && match r.temporaries[i]
       case Location(v) =>
         && HasCopy(sp, where, r.variables[v]) && r2.variables[v] == Forwarded(sp, where, r.variables[v])
         && r2.temporaries[i] == r.temporaries[i]
       case Derived(v, base) =>
         && HasCopy(sp, where, base) && r2.temporaries[i] == Derived(v, Forwarded(sp, where, base))
         && r2.variables[v] == Rebased(r.variables[v], base, Forwarded(sp, where, base))
  }

  ghost predicate MonitorMoved(r2: Roots, r: Roots, sp: Spaces, where: map<nat, nat>, i: nat)
    requires i < |r.monitors|
  {
    var k := r.monitors[i];
    && k < |r.variables| && k < |r2.variables| && HasCopy(sp, where, MonitorPointer(r, i))
    && r2.variables[k] == if r.variables[k] % CELL == MHC_UNLOCKED then r.variables[k]
                          else Forwarded(sp, where, r.variables[k])
  }

  /** Variable k is not one of the roots done so far. */
  ghost predicate IsUntouched(r: Roots, k: nat, ng: nat, nt: nat, nm: nat) {
    && (forall i | 0 <= i < ng && i < |r.globals| :: r.globals[i] != k)
    && (forall i | 0 <= i < nt && i < |r.temporaries| :: r.temporaries[i].variable != k)
    && (forall i | 0 <= i < nm && i < |r.monitors| :: r.monitors[i] != k)
  }

  /**
   * The first ng global roots, nt temporary roots and nm monitors have been forwarded; everything else is unchanged.
   */
  ghost predicate RootsForwarded(r2: Roots, r: Roots, sp: Spaces, where: map<nat, nat>, ng: nat, nt: nat, nm: nat) {
    && |r2.variables| == |r.variables| && r2.globals == r.globals && r2.monitors == r.monitors
       && |r2.temporaries| == |r.temporaries|
    && ng <= |r.globals| && nt <= |r.temporaries| && nm <= |r.monitors|
    && (forall i | 0 <= i < ng :: GlobalMoved(r2, r, sp, where, i))
    && (forall i | 0 <= i < nt :: TemporaryMoved(r2, r, sp, where, i))
    && (forall i | nt <= i < |r.temporaries| :: r2.temporaries[i] == r.temporaries[i])
    && (forall i | 0 <= i < nm :: MonitorMoved(r2, r, sp, where, i))
    && (forall k: nat {:trigger r2.variables[k]} | k < |r.variables| && IsUntouched(r, k, ng, nt, nm) ::
          r2.variables[k] == r.variables[k])
  }

  /** Copying more changes nothing for the roots that are done. */
  lemma RootsStay(r2: Roots, r: Roots, sp: Spaces, p': Progress, p: Progress, ng: nat, nt: nat, nm: nat)
    requires RootsForwarded(r2, r, sp, p.where, ng, nt, nm) && Grown(p', p)
    ensures RootsForwarded(r2, r, sp, p'.where, ng, nt, nm)
  {
    hide HasCopy, Forwarded, Rebased, MonitorPointer, IsUntouched;
    forall i | 0 <= i < ng
      ensures GlobalMoved(r2, r, sp, p'.where, i)
    {
      assert GlobalMoved(r2, r, sp, p.where, i);
      ForwardedKept(sp, p.where, p'.where, r.variables[r.globals[i]]);
    }
    forall i | 0 <= i < nt
      ensures TemporaryMoved(r2, r, sp, p'.where, i)
    {
      assert TemporaryMoved(r2, r, sp, p.where, i);
      match r.temporaries[i] {
        case Location(v) => ForwardedKept(sp, p.where, p'.where, r.variables[v]);
        case Derived(_, base) => ForwardedKept(sp, p.where, p'.where, base);
      }
    }
    forall i | 0 <= i < nm
      ensures MonitorMoved(r2, r, sp, p'.where, i)
    {
      MonitorStays(r2, r, sp, p'.where, p.where, i);
    }
  }

  lemma MonitorStays(r2: Roots, r: Roots, sp: Spaces, where': map<nat, nat>, where: map<nat, nat>, i: nat)
    requires i < |r.monitors| && MonitorMoved(r2, r, sp, where, i) && forall h | h in where ::
               h in where' && where'[h] == where[h]
    ensures MonitorMoved(r2, r, sp, where', i)
  {
    hide Forwarded, HasCopy;
    var v := r.variables[r.monitors[i]];
    ForwardedKept(sp, where, where', MonitorPointer(r, i));
    if v % CELL != MHC_UNLOCKED {
      CheneyTags(sp, where, v);
      ForwardedKept(sp, where, where', v);
    }
  }

  lemma CheneyTags(sp: Spaces, where: map<nat, nat>, v: Cell)
    ensures HasCopy(sp, where, Untagged(v)) == HasCopy(sp, where, v)
  {
  }

  /** Setting variable k, which is not yet done, leaves what is done as it is. */
  lemma OthersStay(r3: Roots, r2: Roots, r: Roots, sp: Spaces, where: map<nat, nat>, ng: nat, nt: nat, nm: nat, k: nat)
    requires RootsForwarded(r2, r, sp, where, ng, nt, nm) && IsUntouched(r, k, ng, nt, nm) && k < |r.variables|
    requires |r3.variables| == |r.variables| && forall j {:trigger r3.variables[j]} | 0 <= j < |r.variables|
             && j != k :: r3.variables[j] == r2.variables[j]
    requires |r3.temporaries| == |r.temporaries| && forall i | 0 <= i < nt :: r3.temporaries[i] == r2.temporaries[i]
    ensures forall i | 0 <= i < ng :: GlobalMoved(r3, r, sp, where, i)
    ensures forall i | 0 <= i < nt :: TemporaryMoved(r3, r, sp, where, i)
    ensures forall i | 0 <= i < nm :: MonitorMoved(r3, r, sp, where, i)
    ensures r2.variables[k] == r.variables[k]
  {
    hide Forwarded, HasCopy, Rebased, MonitorPointer;
    forall i | 0 <= i < ng
      ensures GlobalMoved(r3, r, sp, where, i)
    {
      assert GlobalMoved(r2, r, sp, where, i);
    }
    forall i | 0 <= i < nt
      ensures TemporaryMoved(r3, r, sp, where, i)
    {
      assert TemporaryMoved(r2, r, sp, where, i);
    }
    forall i | 0 <= i < nm
      ensures MonitorMoved(r3, r, sp, where, i)
    {
      assert MonitorMoved(r2, r, sp, where, i);
    }
  }

  lemma GlobalDone(r3: Roots, r2: Roots, r: Roots, sp: Spaces, where: map<nat, nat>, ng: nat)
    requires r.Distinct() && RootsForwarded(r2, r, sp, where, ng, 0, 0) && ng < |r.globals|
    requires r.globals[ng] < |r.variables|
    requires HasCopy(sp, where, r.variables[r.globals[ng]])
    requires r3 == r2.(variables := r2.variables[r.globals[ng] := Forwarded(sp, where, r.variables[r.globals[ng]])])
    ensures RootsForwarded(r3, r, sp, where, ng + 1, 0, 0)
  {
    hide Forwarded, HasCopy;
    var k := r.globals[ng];
    OthersStay(r3, r2, r, sp, where, ng, 0, 0, k);
    assert GlobalMoved(r3, r, sp, where, ng);
    forall j: nat | j < |r.variables| && IsUntouched(r, j, ng + 1, 0, 0)
      ensures r3.variables[j] == r.variables[j]
    {
      assert IsUntouched(r, j, ng, 0, 0) && j != k;
    }
  }

  lemma TemporaryDone(r3: Roots, r2: Roots, r: Roots, sp: Spaces, where: map<nat, nat>, nt: nat)
    requires r.Distinct() && RootsForwarded(r2, r, sp, where, |r.globals|, nt, 0) && nt < |r.temporaries|
    requires r.temporaries[nt].variable < |r.variables|
    requires r3.globals == r.globals && r3.monitors == r.monitors && |r3.variables| == |r.variables|
    requires |r3.temporaries| == |r.temporaries|
    requires forall j {:trigger r3.variables[j]} | 0 <= j < |r.variables| && j != r.temporaries[nt].variable ::
               r3.variables[j] == r2.variables[j]
    requires forall i | 0 <= i < |r.temporaries| && i != nt :: r3.temporaries[i] == r2.temporaries[i]
    requires TemporaryMoved(r3, r, sp, where, nt)
    ensures RootsForwarded(r3, r, sp, where, |r.globals|, nt + 1, 0)
  {
    hide Forwarded, HasCopy, Rebased;
    var k := r.temporaries[nt].variable;
    TemporaryUntouched(r, nt);
    OthersStay(r3, r2, r, sp, where, |r.globals|, nt, 0, k);
    forall j: nat | j < |r.variables| && IsUntouched(r, j, |r.globals|, nt + 1, 0)
      ensures r3.variables[j] == r.variables[j]
    {
      assert IsUntouched(r, j, |r.globals|, nt, 0) && j != k;
    }
  }

  lemma TemporaryUntouched(r: Roots, nt: nat)
    requires r.Distinct() && nt < |r.temporaries|
    ensures r.temporaries[nt].variable < |r.variables| && IsUntouched(r, r.temporaries[nt].variable, |r.globals|, nt, 0)
  {
    var k := r.temporaries[nt].variable;
    forall i | 0 <= i < |r.globals|
      ensures r.globals[i] != k
    {
      assert r.globals[i] in r.globals;
    }
  }

  lemma MonitorDone(r3: Roots, r2: Roots, r: Roots, sp: Spaces, where: map<nat, nat>, nm: nat)
    requires r.Distinct() && RootsForwarded(r2, r, sp, where, |r.globals|, |r.temporaries|, nm) && nm < |r.monitors|
    requires r.monitors[nm] < |r.variables|
    requires r3.globals == r.globals && r3.monitors == r.monitors && |r3.variables| == |r.variables|
    requires r3.temporaries == r2.temporaries
    requires forall j {:trigger r3.variables[j]} | 0 <= j < |r.variables| && j != r.monitors[nm] ::
               r3.variables[j] == r2.variables[j]
    requires MonitorMoved(r3, r, sp, where, nm)
    ensures RootsForwarded(r3, r, sp, where, |r.globals|, |r.temporaries|, nm + 1)
  {
    hide Forwarded, HasCopy, MonitorPointer;
    var k := r.monitors[nm];
    MonitorUntouched(r, nm);
    OthersStay(r3, r2, r, sp, where, |r.globals|, |r.temporaries|, nm, k);
    forall j: nat | j < |r.variables| && IsUntouched(r, j, |r.globals|, |r.temporaries|, nm + 1)
      ensures r3.variables[j] == r.variables[j]
    {
      assert IsUntouched(r, j, |r.globals|, |r.temporaries|, nm) && j != k;
    }
  }

  lemma MonitorUntouched(r: Roots, nm: nat)
    requires r.Distinct() && nm < |r.monitors|
    ensures r.monitors[nm] < |r.variables| && IsUntouched(r, r.monitors[nm], |r.globals|, |r.temporaries|, nm)
  {
    assert r.monitors[nm] in r.monitors;
  }

  /** updatePointer on one global root. */
  method CopyGlobal(copier: Copier, roots: RootSet, i: nat, ghost r: Roots)
    requires copier.Valid() && GoodRoots(copier.spaces, r) && i < |roots.globalRoots| && roots.variables != copier.mem
    requires RootsForwarded(roots.Now(), r, copier.spaces, copier.progress.where, i, 0, 0)
    modifies copier, copier.mem, roots.variables
    ensures copier.Valid() && Extends(copier.progress, old(copier.progress))
    ensures RootsForwarded(roots.Now(), r, copier.spaces, copier.progress.where, i + 1, 0, 0)
  {
    hide Copied, Good, Forwarded, HasCopy, PointsToObject, RootsForwarded;
    ghost var sp, p, r2 := copier.spaces, copier.progress, roots.Now();
    GlobalFacts(r2, r, sp, p.where, i);
    var k := roots.globalRoots[i];
    var result := copier.UpdatePointer(roots.variables[k]);
    RootsStay(r2, r, sp, copier.progress, p, i, 0, 0);
    roots.variables[k] := result;
    assert roots.Now() == r2.(variables := r2.variables[k := result]);
    GlobalDone(roots.Now(), r2, r, sp, copier.progress.where, i);
  }

  lemma GlobalFacts(r2: Roots, r: Roots, sp: Spaces, where: map<nat, nat>, i: nat)
    requires GoodRoots(sp, r) && RootsForwarded(r2, r, sp, where, i, 0, 0) && i < |r2.globals|
    ensures r2.globals == r.globals && r.globals[i] < |r.variables| == |r2.variables|
    ensures r2.variables[r.globals[i]] == r.variables[r.globals[i]]
    ensures MayFollow(sp, r.variables[r.globals[i]]) && r.Distinct()
  {
    hide Forwarded, HasCopy, MayFollow, Good;
    assert IsUntouched(r, r.globals[i], i, 0, 0);
  }

  /** One temporary root; a derived address keeps its distance to its base. */
  method CopyTemporary(copier: Copier, roots: RootSet, i: nat, ghost r: Roots)
    requires copier.Valid() && GoodRoots(copier.spaces, r) && i < roots.temporaryRoots.Length
    requires roots.variables != copier.mem
    requires RootsForwarded(roots.Now(), r, copier.spaces, copier.progress.where, |r.globals|, i, 0)
    modifies copier, copier.mem, roots.variables, roots.temporaryRoots
    ensures copier.Valid() && Extends(copier.progress, old(copier.progress))
    ensures RootsForwarded(roots.Now(), r, copier.spaces, copier.progress.where, |r.globals|, i + 1, 0)
  {
    hide Copied, Good, Forwarded, HasCopy, PointsToObject, RootsForwarded, Rebased;
    ghost var sp, p, r2 := copier.spaces, copier.progress, roots.Now();
    TemporaryFacts(r2, r, sp, p.where, i);
    assert roots.temporaryRoots[i] == r2.temporaries[i];
    match roots.temporaryRoots[i] {
      case Location(v) =>
        var result := copier.UpdatePointer(roots.variables[v]);
        RootsStay(r2, r, sp, copier.progress, p, |r.globals|, i, 0);
        roots.variables[v] := result;
        assert roots.Now() == r2.(variables := r2.variables[v := result]);
      case Derived(v, base) =>
        var newBase := copier.UpdatePointer(base);
        RootsStay(r2, r, sp, copier.progress, p, |r.globals|, i, 0);
        ghost var derived := roots.variables[v];
        roots.temporaryRoots[i] := Derived(v, newBase);
        roots.variables[v] := Rebased(roots.variables[v], base, newBase);
        assert roots.Now() == r2.(variables := r2.variables[v := Rebased(derived, base, newBase)],
                                  temporaries := r2.temporaries[i := Derived(v, newBase)]);
    }
    TemporaryDone(roots.Now(), r2, r, sp, copier.progress.where, i);
  }

  lemma TemporaryFacts(r2: Roots, r: Roots, sp: Spaces, where: map<nat, nat>, i: nat)
    requires GoodRoots(sp, r) && RootsForwarded(r2, r, sp, where, |r.globals|, i, 0) && i < |r2.temporaries|
    ensures |r2.temporaries| == |r.temporaries| && r2.temporaries[i] == r.temporaries[i] && r2.globals == r.globals
    ensures r2.monitors == r.monitors
    ensures r.temporaries[i].variable < |r.variables| == |r2.variables|
    ensures r2.variables[r.temporaries[i].variable] == r.variables[r.temporaries[i].variable]
    ensures MayFollow(sp, TemporaryValue(r.variables, r.temporaries[i])) && r.Distinct()
  {
    hide Forwarded, HasCopy, MayFollow, Good, Rebased;
    TemporaryUntouched(r, i);
  }

  /** updateMonitor on one class or interned string. */
  method CopyMonitor(copier: Copier, roots: RootSet, i: nat, ghost r: Roots)
    requires copier.Valid() && GoodRoots(copier.spaces, r) && i < |roots.monitors| && roots.variables != copier.mem
    requires RootsForwarded(roots.Now(), r, copier.spaces, copier.progress.where, |r.globals|, |r.temporaries|, i)
    modifies copier, copier.mem, roots.variables
    ensures copier.Valid() && Extends(copier.progress, old(copier.progress))
    ensures RootsForwarded(roots.Now(), r, copier.spaces, copier.progress.where, |r.globals|, |r.temporaries|, i + 1)
  {
    hide Copied, Good, Forwarded, HasCopy, PointsToObject, RootsForwarded;
    ghost var sp, p, r2 := copier.spaces, copier.progress, roots.Now();
    MonitorFacts(r2, r, sp, p.where, i);
    var k := roots.monitors[i];
    var tag := roots.variables[k] % CELL;
    if tag != MHC_UNLOCKED {
      var value := roots.variables[k];
      var result := copier.UpdatePointer(value - tag);
      RootsStay(r2, r, sp, copier.progress, p, |r.globals|, |r.temporaries|, i);
      CheneyTag(sp, copier.progress.where, value);
      roots.variables[k] := result + tag;
      assert roots.Now() == r2.(variables := r2.variables[k := result + tag]);
    } else {
      NotForwarded(sp, p.where, NULL);
    }
    MonitorDone(roots.Now(), r2, r, sp, copier.progress.where, i);
  }

  lemma CheneyTag(sp: Spaces, where: map<nat, nat>, v: Cell)
    ensures Forwarded(sp, where, Untagged(v)) % CELL == 0
    ensures Forwarded(sp, where, Untagged(v)) + v % CELL == Forwarded(sp, where, v)
  {
    var u := Untagged(v);
    assert u % CELL == 0 && Untagged(u) == u;
  }

  lemma MonitorFacts(r2: Roots, r: Roots, sp: Spaces, where: map<nat, nat>, i: nat)
    requires GoodRoots(sp, r) && RootsForwarded(r2, r, sp, where, |r.globals|, |r.temporaries|, i) && i < |r2.monitors|
    ensures r2.globals == r.globals && r2.monitors == r.monitors && |r2.temporaries| == |r.temporaries|
    ensures r.monitors[i] < |r.variables| == |r2.variables| && r2.variables[r.monitors[i]] == r.variables[r.monitors[i]]
    ensures MayFollow(sp, MonitorPointer(r, i)) && r.Distinct() && 1 <= sp.lo
  {
    hide Forwarded, HasCopy, Rebased;
    MonitorUntouched(r, i);
  }

  /** Copies what the roots point to, and updates the roots. */
  method CopyRootObjects(copier: Copier, roots: RootSet)
    requires copier.Valid() && GoodRoots(copier.spaces, roots.Now()) && roots.variables != copier.mem
    modifies copier, copier.mem, roots.variables, roots.temporaryRoots
    ensures copier.Valid() && Extends(copier.progress, old(copier.progress))
    ensures var r := old(roots.Now());
            RootsForwarded(roots.Now(), r, copier.spaces, copier.progress.where, |r.globals|, |r.temporaries|,
                           |r.monitors|)
  {
    hide Copied, Good, Forwarded, HasCopy, PointsToObject, RootsForwarded, GoodRoots;
    ghost var sp, p, r := copier.spaces, copier.progress, roots.Now();
    NoneForwarded(r, sp, p.where);
    for i := 0 to |roots.globalRoots|
      invariant copier.Valid() && Extends(copier.progress, p)
      invariant RootsForwarded(roots.Now(), r, sp, copier.progress.where, i, 0, 0)
    {
      CopyGlobal(copier, roots, i, r);
    }
    for i := 0 to roots.temporaryRoots.Length
      invariant copier.Valid() && Extends(copier.progress, p)
      invariant RootsForwarded(roots.Now(), r, sp, copier.progress.where, |r.globals|, i, 0)
    {
      CopyTemporary(copier, roots, i, r);
    }
    for i := 0 to |roots.monitors|
      invariant copier.Valid() && Extends(copier.progress, p)
      invariant RootsForwarded(roots.Now(), r, sp, copier.progress.where, |r.globals|, |r.temporaries|, i)
    {
      CopyMonitor(copier, roots, i, r);
    }
  }

  lemma NoneForwarded(r: Roots, sp: Spaces, where: map<nat, nat>)
    ensures RootsForwarded(r, r, sp, where, 0, 0, 0)
  {
  }
}
