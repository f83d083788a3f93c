/**
 * What a copying collection does to fields, items and roots, told from the classes of the objects: everything that they
 * lead to is copied, and they lead to the copy.
 */
module FollowedCopies {
  import opened Cells
  import opened FreeList
  import opened Objects
  import opened HeapShape
  import opened Marking
  import opened Roots
  import opened TwoSpaces
  import opened CheneyCopying
  import opened CheneyRoots
  import opened CheneyReachability
  import opened CheneyWeak
  import opened CheneyCollection
  import opened CheneyAfter
  import opened CheneyNext
  import opened PointerCells

  /** w is the address of the copy of the object that v has led to. */
  ghost predicate CopyLeadsOn(sp: Spaces, where: map<nat, nat>, v: Cell, w: Cell) {
    if InHeap(sp.lo, sp.hi, v) then HeaderAt(v) in where && w == CELL * (where[HeaderAt(v)] + HEADERSIZE) else w == v
  }

  /** A reference that is followed, or a link between threads and monitors. */
  ghost predicate IsFollowedPointer(sp: Spaces, h: nat, s: nat) {
    && h < |sp.m0|
    && ((IsReference(sp.classOf, sp.m0, h, s) && KindOf(sp.m0[h]) !in {GCT_WEAKPOINTERLIST, GCT_WEAKREFERENCE})
        || IsQueueCell(sp.m0, h, s))
  }

  /** A reference is not the monitor cell, neither in the object nor in its copy. */
  lemma ReferenceIsNoLock(sp: Spaces, h: nat, s: nat, m: seq<Cell>, n: nat)
    requires h < |sp.m0| && n < |m| && m[n] == sp.m0[h]
    requires IsFollowedPointer(sp, h, s)
    ensures h < s && !IsMonitorSlot(sp.m0, h, s) && !IsMonitorSlot(m, n, n + (s - h))
  {
    hide KindOf, HasPointerField;
  }

  lemma MovedLeadsOn(sp': Spaces, sp: Spaces, p: Progress, v: Cell, w: Cell)
    requires PointerMoved(sp', sp, p.where, v, w)
    ensures CopyLeadsOn(sp, p.where, v, w)
  {
  }

  /** The references of copied objects, inherited fields among them, and the links of threads and monitors. */
  lemma ReferenceCopied(sp': Spaces, r2: Roots, m: seq<Cell>, sp: Spaces, p: Progress, r: Roots, from: nat,
                        to: nat, h: nat, s: nat)
    requires Collection(sp', r2, m, sp, p, r, from, to) && h in Kept(sp, RootTargets(sp, r))
    requires IsFollowedPointer(sp, h, s)
    ensures h in p.where && s < |sp.m0| && 0 <= s - h + p.where[h] < |m|
    ensures InHeap(sp.lo, sp.hi, sp.m0[s]) ==> HeaderAt(sp.m0[s]) in Kept(sp, RootTargets(sp, r))
    ensures CopyLeadsOn(sp, p.where, sp.m0[s], m[s - h + p.where[h]])
  {
    hide Collection, Evacuated, Tiled, Headers, Kept, RootTargets, WellRooted, RootsForwarded, Settled,
      KindOf, IsReference, ScanSlots, Follows, Good, GoodWeakPointers, Apart, SizeOf, PointerMoved, Fits,
      IsMonitorSlot;
    CollectionFacts(sp', r2, m, sp, p, r, from, to);
    ShapeCells(m, sp, p, h);
    ScanSlotsAre(sp.classOf, sp.m0, h, s);
    ReferenceIsNoLock(sp, h, s, m, p.where[h]);
    SlotMoves(sp', m, sp, p, r, from, to, h, s);
    MovedLeadsOn(sp', sp, p, sp.m0[s], m[s - h + p.where[h]]);
  }

  /** The lock of the object at h has kept its tag and leads to the copy of what it has led to. */
  ghost predicate LockLeadsOn(sp: Spaces, where: map<nat, nat>, m: seq<Cell>, h: nat) {
    && h + 2 < |sp.m0| && h in where && where[h] + 2 < |m|
    && var v, w := sp.m0[h + 2], m[where[h] + 2];
       w % 4 == v % 4 && CopyLeadsOn(sp, where, v - v % 4, w - w % 4)
  }

  /** The monitor or the thread that the lock of a copied object leads to. */
  lemma LockCopied(sp': Spaces, r2: Roots, m: seq<Cell>, sp: Spaces, p: Progress, r: Roots, from: nat, to: nat, h: nat)
    requires Collection(sp', r2, m, sp, p, r, from, to) && h in Kept(sp, RootTargets(sp, r))
    requires IsLockCell(sp.m0, h, h + 2)
    ensures LockLeadsOn(sp, p.where, m, h)
  {
    hide Collection, Evacuated, Tiled, Headers, Kept, RootTargets, WellRooted, RootsForwarded, Settled, KindOf,
      ScanSlots, Follows, Good, GoodWeakPointers, Apart, SizeOf, PointerMoved, Fits;
    CollectionFacts(sp', r2, m, sp, p, r, from, to);
    ShapeCells(m, sp, p, h);
    ScanSlotsAre(sp.classOf, sp.m0, h, h + 2);
    assert IsMonitorSlot(sp.m0, h, h + 2) && IsMonitorSlot(m, p.where[h], p.where[h] + 2);
    SlotMoves(sp', m, sp, p, r, from, to, h, h + 2);
    MovedLeadsOn(sp', sp, p, Untagged(sp.m0[h + 2]), Untagged(m[p.where[h] + 2]));
  }

  lemma ForwardedLeadsOn(m: seq<Cell>, sp: Spaces, p: Progress, v: Cell)
    requires Evacuated(m, sp, p) && HasCopy(sp, p.where, v) && PointsToObject(sp, v) && Tiled(sp.m0, sp.lo, sp.free)
    ensures CopyLeadsOn(sp, p.where, v, Forwarded(sp, p.where, v))
  {
    EvacuatedFacts(m, sp, p);
    hide Evacuated, Headers, Tiled, Good, TargetFree, InOrder;
    if InHeap(sp.lo, sp.hi, v) {
      assert Untagged(v) == v;
    } else {
      NotForwarded(sp, p.where, v);
    }
  }

  /** The pointer that the i-th global root holds. */
  lemma GlobalCopied(sp': Spaces, r2: Roots, m: seq<Cell>, sp: Spaces, p: Progress, r: Roots, from: nat, to: nat,
                     i: nat)
    requires Collection(sp', r2, m, sp, p, r, from, to) && i < |r.globals|
    ensures r2.globals == r.globals && r.globals[i] < |r.variables| == |r2.variables|
    ensures CopyLeadsOn(sp, p.where, r.variables[r.globals[i]], r2.variables[r.globals[i]])
  {
    hide Collection, Evacuated, Tiled, Headers, Kept, RootTargets, Settled, Follows, Good, GoodWeakPointers, Apart,
      PointsToObject, HasCopy, CopyLeadsOn, Forwarded, Rebased;
    CollectionFacts(sp', r2, m, sp, p, r, from, to);
    assert GlobalMoved(r2, r, sp, p.where, i);
    var v := r.variables[r.globals[i]];
    assert VariableAt(r.variables, r.globals[i]) == v && IsRootPointer(r, v);
    ForwardedLeadsOn(m, sp, p, v);
  }

  /** The object pointer of the i-th temporary root, and the distance of a derived address from its base. */
  lemma TemporaryCopied(sp': Spaces, r2: Roots, m: seq<Cell>, sp: Spaces, p: Progress, r: Roots, from: nat, to: nat,
                        i: nat)
    requires Collection(sp', r2, m, sp, p, r, from, to) && i < |r.temporaries|
    ensures |r2.temporaries| == |r.temporaries| && |r2.variables| == |r.variables|
    ensures match r.temporaries[i]
            case Location(v) =>
              && v < |r.variables| && r2.temporaries[i] == r.temporaries[i]
              && CopyLeadsOn(sp, p.where, r.variables[v], r2.variables[v])
            case Derived(v, base) =>
              && v < |r.variables| && r2.temporaries[i].Derived? && r2.temporaries[i].variable == v
              && CopyLeadsOn(sp, p.where, base, r2.temporaries[i].base)
              && (r2.variables[v] - r2.temporaries[i].base) % 0x1_0000_0000 == (r.variables[v] - base) % 0x1_0000_0000
  {
    hide Collection, Evacuated, Tiled, Headers, Kept, RootTargets, Settled, Follows, Good, GoodWeakPointers, Apart,
      PointsToObject, HasCopy, CopyLeadsOn, Forwarded;
    CollectionFacts(sp', r2, m, sp, p, r, from, to);
    assert CheneyRoots.TemporaryMoved(r2, r, sp, p.where, i);
    var v := TemporaryValue(r.variables, r.temporaries[i]);
    assert IsRootPointer(r, v);
    ForwardedLeadsOn(m, sp, p, v);
  }

  /** The monitor, or the thread, of the i-th class or interned string. */
  lemma MonitorRootCopied(sp': Spaces, r2: Roots, m: seq<Cell>, sp: Spaces, p: Progress, r: Roots, from: nat, to: nat,
                          i: nat)
    requires Collection(sp', r2, m, sp, p, r, from, to) && i < |r.monitors|
    ensures r2.monitors == r.monitors && r.monitors[i] < |r.variables| == |r2.variables|
    ensures var v, w := r.variables[r.monitors[i]], r2.variables[r.monitors[i]];
            w % 4 == v % 4 && (v % 4 != MHC_UNLOCKED ==> CopyLeadsOn(sp, p.where, v - v % 4, w - w % 4))
  {
    hide Collection, Evacuated, Tiled, Headers, Kept, RootTargets, Settled, Follows, Good, GoodWeakPointers, Apart,
      PointsToObject, HasCopy, CopyLeadsOn, Forwarded, Rebased;
    CollectionFacts(sp', r2, m, sp, p, r, from, to);
    assert MonitorMoved(r2, r, sp, p.where, i);
    var v := MonitorPointer(r, i);
    assert IsRootPointer(r, v);
    CheneyTag(sp, p.where, r.variables[r.monitors[i]]);
    ForwardedLeadsOn(m, sp, p, v);
  }
}
