/**
 * Locked objects that outlive their threads: a thread that ends between MONITORENTER and MONITOREXIT is no longer in
 * the list of threads (DismantleThread in thread.c), while the object still holds its address. The marking collector
 * (collector.c) rewrites that address without having kept the thread.
 */
module LockOwners {
  import opened Cells
  import opened FreeList
  import opened Objects
  import opened HeapShape
  import opened Marking
  import opened Reachability
  import opened Roots
  import opened Tracing
  import opened Outcomes
  import opened Preservation
  import opened Isomorphism
  import opened Collecting
  import opened CollectionTheorems
  import LockedObjects
  import TwoSpaces

  const MHC_SIMPLE_LOCK := 1
  const MHC_EXTENDED_LOCK := 2

  /** The monitor cell of the object holds the address of the thread that has locked it, with one of two tags. */
  predicate IsLocked(m: seq<Cell>, h: nat) {
    && h + 2 < |m| && HasMonitorCell(KindOf(m[h]))
    && (m[h + 2] % CELL == MHC_SIMPLE_LOCK || m[h + 2] % CELL == MHC_EXTENDED_LOCK)
  }

  /** The header of that thread. */
  function OwnerOf(m: seq<Cell>, h: nat): int
    requires h + 2 < |m|
  {
    HeaderAt(TwoSpaces.Untagged(m[h + 2]))
  }

  predicate IsLockedInHeap(m: seq<Cell>, lo: nat, hi: nat, h: nat) {
    IsLocked(m, h) && InHeap(lo, hi, TwoSpaces.Untagged(m[h + 2]))
  }

  /** After the collection the object holds the new address of its thread, which has been kept. */
  ghost predicate LeadsToOwner(o: Outcome, m5: seq<Cell>, h: nat) {
    && h + 2 < |o.g.m0| && o.Place(h) + 2 < |m5|
    && OwnerOf(o.g.m0, h) in o.g.reachable
    && TwoSpaces.Untagged(m5[o.Place(h) + 2]) == NewPointer(o, OwnerOf(o.g.m0, h))
  }

  lemma LockMoved(o: Outcome, m5: seq<Cell>, chunks: seq<Chunk>, first: Cell, h: nat)
    requires Preserved(o, m5, chunks, first) && h in o.g.reachable && IsLocked(o.g.m0, h)
    ensures o.Place(h) + 2 < |m5| && m5[o.Place(h) + 2] % CELL == o.g.m0[h + 2] % CELL
    ensures OwnerOf(o.g.m0, h) in o.g.reachable ==> LeadsToOwner(o, m5, h)
  {
    hide Preserved, PointerMoved, Tiled, KindOf, Outcome.Place, Inside;
    MhcMoved(o, m5, chunks, first, h);
    var v := o.g.m0[h + 2];
    if OwnerOf(o.g.m0, h) in o.g.reachable {
      InUnsigned(v);
      InsideObject(o, m5, chunks, first, v, v % CELL);
      MovedWithOwner(o, v, m5[o.Place(h) + 2], OwnerOf(o.g.m0, h));
    }
  }

  /** What a lock becomes: it keeps its tag, and leads to its thread exactly if the thread could be reached. */
  lemma LockFollowsOwnerIff(o: Outcome, classOf: Cell -> Class, m0: seq<Cell>, lo: nat, hi: nat, r0: Roots,
                            m5: seq<Cell>, r: Roots, m2: seq<Cell>, chunks: seq<Chunk>, first: Cell, h: nat)
    requires Ready(classOf, m0, lo, hi, r0) && Collection(o, classOf, m0, lo, hi, r0, m5, r, m2, chunks, first)
    requires Tiled(m0, lo, hi) && h in Alive(classOf, m0, lo, hi, r0) && IsLockedInHeap(m0, lo, hi, h)
    ensures o.g.m0 == m0 && o.Place(h) + 2 < |m5| && m5[o.Place(h) + 2] % CELL == m0[h + 2] % CELL
    ensures LeadsToOwner(o, m5, h) <==> OwnerOf(m0, h) in Alive(classOf, m0, lo, hi, r0)
  {
    CollectionIsCorrect(o, classOf, m0, lo, hi, r0, m5, r, m2, chunks, first);
    assert o.g.classOf == classOf && o.g.lo == lo && o.g.hi == hi && o.g.m0 == m0 && h in o.g.reachable;
    assert o.g.reachable == Alive(classOf, m0, lo, hi, r0);
    hide Ready, Collection, Correct, Tiled, Alive, IsLocked, InHeap, Outcome.Place, LeadsToOwner;
    CorrectIsPreserved(o, m5, r, r0, chunks, first);
    LockMoved(o, m5, chunks, first, h);
    if LeadsToOwner(o, m5, h) {
      LeadsToKept(o, m5, h);
    }
  }

  lemma LeadsToKept(o: Outcome, m5: seq<Cell>, h: nat)
    requires LeadsToOwner(o, m5, h)
    ensures h + 2 < |o.g.m0| && OwnerOf(o.g.m0, h) in o.g.reachable
  {
  }

  lemma CorrectIsPreserved(o: Outcome, m5: seq<Cell>, r: Roots, r0: Roots, chunks: seq<Chunk>, first: Cell)
    requires Correct(o, m5, r, r0, chunks, first)
    ensures Preserved(o, m5, chunks, first)
  {
  }

  lemma InUnsigned(v: Cell)
    requires HeaderAt(TwoSpaces.Untagged(v)) >= 0
    ensures CELL + v % CELL <= v && (v - v % CELL) % CELL == 0
  {
  }

  lemma MovedWithOwner(o: Outcome, v: Cell, w: Cell, owner: nat)
    requires PointerMoved(o, v, w) && Inside(o.g, owner, v) && v == CELL * (owner + HEADERSIZE) + v % CELL
    ensures TwoSpaces.Untagged(w) == NewPointer(o, owner)
  {
    hide Inside, Outcome.Place;
  }

  /** The threads that have locked live objects are alive. */
  ghost predicate OwnersAlive(classOf: Cell -> Class, m: seq<Cell>, lo: nat, hi: nat, r: Roots)
    requires Tiled(m, lo, hi)
  {
    forall h | h in Alive(classOf, m, lo, hi, r) && IsLockedInHeap(m, lo, hi, h) ::
      OwnerOf(m, h) in Alive(classOf, m, lo, hi, r)
  }

  /** After a collection every lock leads to its thread, exactly if all these threads could be reached before. */
  lemma LocksFollowIff(o: Outcome, classOf: Cell -> Class, m0: seq<Cell>, lo: nat, hi: nat, r0: Roots,
                       m5: seq<Cell>, r: Roots, m2: seq<Cell>, chunks: seq<Chunk>, first: Cell)
    requires Ready(classOf, m0, lo, hi, r0) && Collection(o, classOf, m0, lo, hi, r0, m5, r, m2, chunks, first)
    requires Tiled(m0, lo, hi)
    ensures (forall h | h in Alive(classOf, m0, lo, hi, r0) && IsLockedInHeap(m0, lo, hi, h) :: LeadsToOwner(o, m5, h))
            <==> OwnersAlive(classOf, m0, lo, hi, r0)
  {
    hide Ready, Collection, Tiled, Alive, LeadsToOwner, Outcome.Place, InHeap, KindOf;
    forall h | h in Alive(classOf, m0, lo, hi, r0) && IsLockedInHeap(m0, lo, hi, h)
      ensures LeadsToOwner(o, m5, h) <==> OwnerOf(m0, h) in Alive(classOf, m0, lo, hi, r0)
    {
      LockFollowsOwnerIff(o, classOf, m0, lo, hi, r0, m5, r, m2, chunks, first, h);
    }
  }

  /** A variable that holds the locked object, as after the end of the thread. */
  function Variables(): Roots {
    Roots([60], [0], [], [])
  }

  lemma OnlyValue(v: Cell)
    requires Variables().HasValue(v)
    ensures v == 60
  {
  }

  lemma HeapIsReady()
    ensures Ready(LockedObjects.NoClasses, LockedObjects.Memory(), 1, 17, Variables())
    ensures Tiled(LockedObjects.Memory(), 1, 17) && Variables().Targets(LockedObjects.Memory(), 1, 17) == {14}
  {
    var m, r := LockedObjects.Memory(), Variables();
    LockedObjects.Layout();
    LockedObjects.Slots();
    hide Tiled, Headers, SizeOf, KindOf, IsMarked, Roots.HasValue, Fits, StrongSlots, HasRealMonitor;
    forall v: Cell | r.HasValue(v)
      ensures PointsWell(m, 1, 17, v) && v == 60
    {
      OnlyValue(v);
    }
    ValueIsThere();
    assert r.Distinct();
  }

  lemma ValueIsThere()
    ensures Variables().HasValue(60)
  {
    assert VariableAt(Variables().variables, Variables().globals[0]) == 60;
    assert Variables().HasGlobal(1, 60);
  }

  /** The object at 14 is locked by the thread at 1. */
  lemma LockOfSample()
    ensures var m := LockedObjects.Memory();
            && IsLockedInHeap(m, 1, 17, 14) && OwnerOf(m, 14) == 1 && KindOf(m[1]) == GCT_THREAD
            && Tiled(m, 1, 17) && 1 in Headers(m, 1, 17)
  {
    LockedObjects.Layout();
    LockedObjects.Slots();
    hide Tiled, Headers, KindOf;
    assert LockedObjects.Memory()[16] == 9;
  }

  lemma OnlyTheLockedIsAlive()
    ensures var m := LockedObjects.Memory();
            && Ready(LockedObjects.NoClasses, m, 1, 17, Variables()) && Tiled(m, 1, 17)
            && Alive(LockedObjects.NoClasses, m, 1, 17, Variables()) == {14}
  {
    HeapIsReady();
    hide Tiled, Headers, Ready, Roots.Targets, ReachedIn;
    LockedObjects.MarkedAreRoots({14});
  }

  /** A heap that is ready for a collection with a live object whose lock leads to a thread that will not be kept. */
  lemma OwnerIsLost()
    ensures var m := LockedObjects.Memory();
            && Ready(LockedObjects.NoClasses, m, 1, 17, Variables()) && Tiled(m, 1, 17)
            && Alive(LockedObjects.NoClasses, m, 1, 17, Variables()) == {14} && IsLockedInHeap(m, 1, 17, 14)
            && OwnerOf(m, 14) == 1 && 1 in Headers(m, 1, 17) && KindOf(m[1]) == GCT_THREAD
            && !OwnersAlive(LockedObjects.NoClasses, m, 1, 17, Variables())
  {
    OnlyTheLockedIsAlive();
    LockOfSample();
    hide Tiled, Headers, Ready, Alive, IsLockedInHeap, LockedObjects.Memory, KindOf;
  }
}
