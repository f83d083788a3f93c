/** The spaces of the copying collector (collectorDebug.c) and allocation in them. */
module CopyingHeap {
  import opened Cells
  import opened Objects
  import opened HeapShape
  import opened Marking
  import opened Roots
  import opened TwoSpaces
  import opened CheneyCopying
  import CheneyOutcome
  import opened CheneyReachability
  import opened CheneyCollection
  import opened CheneyAfter
  import opened CheneyNext

  lemma Multiple(a: nat, b: nat, size: nat)
    requires a <= b
    ensures a * size <= b * size && (a + 1) * size == a * size + size
  {
    var d := b - a;
    assert b * size == a * size + d * size;
    assert 0 <= d * size;
  }

  lemma NextSpace(start: nat, size: nat, count: nat, i: nat)
    requires i < count
    ensures start + (i + 1) * size <= start + count * size && (i + 1) * size == i * size + size
    ensures i + 1 < count ==> start + (i + 1) * size + size <= start + count * size
    ensures 0 < i ==> start + size <= start + i * size
  {
    Multiple(i + 1, count, size);
    Multiple(i, i, size);
    if i + 1 < count {
      Multiple(i + 2, count, size);
    }
    if 0 < i {
      Multiple(1, i, size);
    }
  }

  /** The cells of the space in use that reachable objects hold. */
  ghost function CellsKept(sp: Spaces, r: Roots): nat {
    if Tiled(sp.m0, sp.lo, sp.free) then Used(sp.m0, sp.lo, sp.free, Kept(sp, RootTargets(sp, r))) else 0
  }

  /** A collection leaves in use exactly the cells that reachable objects hold. */
  lemma CellsAfterCollection(sp': Spaces, r2: Roots, m: seq<Cell>, sp: Spaces, p: Progress, r: Roots, from: nat,
                             to: nat)
    requires Collection(sp', r2, m, sp, p, r, from, to)
    ensures sp'.free - sp'.lo == CellsKept(sp, r)
  {
    hide Collection, Kept, Headers, Tiled, RootTargets, Evacuated, Good, OldSpace, Used, WellRooted, Total;
    CollectionFacts(sp', r2, m, sp, p, r, from, to);
    EvacuatedFacts(m, sp, p);
    TotalIsUsed(sp.m0, sp.lo, sp.free, p.order);
    assert Elements(p.order) == p.where.Keys;
  }

  class Heap {
    const mem: array<Cell>
    const allHeapStart: nat
    const permanentSpace: nat
    const nHeapSize: nat
    ghost const spaceCount: nat
    var currentHeap: nat
    var currentHeapEnd: nat
    var currentHeapFreePtr: nat
    ghost var current: nat

    constructor (mem: array<Cell>, allHeapStart: nat, nHeapSize: nat, spaceCount: nat)
      requires 1 <= allHeapStart && 2 <= spaceCount && 1 <= nHeapSize
      requires allHeapStart + spaceCount * nHeapSize < mem.Length <= MAX_CELLS
      ensures Valid() && this.mem == mem && currentHeapFreePtr == currentHeap == allHeapStart == this.allHeapStart
      ensures this.nHeapSize == nHeapSize
    {
      this.mem, this.allHeapStart, this.nHeapSize, this.spaceCount := mem, allHeapStart, nHeapSize, spaceCount;
      permanentSpace := allHeapStart + spaceCount * nHeapSize;
      currentHeap, currentHeapFreePtr, currentHeapEnd, current :=
        allHeapStart, allHeapStart, allHeapStart + nHeapSize, 0;
    }

    ghost predicate Valid()
      reads this
    {
      && 1 <= allHeapStart && 1 <= nHeapSize && permanentSpace < mem.Length <= MAX_CELLS
      && 2 <= spaceCount && permanentSpace == allHeapStart + spaceCount * nHeapSize
      && current < spaceCount && currentHeap == allHeapStart + current * nHeapSize
         && currentHeapEnd == currentHeap + nHeapSize
      && currentHeap <= currentHeapFreePtr <= currentHeapEnd
    }

    /** The space that the next collection copies to. */
    function NextTarget(): nat
      reads this
    {
      if currentHeapEnd == permanentSpace then allHeapStart else currentHeapEnd
    }

    ghost function SpacesNow(classOf: Cell -> Class): Spaces
      reads this, mem
    {
      Spaces(classOf, mem[..], currentHeap, currentHeapEnd, currentHeapFreePtr, NextTarget(), {})
    }

    /** The target space is another one, and all of it is there. */
    lemma TargetIsApart(classOf: Cell -> Class)
      requires Valid()
      ensures Apart(SpacesNow(classOf)) && allHeapStart <= currentHeap && currentHeapEnd <= permanentSpace
      ensures allHeapStart <= NextTarget() && NextTarget() + nHeapSize <= permanentSpace
      ensures exists k: nat :: k < spaceCount && NextTarget() == allHeapStart + k * nHeapSize
    {
      NextSpace(allHeapStart, nHeapSize, spaceCount, current);
      NextSpace(allHeapStart, nHeapSize, spaceCount, 0);
      if currentHeapEnd == permanentSpace {
        NextSpace(allHeapStart, nHeapSize, spaceCount, 1);
        assert NextTarget() == allHeapStart + 0 * nHeapSize;
      } else {
        assert NextTarget() == allHeapStart + (current + 1) * nHeapSize;
      }
    }

    /** Copies everything reachable to the next space, which then is the one in use. */
    method GarbageCollectForReal(classOf: Cell -> Class, roots: RootSet) returns (ghost p: Progress)
      requires Valid() && Ready(SpacesNow(classOf), roots.Now(), allHeapStart, permanentSpace) && mem != roots.variables
      modifies this, mem, roots.variables, roots.temporaryRoots
      ensures Valid() && currentHeap == old(NextTarget())
      ensures Collection(SpacesNow(classOf), roots.Now(), mem[..], old(SpacesNow(classOf)), p, old(roots.Now()),
                         allHeapStart, permanentSpace)
      ensures Ready(SpacesNow(classOf), roots.Now(), allHeapStart, permanentSpace)
              <==> StraysAreFine(old(SpacesNow(classOf)), p, allHeapStart, permanentSpace)
      ensures currentHeapFreePtr - currentHeap == CellsKept(old(SpacesNow(classOf)), old(roots.Now()))
    {
      hide Collectable, Settled, Collected, Good, Tiled, Headers, Kept, RootTargets, CellsKept, Evacuated, Copied,
        Apart, StraysAreFine;
      ghost var sp, r := SpacesNow(classOf), roots.Now();
      TargetIsApart(classOf);
      var targetSpace := if currentHeapEnd == permanentSpace then allHeapStart else currentHeapEnd;
      ghost var k: nat :| k < spaceCount && targetSpace == allHeapStart + k * nHeapSize;
      var targetSpaceFreePtr;
      targetSpaceFreePtr, p := Evacuate(mem, classOf, currentHeap, currentHeapEnd, targetSpace, roots, sp);
      EvacuatedInto(mem[..], roots.Now(), sp, p, r);
      currentHeap := targetSpace;
      currentHeapFreePtr := targetSpaceFreePtr;
      currentHeapEnd := currentHeap + nHeapSize;
      current := k;
      TargetIsApart(classOf);
      assert Collection(SpacesNow(classOf), roots.Now(), mem[..], sp, p, r, allHeapStart, permanentSpace);
      ReadyAgain(SpacesNow(classOf), roots.Now(), mem[..], sp, p, r, allHeapStart, permanentSpace);
      CellsAfterCollection(SpacesNow(classOf), roots.Now(), mem[..], sp, p, r, allHeapStart, permanentSpace);
    }

    /**
     * Takes the cells behind those in use, after a collection if need be. The result is the first cell of the object,
     * or 0 when even a collection has not made room: exactly when the reachable objects leave too few cells.
     */
    method MallocHeapObject(size: nat, kind: nat, classOf: Cell -> Class, roots: RootSet)
        returns (result: nat, ghost collected: bool, ghost sp: Spaces, ghost p: Progress)
      requires Valid() && Ready(SpacesNow(classOf), roots.Now(), allHeapStart, permanentSpace) && mem != roots.variables
      requires kind < 64
      modifies this, mem, roots.variables, roots.temporaryRoots
      ensures Valid() && collected == (old(currentHeapEnd - currentHeapFreePtr) < size + HEADERSIZE)
      ensures result == 0
              <==> collected && nHeapSize < CellsKept(old(SpacesNow(classOf)), old(roots.Now())) + size + HEADERSIZE
      ensures Ready(sp, roots.Now(), allHeapStart, permanentSpace)
              <==> !collected || StraysAreFine(old(SpacesNow(classOf)), p, allHeapStart, permanentSpace)
      ensures !collected ==> sp == old(SpacesNow(classOf)) && roots.Now() == old(roots.Now())
      ensures collected ==>
                Collection(sp, roots.Now(), sp.m0, old(SpacesNow(classOf)), p, old(roots.Now()), allHeapStart,
                           permanentSpace)
      ensures result == 0 ==> SpacesNow(classOf) == sp
      ensures result != 0 ==>
                && SpacesNow(classOf) == sp.(m0 := mem[..], free := result + size) && result == sp.free + HEADERSIZE
                   && currentHeapFreePtr == result + size <= currentHeapEnd
                && sp.free < |sp.m0| && size < MAX_CELLS && mem[..] == sp.m0[sp.free := HeaderOf(size, kind)]
    {
      hide Ready, Collection, CellsKept, Apart, StraysAreFine;
      var realSize := size + HEADERSIZE;
      collected := currentHeapEnd - currentHeapFreePtr < realSize;
      p := Progress(map[], [], {}, map[]);
      if currentHeapEnd - currentHeapFreePtr < realSize {
        p := GarbageCollectForReal(classOf, roots);
        if currentHeapEnd - currentHeapFreePtr < realSize {
          return 0, collected, SpacesNow(classOf), p;
        }
      }
      sp := SpacesNow(classOf);
      TargetIsApart(classOf);
      var thisChunk := currentHeapFreePtr;
      currentHeapFreePtr := currentHeapFreePtr + realSize;
      mem[thisChunk] := HeaderOf(size, kind);
      result := thisChunk + HEADERSIZE;
    }
  }

  lemma EvacuatedInto(m: seq<Cell>, r2: Roots, sp: Spaces, p: Progress, r: Roots)
    requires Tiled(sp.m0, sp.lo, sp.free) && Collected(m, r2, sp, p, r)
    ensures sp.target <= TargetFree(sp, p) <= sp.target + (sp.free - sp.lo) && 1 <= sp.lo <= sp.free <= sp.hi
  {
    hide Kept, RootTargets, Headers, Tiled, CheneyOutcome.CopyHolds, Copyable;
    SpaceSuffices(sp, p);
  }
}
