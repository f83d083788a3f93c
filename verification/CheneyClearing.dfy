/** When the copying collector (collectorDebug.c) clears a weak pointer, and when what it does is right. */
module CheneyClearing {
  import opened Cells
  import opened Objects
  import opened HeapShape
  import opened TwoSpaces
  import opened CheneyScanning
  import opened CheneyWeak
  import CheneyOutcome
  import opened CheneyCollection
  import opened CheneyAfter
  import opened CheneyNext

  /** The cell in front of what the weak pointer leads to. */
  function Front(sp: Spaces, v: Cell): Cell {
    if 1 <= v / CELL <= |sp.m0| then sp.m0[v / CELL - HEADERSIZE] else 0
  }

  function IsReference(sp: Spaces, h: nat): bool {
    h < |sp.m0| && KindOf(sp.m0[h]) == GCT_WEAKREFERENCE
  }

  /**
   * After a collection a weak pointer is NULL exactly if it was NULL before, or its object is in the space and has not
   * been kept, or it leads out of the space and the cell in front of its target is even, or, in a weak list, is 1.
   */
  lemma ClearedIff(m: seq<Cell>, sp: Spaces, p: Progress, h: nat, s: nat)
    requires Evacuated(m, sp, p) && GoodWeakPointers(sp) && h in p.where && s in WeakCells(sp.m0, h)
    ensures s < |sp.m0| && 0 <= NewCell(p, h, s) < |m|
    ensures var v := sp.m0[s];
            m[NewCell(p, h, s)] == NULL
            <==> v == NULL
                 || (InHeap(sp.lo, sp.hi, v) && HeaderAt(v) !in p.where)
                 || (!InHeap(sp.lo, sp.hi, v)
                     && (!IsMarked(Front(sp, v)) || (!IsReference(sp, h) && Front(sp, v) == 1)))
  {
    hide Evacuated, Headers, Tiled, GoodWeakPointers, WeakCells, KindOf, Forwarded, IsMarked, Good, InOrder, OldSpace,
      CheneyOutcome.CopyHolds, Copyable;
    WeakCellAfter(m, sp, p, h, s);
    var v := sp.m0[s];
    if InHeap(sp.lo, sp.hi, v) && v != NULL && HeaderAt(v) in p.where {
      EvacuatedFacts(m, sp, p);
      CopyFacts(m, sp, p, HeaderAt(v));
      ForwardedIsSet(sp, p.where, v);
    }
    OddIsSet();
  }

  lemma OddIsSet()
    ensures !IsMarked(NULL) && IsMarked(1)
  {
  }

  lemma ForwardedIsSet(sp: Spaces, where: map<nat, nat>, v: Cell)
    requires InHeap(sp.lo, sp.hi, v) && v % CELL == 0 && HeaderAt(v) in where
    requires where[HeaderAt(v)] + HEADERSIZE < MAX_CELLS
    ensures Forwarded(sp, where, v) != NULL
  {
    assert Untagged(v) == v;
  }

  /** What a weak pointer should become: an object outside the space is always alive, and stays where it is. */
  function RightValue(sp: Spaces, where: map<nat, nat>, v: Cell): Cell {
    if v != NULL && InHeap(sp.lo, sp.hi, v) then if HeaderAt(v) in where then Forwarded(sp, where, v) else NULL else v
  }

  /**
   * A weak pointer becomes what it should exactly if it is NULL, or leads into the space, or the cell in front of its
   * target is odd and, in a weak list, happens to hold the odd successor of the pointer.
   */
  lemma RightIff(m: seq<Cell>, sp: Spaces, p: Progress, h: nat, s: nat)
    requires Evacuated(m, sp, p) && GoodWeakPointers(sp) && h in p.where && s in WeakCells(sp.m0, h)
    ensures s < |sp.m0| && 0 <= NewCell(p, h, s) < |m|
    ensures var v := sp.m0[s];
            m[NewCell(p, h, s)] == RightValue(sp, p.where, v)
            <==> v == NULL || InHeap(sp.lo, sp.hi, v)
                 || (IsMarked(Front(sp, v)) && (IsReference(sp, h) || Front(sp, v) == v + 1))
  {
    hide Evacuated, Headers, Tiled, GoodWeakPointers, WeakCells, KindOf, Forwarded, IsMarked;
    WeakCellAfter(m, sp, p, h, s);
  }
}
