/**
 * copyWeakPointerLists and copyWeakReferences (collectorDebug.c): weak pointers follow their objects or are cleared.
 */
module CheneyWeak {
  import opened Cells
  import opened Objects
  import opened HeapShape
  import opened Marking
  import opened TwoSpaces
  import opened CheneyCopying
  import opened CheneyScanning

  /** The cells of a weak object that hold weak pointers. */
  function WeakCells(m: seq<Cell>, h: nat): seq<nat> {
    if h + 1 >= |m| then []
    else if KindOf(m[h]) == GCT_WEAKPOINTERLIST then Range(h + 4, m[h + 1])
    else if KindOf(m[h]) == GCT_WEAKREFERENCE then [h + 3]
    else []
  }

  /**
   * A weak pointer is NULL, or points to an object of the space in use, or right behind a cell that lies in neither of
   * the two spaces.
   */
  ghost predicate GoodWeak(sp: Spaces, v: Cell)
    requires Tiled(sp.m0, sp.lo, sp.free)
  {
    && PointsToObject(sp, v)
    && (v != NULL && !InHeap(sp.lo, sp.hi, v) ==>
          1 <= v / CELL <= |sp.m0| && !(sp.target <= v / CELL - 1 < sp.target + (sp.free - sp.lo))
            && !(sp.lo <= v / CELL - 1 < sp.hi))
  }

  ghost predicate GoodWeakPointers(sp: Spaces) {
    Good(sp) && forall h, s | h in Headers(sp.m0, sp.lo, sp.free) && s in WeakCells(sp.m0, h) :: GoodWeakCell(sp, h, s)
  }

  ghost predicate GoodWeakCell(sp: Spaces, h: nat, s: nat)
    requires Tiled(sp.m0, sp.lo, sp.free)
  {
    h < |sp.m0| && s < |sp.m0| && h < s < Next(sp.m0, h) && GoodWeak(sp, sp.m0[s])
  }

  /**
   * The new value of a weak pointer. Behind a cell outside the space the pointer is taken for that of a copied object
   * if the cell is odd: a weak reference keeps it then, but a weak list takes the cell for the address of the copy.
   */
  function WeakValue(sp: Spaces, where: map<nat, nat>, isReference: bool, v: Cell): Cell {
    if v == NULL then NULL
    else if InHeap(sp.lo, sp.hi, v) then if HeaderAt(v) in where then Forwarded(sp, where, v) else NULL
    else if 1 <= v / CELL <= |sp.m0| && IsMarked(sp.m0[v / CELL - HEADERSIZE]) then
      if isReference then v else sp.m0[v / CELL - HEADERSIZE] - 1
    else NULL
  }

  /** The cell before a weak pointer's object decides about its new value. */
  ghost predicate HeaderTells(m: seq<Cell>, sp: Spaces, where: map<nat, nat>, v: Cell) {
    && 1 <= v / CELL <= |m| == |sp.m0|
    && var header := m[v / CELL - HEADERSIZE];
       if InHeap(sp.lo, sp.hi, v) then
         && (IsMarked(header) <==> HeaderAt(v) in where)
            && (HeaderAt(v) in where ==> header - 1 == Forwarded(sp, where, v))
       else header == sp.m0[v / CELL - HEADERSIZE]
  }

  lemma WeakHeader(m: seq<Cell>, sp: Spaces, p: Progress, v: Cell)
    requires Copied(m, sp, p) && Tiled(sp.m0, sp.lo, sp.free) && GoodWeak(sp, v) && v != NULL
    ensures HeaderTells(m, sp, p.where, v)
  {
    hide Copied, NewSpace, InOrder, IsInside, HasCopy, Forwarded, Good, IsMarked, Headers, Tiled, Total;
    CopiedFacts(m, sp, p);
    if InHeap(sp.lo, sp.hi, v) {
      var h := HeaderAt(v);
      ObjectBounds(sp, h);
      if h in p.where {
        CopiedAlready(m, sp, p, v);
      } else {
        NotCopiedYet(m, sp, p, h);
      }
    } else {
      SpaceSuffices(sp, p);
      OutsideIsNoHeader(sp, p, v / CELL - 1);
    }
  }

  lemma OutsideIsNoHeader(sp: Spaces, p: Progress, k: nat)
    requires Good(sp) && p.where.Keys <= Headers(sp.m0, sp.lo, sp.free) && !(sp.lo <= k < sp.hi)
    ensures k !in p.where
  {
    hide Copyable;
    if k in p.where {
      ObjectBounds(sp, k);
    }
  }

  /** The cell has been given the new value of its weak pointer. */
  function Weakened(sp: Spaces, p: Progress, isReference: bool, s: nat): Progress
    requires s < |sp.m0|
  {
    p.(other := p.other[s := WeakValue(sp, p.where, isReference, sp.m0[s])])
  }

  /** The new value of one weak pointer. */
  method WeakTarget(copier: Copier, value: Cell, isReference: bool) returns (newValue: Cell)
    requires copier.Valid() && Tiled(copier.spaces.m0, copier.spaces.lo, copier.spaces.free)
    requires GoodWeak(copier.spaces, value)
    ensures newValue == WeakValue(copier.spaces, copier.progress.where, isReference, value)
  {
    hide Copied, Forwarded, TargetFree, GoodWeak, Tiled;
    newValue := NULL;
    if value != NULL {
      WeakHeader(copier.mem[..], copier.spaces, copier.progress, value);
      var header := copier.mem[value / CELL - HEADERSIZE];
      if IsMarked(header) {
        newValue := if !isReference
          || (copier.currentHeap * CELL <= value < copier.currentHeapEnd * CELL) then header - 1 else value;
      }
    }
  }

  lemma GoodWeakAt(sp: Spaces, h: nat, s: nat)
    requires GoodWeakPointers(sp) && Tiled(sp.m0, sp.lo, sp.free) && h in Headers(sp.m0, sp.lo, sp.free)
    requires s in WeakCells(sp.m0, h)
    ensures h < |sp.m0| && s < |sp.m0| && h < s < Next(sp.m0, h) && GoodWeak(sp, sp.m0[s])
  {
    hide Good, Headers, Tiled, WeakCells, GoodWeak;
    assert GoodWeakCell(sp, h, s);
  }

  lemma WeakCellFacts(m: seq<Cell>, sp: Spaces, p: Progress, h: nat, s: nat)
    requires Copied(m, sp, p) && GoodWeakPointers(sp) && h in p.where && s in WeakCells(sp.m0, h) && s !in p.done
    requires s !in p.other
    ensures h < |sp.m0| && s < |sp.m0| && h < s < Next(sp.m0, h) && Tiled(sp.m0, sp.lo, sp.free)
    ensures GoodWeak(sp, sp.m0[s])
    ensures 0 <= NewCell(p, h, s) < |m| && m[NewCell(p, h, s)] == sp.m0[s]
  {
    hide Copied, HasCopy, Forwarded, TargetFree, WeakCells, Good, GoodWeak, OldSpace, InOrder;
    CopiedFacts(m, sp, p);
    ObjectBounds(sp, h);
    GoodWeakAt(sp, h, s);
    SlotCopied(m, sp, p, h, s);
  }

  /** One weak pointer. */
  method CopyWeakPointer(copier: Copier, n: nat, isReference: bool, ghost h: nat, ghost s: nat)
    requires copier.Valid() && GoodWeakPointers(copier.spaces) && h in copier.progress.where
    requires s in WeakCells(copier.spaces.m0, h) && s < |copier.spaces.m0|
    requires n == NewCell(copier.progress, h, s) && s !in copier.progress.done && s !in copier.progress.other
    modifies copier`progress, copier.mem
    ensures copier.Valid() && copier.progress == Weakened(copier.spaces, old(copier.progress), isReference, s)
  {
    hide Copied, WeakValue, WeakCells, GoodWeakPointers, GoodWeak, Tiled;
    ghost var m, sp, p := copier.mem[..], copier.spaces, copier.progress;
    WeakCellFacts(m, sp, p, h, s);
    copier.mem[n] := WeakTarget(copier, copier.mem[n], isReference);
    copier.progress := Weakened(sp, p, isReference, s);
    CellGiven(copier.mem[..], m, sp, copier.progress, p, h, s);
  }

  /** The new values of the weak pointers in these cells. */
  function WeakValues(sp: Spaces, where: map<nat, nat>, isReference: bool, cells: seq<nat>): map<nat, Cell> {
    map s | s in cells && s < |sp.m0| :: WeakValue(sp, where, isReference, sp.m0[s])
  }

  /** The weak pointers in these cells have their new values. */
  function WeakenedAll(sp: Spaces, p: Progress, isReference: bool, cells: seq<nat>): Progress {
    p.(other := p.other + WeakValues(sp, p.where, isReference, cells))
  }

  /** Nothing has happened to the cells yet. */
  ghost predicate FreshCells(p: Progress, cells: seq<nat>) {
    NoDuplicates(cells) && forall s | s in cells :: s !in p.done && s !in p.other
  }

  lemma AddThenUpdate(a: map<nat, Cell>, b: map<nat, Cell>, k: nat, v: Cell)
    ensures a + b[k := v] == (a + b)[k := v]
  {
  }

  lemma ValuesOneMore(sp: Spaces, where: map<nat, nat>, isReference: bool, cells: seq<nat>, s: nat)
    requires s < |sp.m0|
    ensures WeakValues(sp, where, isReference, cells + [s]) == WeakValues(sp, where, isReference,
        cells)[s := WeakValue(sp, where, isReference, sp.m0[s])]
  {
    hide WeakValue;
  }

  lemma WeakenOneMore(sp: Spaces, p: Progress, isReference: bool, cells: seq<nat>, i: nat)
    requires i < |cells| && cells[i] < |sp.m0| && FreshCells(p, cells)
    ensures Weakened(sp, WeakenedAll(sp, p, isReference, cells[..i]), isReference, cells[i]) == WeakenedAll(sp, p,
        isReference, cells[..i + 1])
    ensures cells[i] !in WeakenedAll(sp, p, isReference, cells[..i]).done
    ensures cells[i] !in WeakenedAll(sp, p, isReference, cells[..i]).other
  {
    hide WeakValue, WeakValues;
    var s := cells[i];
    assert cells[..i + 1] == cells[..i] + [s];
    assert s in cells && s !in cells[..i];
    ValuesOneMore(sp, p.where, isReference, cells[..i], s);
    AddThenUpdate(p.other, WeakValues(sp, p.where, isReference, cells[..i]), s,
                  WeakValue(sp, p.where, isReference, sp.m0[s]));
    ValueKeys(sp, p.where, isReference, cells[..i]);
  }

  lemma ValueKeys(sp: Spaces, where: map<nat, nat>, isReference: bool, cells: seq<nat>)
    ensures forall s | s in WeakValues(sp, where, isReference, cells) :: s in cells
  {
  }

  /** The weak pointers of one weak object. */
  method CopyWeakPointers(copier: Copier, first: nat, count: nat, isReference: bool, ghost h: nat)
    requires copier.Valid() && GoodWeakPointers(copier.spaces) && h in copier.progress.where
    requires count == |WeakCells(copier.spaces.m0, h)| && FreshCells(copier.progress, WeakCells(copier.spaces.m0, h))
    requires forall i | 0 <= i < count ::
               WeakCells(copier.spaces.m0, h)[i] < |copier.spaces.m0|
                 && first + i == NewCell(copier.progress, h, WeakCells(copier.spaces.m0, h)[i])
    modifies copier`progress, copier.mem
    ensures copier.Valid()
    ensures copier.progress == WeakenedAll(copier.spaces, old(copier.progress), isReference,
                                           WeakCells(copier.spaces.m0, h))
  {
    hide Copied, WeakCells, GoodWeakPointers, WeakValues, TargetFree;
    ghost var sp, p, cells := copier.spaces, copier.progress, WeakCells(copier.spaces.m0, h);
    assert WeakValues(sp, p.where, isReference, cells[..0]) == map[] by {
      NoWeakValues(sp, p.where, isReference);
    }
    assert p.other + map[] == p.other;
    for i := 0 to count
      invariant copier.Valid() && copier.progress == WeakenedAll(sp, p, isReference, cells[..i])
    {
      WeakenOneMore(sp, p, isReference, cells, i);
      CopyWeakPointer(copier, first + i, isReference, h, cells[i]);
    }
    assert cells[..count] == cells;
  }

  lemma NoWeakValues(sp: Spaces, where: map<nat, nat>, isReference: bool)
    ensures forall cells: seq<nat> | cells == [] :: WeakValues(sp, where, isReference, cells) == map[]
  {
  }

  /** The cells of several weak objects. */
  function WeakCellsOf(m: seq<Cell>, objects: seq<nat>): seq<nat>
  {
    if objects == [] then [] else WeakCellsOf(m, objects[..|objects| - 1]) + WeakCells(m, objects[|objects| - 1])
  }

  /** Weak cells are neither followed nor used for links. */
  lemma WeakCellsUntouched(sp: Spaces, h: nat, s: nat)
    requires h < |sp.m0| && Fits(sp.classOf, sp.m0, h) && s in WeakCells(sp.m0, h)
    ensures !IsTouched(sp, h, s)
  {
  }

  /** The weak objects of one kind, none of which has been processed. */
  ghost predicate Unprocessed(sp: Spaces, p: Progress, kind: nat, objects: seq<nat>) {
    && GoodWeakPointers(sp) && NoDuplicates(objects) && p.where.Keys <= Headers(sp.m0, sp.lo, sp.free)
    && forall h | h in objects ::
         && h in p.where && h < |sp.m0| && KindOf(sp.m0[h]) == kind && FreshCells(p, WeakCells(sp.m0, h))
         && h + 1 !in p.done && h + 1 !in p.other
  }

  lemma {:induction false} WeakCellOwner(m: seq<Cell>, objects: seq<nat>, s: nat) returns (g: nat)
    requires s in WeakCellsOf(m, objects)
    ensures g in objects && s in WeakCells(m, g)
    decreases |objects|
  {
    var last := objects[|objects| - 1];
    if s in WeakCells(m, last) {
      g := last;
    } else {
      g := WeakCellOwner(m, objects[..|objects| - 1], s);
    }
  }

  /** The weak cells of one object are not among those of others, and are no links. */
  lemma OtherWeakCells(sp: Spaces, p: Progress, kind: nat, objects: seq<nat>, done: seq<nat>, h: nat, s: int)
    requires Unprocessed(sp, p, kind, objects) && h in objects && h !in done && forall g | g in done :: g in objects
    requires h < |sp.m0| && h <= s < Next(sp.m0, h)
    ensures s !in WeakCellsOf(sp.m0, done)
  {
    hide WeakCells, Headers, Tiled, Copyable, FreshCells, Apart;
    if s in WeakCellsOf(sp.m0, done) {
      var g := WeakCellOwner(sp.m0, done, s);
      GoodWeakAt(sp, g, s);
      ObjectsApart(sp, g, h);
    }
  }
}
