/** The two spaces of the copying collector (collectorDebug.c), and how far copying has got. */
module TwoSpaces {
  import opened Cells
  import opened FreeList
  import opened Objects
  import opened HeapShape
  import opened HeapUpdate
  import opened Marking

  /**
   * The space in use is [lo, hi), filled with objects up to `free`; `target` is where the other space starts. `m0` is
   * the memory before the collection, and `reachable` any set that a collection may keep.
   */
  datatype Spaces = Spaces(classOf: Cell -> Class, m0: seq<Cell>, lo: nat, hi: nat, free: nat, target: nat,
                           reachable: set<nat>)

  /** The cells of an object that hold pointers to be followed. */
  function ScanSlots(classOf: Cell -> Class, m: seq<Cell>, h: nat): seq<nat> {
    if h + 1 >= |m| then []
    else if KindOf(m[h]) == GCT_WEAKREFERENCE then MonitorSlot(m, h)
    else if KindOf(m[h]) == GCT_WEAKPOINTERLIST then []
    else PointerSlots(classOf, m, h)
  }

  /** A tagged pointer to a monitor or a thread, without its tag. */
  function Untagged(v: Cell): Cell {
    v - v % CELL
  }

  predicate IsMonitorSlot(m: seq<Cell>, h: nat, s: nat) {
    h < |m| && s == h + 2 && HasMonitorCell(KindOf(m[h]))
  }

  /** v, if it points into the space in use, points right behind a header. */
  ghost predicate PointsToObject(sp: Spaces, v: int)
    requires Tiled(sp.m0, sp.lo, sp.free)
  {
    InHeap(sp.lo, sp.hi, v) ==> v % CELL == 0 && HeaderAt(v) in Headers(sp.m0, sp.lo, sp.free)
  }

  /** The spaces do not overlap, and the target space is not smaller than what is in use. */
  ghost predicate Apart(sp: Spaces) {
    && 1 <= sp.lo <= sp.free <= sp.hi <= |sp.m0| <= MAX_CELLS && 1 <= sp.target
    && sp.target + (sp.free - sp.lo) < |sp.m0|
    && (sp.target + (sp.free - sp.lo) <= sp.lo || sp.hi <= sp.target)
  }

  /** What is needed of an object: it can be copied and scanned. */
  ghost predicate Copyable(sp: Spaces, h: nat)
    requires Tiled(sp.m0, sp.lo, sp.free)
  {
    && Fits(sp.classOf, sp.m0, h) && KindOf(sp.m0[h]) != GCT_FREE && !IsMarked(sp.m0[h])
       && NoDuplicates(ScanSlots(sp.classOf, sp.m0, h))
    && (forall s | s in ScanSlots(sp.classOf, sp.m0, h) ::
          && h < s < Next(sp.m0, h) && s < |sp.m0|
          && PointsToObject(sp, if IsMonitorSlot(sp.m0, h, s) then Untagged(sp.m0[s]) else sp.m0[s]))
  }

  ghost predicate Good(sp: Spaces) {
    Apart(sp) && Tiled(sp.m0, sp.lo, sp.free) && forall h | h in Headers(sp.m0, sp.lo, sp.free) :: Copyable(sp, h)
  }

  /**
   * How far copying has got: where objects have been copied to, and in which order; which cells have been followed; and
   * which cells of copies have been given other values (links of weak objects, and weak pointers).
   */
  datatype Progress = Progress(where: map<nat, nat>, order: seq<nat>, done: set<nat>, other: map<nat, Cell>)

  /** The cells that a sequence of objects needs. */
  function Total(m: seq<Cell>, order: seq<nat>): nat {
    if order == [] then 0
    else
      var h := order[|order| - 1];
      Total(m, order[..|order| - 1]) + if h < |m| then SizeOf(m[h]) + HEADERSIZE else 0
  }

  /** The new value of a pointer, which keeps its tag. */
  function Forwarded(sp: Spaces, where: map<nat, nat>, v: Cell): Cell {
    var h := HeaderAt(Untagged(v));
    if InHeap(sp.lo, sp.hi, Untagged(v)) && h in where && where[h] + HEADERSIZE < MAX_CELLS
    then CELL * (where[h] + HEADERSIZE) + v % CELL else v
  }

  /** Everything that the pointer leads to has been copied. */
  ghost predicate HasCopy(sp: Spaces, where: map<nat, nat>, v: Cell) {
    InHeap(sp.lo, sp.hi, Untagged(v)) ==> HeaderAt(Untagged(v)) in where
  }

  /** What the copy of the cell s holds. */
  function CopyOf(sp: Spaces, p: Progress, s: nat): Cell
    requires s < |sp.m0|
  {
    if s in p.other then p.other[s] else if s in p.done then Forwarded(sp, p.where, sp.m0[s]) else sp.m0[s]
  }

  /** Cell k of the copy of the object at h. */
  ghost predicate CellCopied(m: seq<Cell>, sp: Spaces, p: Progress, h: nat, k: nat) {
    && h in p.where && p.where[h] + k < |m| && h + k < |sp.m0|
    && m[p.where[h] + k] == CopyOf(sp, p, h + k)
  }

  /** Objects are copied one behind the other. */
  ghost predicate InOrder(sp: Spaces, p: Progress) {
    && NoDuplicates(p.order) && Elements(p.order) == p.where.Keys
    && (forall i | 0 <= i < |p.order| ::
          p.order[i] in p.where && p.where[p.order[i]] == sp.target + Total(sp.m0, p.order[..i]))
  }

  /** The next free cell of the target space. */
  function TargetFree(sp: Spaces, p: Progress): nat {
    sp.target + Total(sp.m0, p.order)
  }

  /**
   * Headers of copied objects hold the addresses of the copies; everything else outside the target space is unchanged.
   */
  ghost predicate OldSpace(m: seq<Cell>, sp: Spaces, p: Progress) {
    && |m| == |sp.m0|
    && (forall h | h in p.where ::
          h < |m| && p.where[h] + HEADERSIZE < MAX_CELLS && m[h] == CELL * (p.where[h] + HEADERSIZE) + 1)
    && (forall k {:trigger m[k]} | 0 <= k < |m| && k !in p.where && !(sp.target <= k < TargetFree(sp, p)) ::
          m[k] == sp.m0[k])
  }

  ghost predicate NewSpace(m: seq<Cell>, sp: Spaces, p: Progress) {
    forall h, k | h in p.where && h < |sp.m0| && 0 <= k <= SizeOf(sp.m0[h]) :: CellCopied(m, sp, p, h, k)
  }

  ghost predicate Copied(m: seq<Cell>, sp: Spaces, p: Progress) {
    && Good(sp) && InOrder(sp, p) && p.where.Keys <= Headers(sp.m0, sp.lo, sp.free) * sp.reachable
    && OldSpace(m, sp, p) && NewSpace(m, sp, p)
    && (forall s | s in p.done :: s < |sp.m0| && HasCopy(sp, p.where, sp.m0[s]))
    && (forall s | s in p.done + p.other.Keys :: IsInside(sp, p.where, s))
  }

  /** Cell s lies inside an object that has been copied. */
  ghost predicate IsInside(sp: Spaces, where: map<nat, nat>, s: int) {
    exists h | h in where :: h < |sp.m0| && h < s < Next(sp.m0, h)
  }

  /** The cells of those objects in [lo, hi) that are in the set. */
  ghost function Used(m: seq<Cell>, lo: nat, hi: nat, objects: set<nat>): (n: nat)
    requires Tiled(m, lo, hi)
    ensures n <= hi - lo
    decreases hi - lo
  {
    if lo == hi then 0
    else (if lo in objects then SizeOf(m[lo]) + HEADERSIZE else 0) + Used(m, Next(m, lo), hi, objects)
  }

  lemma {:induction false} UsedOneMore(m: seq<Cell>, lo: nat, hi: nat, objects: set<nat>, h: nat)
    requires Tiled(m, lo, hi) && h !in objects
    ensures Used(m, lo, hi, objects + {h}) ==
            Used(m, lo, hi, objects) + if h in Headers(m, lo, hi) && h < |m| then SizeOf(m[h]) + HEADERSIZE else 0
    decreases hi - lo
  {
    if lo < hi {
      UsedOneMore(m, Next(m, lo), hi, objects, h);
      if h == lo && h in Headers(m, Next(m, lo), hi) {
        HeaderBounds(m, Next(m, lo), hi, h);
      }
    }
  }

  /** Objects in the space in use, no matter in which order, never need more cells than there are. */
  lemma {:induction false} TotalIsUsed(m: seq<Cell>, lo: nat, hi: nat, order: seq<nat>)
    requires Tiled(m, lo, hi) && NoDuplicates(order) && Elements(order) <= Headers(m, lo, hi)
    ensures Total(m, order) == Used(m, lo, hi, Elements(order))
    decreases |order|
  {
    if order == [] {
      NothingUsed(m, lo, hi);
      assert Elements(order) == {};
    } else {
      var n := |order| - 1;
      var h, rest := order[n], order[..n];
      assert order == rest + [h];
      assert h in Elements(order);
      assert Elements(order) == Elements(rest) + {h};
      HeaderBounds(m, lo, hi, h);
      TotalIsUsed(m, lo, hi, rest);
      UsedOneMore(m, lo, hi, Elements(rest), h);
    }
  }

  lemma {:induction false} NothingUsed(m: seq<Cell>, lo: nat, hi: nat)
    requires Tiled(m, lo, hi)
    ensures Used(m, lo, hi, {}) == 0
    decreases hi - lo
  {
    if lo < hi {
      NothingUsed(m, Next(m, lo), hi);
    }
  }

  lemma {:induction false} TotalGrows(m: seq<Cell>, order: seq<nat>, i: nat)
    requires i < |order| && order[i] < |m|
    ensures Total(m, order[..i]) + SizeOf(m[order[i]]) + HEADERSIZE <= Total(m, order)
    decreases |order|
  {
    var n := |order| - 1;
    if i < n {
      TotalGrows(m, order[..n], i);
      assert order[..n][..i] == order[..i];
    }
  }

  /** Where the copies are. */
  lemma PlaceOf(sp: Spaces, p: Progress, h: nat)
    requires Good(sp) && InOrder(sp, p) && p.where.Keys <= Headers(sp.m0, sp.lo, sp.free) && h in p.where
    ensures h < |sp.m0| && sp.target <= p.where[h] && p.where[h] + SizeOf(sp.m0[h]) + HEADERSIZE <= TargetFree(sp, p)
    ensures TargetFree(sp, p) <= sp.target + (sp.free - sp.lo)
  {
    hide Copyable;
    assert h in Elements(p.order);
    var i :| 0 <= i < |p.order| && p.order[i] == h;
    HeaderBounds(sp.m0, sp.lo, sp.free, h);
    TotalGrows(sp.m0, p.order, i);
    SpaceSuffices(sp, p);
  }

  lemma SpaceSuffices(sp: Spaces, p: Progress)
    requires Good(sp) && InOrder(sp, p) && p.where.Keys <= Headers(sp.m0, sp.lo, sp.free)
    ensures sp.target <= TargetFree(sp, p) <= sp.target + (sp.free - sp.lo)
  {
    hide Copyable;
    TotalIsUsed(sp.m0, sp.lo, sp.free, p.order);
  }

  lemma ObjectBounds(sp: Spaces, h: nat)
    requires Good(sp) && h in Headers(sp.m0, sp.lo, sp.free)
    ensures sp.lo <= h && h + 2 <= Next(sp.m0, h) <= sp.free <= |sp.m0|
  {
    hide Copyable;
    HeaderBounds(sp.m0, sp.lo, sp.free, h);
  }

  lemma CopiesApart(sp: Spaces, p: Progress, i: nat, j: nat)
    requires InOrder(sp, p) && i < j < |p.order| && p.order[i] < |sp.m0|
    ensures p.order[i] in p.where && p.order[j] in p.where
    ensures p.where[p.order[i]] + SizeOf(sp.m0[p.order[i]]) + HEADERSIZE <= p.where[p.order[j]]
  {
    TotalGrows(sp.m0, p.order[..j], i);
    assert p.order[..j][..i] == p.order[..i];
  }

  /** Different copies do not overlap. */
  lemma PlacesApart(sp: Spaces, p: Progress, g: nat, h: nat)
    requires Good(sp) && InOrder(sp, p) && p.where.Keys <= Headers(sp.m0, sp.lo, sp.free) && g in p.where
    requires h in p.where && g != h
    ensures g < |sp.m0| && h < |sp.m0|
    ensures p.where[g] + SizeOf(sp.m0[g]) + HEADERSIZE <= p.where[h]
            || p.where[h] + SizeOf(sp.m0[h]) + HEADERSIZE <= p.where[g]
  {
    hide Good, Headers, Total;
    ObjectBounds(sp, g);
    ObjectBounds(sp, h);
    assert g in Elements(p.order) && h in Elements(p.order);
    var i :| 0 <= i < |p.order| && p.order[i] == g;
    var j :| 0 <= j < |p.order| && p.order[j] == h;
    if i < j {
      CopiesApart(sp, p, i, j);
    } else {
      CopiesApart(sp, p, j, i);
    }
  }

  /** The pointer is forwarded in the same way when more has been copied. */
  lemma ForwardedKept(sp: Spaces, where: map<nat, nat>, where': map<nat, nat>, v: Cell)
    requires HasCopy(sp, where, v) && forall h | h in where :: h in where' && where'[h] == where[h]
    ensures HasCopy(sp, where', v) && Forwarded(sp, where', v) == Forwarded(sp, where, v)
  {
  }

  /** One more object is copied. */
  function OneMore(sp: Spaces, p: Progress, h: nat): Progress {
    p.(where := p.where[h := TargetFree(sp, p)], order := p.order + [h])
  }

  lemma ElementsMore(order: seq<nat>, h: nat)
    ensures Elements(order + [h]) == Elements(order) + {h}
  {
    var longer := order + [h];
    forall x | x in Elements(order) + {h}
      ensures x in Elements(longer)
    {
      if x in order {
        var i :| 0 <= i < |order| && order[i] == x;
        assert longer[i] == x;
      } else {
        assert longer[|order|] == x;
      }
    }
  }

  lemma NoDuplicatesMore(order: seq<nat>, h: nat)
    requires NoDuplicates(order) && h !in order
    ensures NoDuplicates(order + [h])
  {
  }

  /** The places of the objects copied before, and that of the new one. */
  lemma OneMorePlace(sp: Spaces, p: Progress, h: nat, i: nat)
    requires InOrder(sp, p) && h !in p.where && i <= |p.order|
    ensures var p' := OneMore(sp, p, h);
            && p'.order[i] in p'.where && p'.where[p'.order[i]] == sp.target + Total(sp.m0, p'.order[..i])
  {
    hide Total, NoDuplicates;
    var p' := OneMore(sp, p, h);
    assert p'.order[..i] == p.order[..i];
    if i < |p.order| {
      assert p.order[i] in Elements(p.order);
    } else {
      assert p.order[..i] == p.order;
    }
  }

  lemma OneMoreOrdered(sp: Spaces, p: Progress, h: nat)
    requires InOrder(sp, p) && h !in p.where && h < |sp.m0|
    ensures InOrder(sp, OneMore(sp, p, h))
    ensures TargetFree(sp, OneMore(sp, p, h)) == TargetFree(sp, p) + SizeOf(sp.m0[h]) + HEADERSIZE
  {
    hide Total, NoDuplicates, Elements;
    var p' := OneMore(sp, p, h);
    NotInOrder(sp, p, h);
    ElementsMore(p.order, h);
    NoDuplicatesMore(p.order, h);
    forall i | 0 <= i < |p'.order|
      ensures p'.order[i] in p'.where && p'.where[p'.order[i]] == sp.target + Total(sp.m0, p'.order[..i])
    {
      OneMorePlace(sp, p, h, i);
    }
    TotalAppended(sp.m0, p.order, h);
  }

  lemma NotInOrder(sp: Spaces, p: Progress, h: nat)
    requires InOrder(sp, p) && h !in p.where
    ensures h !in p.order
  {
    hide Total, NoDuplicates;
    assert h !in Elements(p.order);
  }

  lemma TotalAppended(m: seq<Cell>, order: seq<nat>, h: nat)
    requires h < |m|
    ensures Total(m, order + [h]) == Total(m, order) + SizeOf(m[h]) + HEADERSIZE
  {
    assert (order + [h])[..|order|] == order;
  }

  lemma OneMoreInOrder(sp: Spaces, p: Progress, h: nat)
    requires Good(sp) && InOrder(sp, p) && p.where.Keys <= Headers(sp.m0, sp.lo, sp.free)
    requires h in Headers(sp.m0, sp.lo, sp.free) && h !in p.where
    ensures h < |sp.m0| && InOrder(sp, OneMore(sp, p, h))
    ensures OneMore(sp, p, h).where.Keys <= Headers(sp.m0, sp.lo, sp.free)
    ensures TargetFree(sp, OneMore(sp, p, h)) == TargetFree(sp, p) + SizeOf(sp.m0[h]) + HEADERSIZE
    ensures TargetFree(sp, OneMore(sp, p, h)) <= sp.target + (sp.free - sp.lo)
  {
    hide Good, Headers, InOrder, TargetFree;
    ObjectBounds(sp, h);
    OneMoreOrdered(sp, p, h);
    SpaceSuffices(sp, OneMore(sp, p, h));
  }

  /** There is room for a copy in the target space, away from the original. */
  lemma RoomForCopy(sp: Spaces, p: Progress, h: nat)
    requires Good(sp) && InOrder(sp, p) && p.where.Keys <= Headers(sp.m0, sp.lo, sp.free)
    requires h in Headers(sp.m0, sp.lo, sp.free) && h !in p.where
    ensures h < |sp.m0| && h + SizeOf(sp.m0[h]) + HEADERSIZE <= |sp.m0| <= MAX_CELLS
    ensures TargetFree(sp, p) + SizeOf(sp.m0[h]) + HEADERSIZE < |sp.m0|
    ensures h < TargetFree(sp, p) || TargetFree(sp, p) + SizeOf(sp.m0[h]) + HEADERSIZE <= h
  {
    hide Copyable, InOrder, TargetFree, Headers;
    ObjectBounds(sp, h);
    OneMoreInOrder(sp, p, h);
    SpaceSuffices(sp, p);
  }
}
