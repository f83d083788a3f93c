/** The heap as a row of objects and free chunks, and the graph that its strong pointers form. */
module HeapShape {
  import opened Cells
  import opened FreeList
  import opened Objects

  /** First cell behind the object with header h. */
  function Next(m: seq<Cell>, h: nat): nat
    requires h < |m|
  {
    h + SizeOf(m[h]) + HEADERSIZE
  }

  /** [lo, hi) is a row of objects of at least two cells. */
  ghost predicate Tiled(m: seq<Cell>, lo: nat, hi: nat)
    decreases hi - lo
  {
    lo <= hi <= |m| && (lo < hi ==> lo + 2 <= Next(m, lo) <= hi && Tiled(m, Next(m, lo), hi))
  }

  /** The cells of [lo, hi) that are headers. */
  ghost function Headers(m: seq<Cell>, lo: nat, hi: nat): set<nat>
    requires Tiled(m, lo, hi)
    decreases hi - lo
  {
    if lo == hi then {} else {lo} + Headers(m, Next(m, lo), hi)
  }

  lemma {:induction false} HeaderBounds(m: seq<Cell>, lo: nat, hi: nat, h: nat)
    requires Tiled(m, lo, hi) && h in Headers(m, lo, hi)
    ensures lo <= h < |m| && h + 2 <= Next(m, h) <= hi
    decreases hi - lo
  {
    if h != lo {
      HeaderBounds(m, Next(m, lo), hi, h);
    }
  }

  /** Objects do not overlap. */
  lemma {:induction false} HeadersApart(m: seq<Cell>, lo: nat, hi: nat, h: nat, k: nat)
    requires Tiled(m, lo, hi) && h in Headers(m, lo, hi) && k in Headers(m, lo, hi) && h < k
    ensures h < |m| && h + 2 <= Next(m, h) <= k
    decreases hi - lo
  {
    if h == lo {
      HeaderBounds(m, Next(m, lo), hi, k);
    } else {
      HeaderBounds(m, Next(m, lo), hi, h);
      HeadersApart(m, Next(m, lo), hi, h, k);
    }
  }

  /** Behind every object but the last there is another one. */
  lemma {:induction false} NextHeader(m: seq<Cell>, lo: nat, hi: nat, h: nat)
    requires Tiled(m, lo, hi) && h in Headers(m, lo, hi)
    ensures h < |m| && h + 2 <= Next(m, h) <= hi && (Next(m, h) == hi || Next(m, h) in Headers(m, lo, hi))
    decreases hi - lo
  {
    if h == lo {
    } else {
      NextHeader(m, Next(m, lo), hi, h);
    }
  }

  /** Memories whose headers have the same sizes are tiled alike. */
  lemma {:induction false} SameTiling(m: seq<Cell>, m0: seq<Cell>, lo: nat, hi: nat)
    requires Tiled(m0, lo, hi) && |m| == |m0|
    requires forall h | h in Headers(m0, lo, hi) :: h < |m| && SizeOf(m[h]) == SizeOf(m0[h])
    ensures Tiled(m, lo, hi) && Headers(m, lo, hi) == Headers(m0, lo, hi)
    decreases hi - lo
  {
    if lo < hi {
      assert lo in Headers(m0, lo, hi);
      SameTiling(m, m0, Next(m0, lo), hi);
    }
  }

  /** inHeapSpaceFast: the byte address v points into [lo, hi). */
  predicate InHeap(lo: nat, hi: nat, v: int) {
    CELL * lo <= v < CELL * hi
  }

  /** The header of the object that v points to. */
  function HeaderAt(v: int): int {
    v / CELL - HEADERSIZE
  }

  /** v, if it points into the heap at all, points right behind the header of an object. */
  ghost predicate PointsWell(m: seq<Cell>, lo: nat, hi: nat, v: int)
    requires Tiled(m, lo, hi)
  {
    InHeap(lo, hi, v) ==>
      v % CELL == 0 && HeaderAt(v) in Headers(m, lo, hi) && KindOf(m[HeaderAt(v)]) != GCT_FREE
  }

  /** The object at h is large enough for what its type keeps in it. */
  ghost predicate Fits(classOf: Cell -> Class, m: seq<Cell>, h: nat)
  {
    && h + 2 <= |m| && Next(m, h) <= |m|
    && var size, kind := SizeOf(m[h]), KindOf(m[h]);
       && 1 <= size && kind <= GCT_WEAKREFERENCE && kind != GCT_METHODTABLE
       && (kind == GCT_INSTANCE ==> 2 <= size && 2 + Extent(InstanceOffsets(classOf(m[h + 1]))) <= size)
       && (kind == GCT_ARRAY ==> 3 <= size)
       && (kind == GCT_OBJECTARRAY ==> 3 <= size && 3 + m[h + 3] <= size)
       && (kind == GCT_POINTERLIST ==> 1 + m[h + 1] <= size)
       && (kind == GCT_WEAKPOINTERLIST ==> 3 <= size && 3 + m[h + 1] <= size)
       && (kind == GCT_WEAKREFERENCE ==> 4 <= size && 2 + Extent(InstanceOffsets(classOf(m[h + 1]))) <= size)
       && (kind == GCT_MONITOR ==> 5 <= size)
       && (kind == GCT_THREAD ==> 12 <= size)
  }

  /** The object's strong pointers and its monitor are sound. */
  ghost predicate Sound(classOf: Cell -> Class, m: seq<Cell>, lo: nat, hi: nat, h: nat)
    requires Tiled(m, lo, hi) && Fits(classOf, m, h)
  {
    && (forall s | s in StrongSlots(classOf, m, h) :: h < s < Next(m, h) && s < |m| && PointsWell(m, lo, hi, m[s]))
    && (HasRealMonitor(m, h) && InHeap(lo, hi, MonitorOf(m, h)) ==>
          PointsWell(m, lo, hi, MonitorOf(m, h)) && KindOf(m[HeaderAt(MonitorOf(m, h))]) == GCT_MONITOR)
  }

  /** OBJECT_HAS_REAL_MONITOR and OBJECT_MHC_MONITOR. */
  predicate HasRealMonitor(m: seq<Cell>, h: nat)
    requires h < |m|
  {
    HasMonitorCell(KindOf(m[h])) && h + 2 < |m| && m[h + 2] % 4 == MHC_MONITOR
  }

  function MonitorOf(m: seq<Cell>, h: nat): int
    requires h + 2 < |m|
  {
    m[h + 2] - MHC_MONITOR
  }

  /** The objects that marking the object at h marks: its strong pointers and its monitor. */
  ghost function Successors(classOf: Cell -> Class, m: seq<Cell>, lo: nat, hi: nat, h: nat): set<int>
    requires Tiled(m, lo, hi) && Fits(classOf, m, h) && Sound(classOf, m, lo, hi, h)
  {
    (set s | s in StrongSlots(classOf, m, h) && InHeap(lo, hi, m[s]) :: HeaderAt(m[s]))
    + (if HasRealMonitor(m, h) && InHeap(lo, hi, MonitorOf(m, h)) then {HeaderAt(MonitorOf(m, h))} else {})
  }

  /** A heap between two collections: every object fits, and the pointers of every object in use are sound. */
  ghost predicate WellFormed(classOf: Cell -> Class, m: seq<Cell>, lo: nat, hi: nat) {
    && 1 <= lo && Tiled(m, lo, hi) && |m| <= MAX_CELLS
    && forall h | h in Headers(m, lo, hi) :: Fits(classOf, m, h)
         && (KindOf(m[h]) != GCT_FREE ==> Sound(classOf, m, lo, hi, h))
  }

  /** The cell in which a weak object is linked into its list during a collection (gcReserved). */
  function ReservedCell(kind: nat, h: nat): nat {
    if kind == GCT_WEAKPOINTERLIST then h + 2 else h + 4
  }

  predicate IsWeak(kind: nat) {
    kind == GCT_WEAKPOINTERLIST || kind == GCT_WEAKREFERENCE
  }

  /** The cells in use by the lists of weak objects. */
  ghost function ReservedCells(m: seq<Cell>, lo: nat, hi: nat): set<nat>
    requires Tiled(m, lo, hi)
  {
    set h | h in Headers(m, lo, hi) && h < |m| && IsWeak(KindOf(m[h])) :: ReservedCell(KindOf(m[h]), h)
  }

  /** The header of an object that is marked or not, everything else being as in `header`. */
  function Stamped(header: Cell, marked: bool): Cell {
    if marked then WithMark(header) else WithoutMark(header)
  }

  /** m is m0 but for the mark bits, which are those of `marked`, and for the links of the weak lists. */
  ghost predicate Mirrors(m: seq<Cell>, m0: seq<Cell>, lo: nat, hi: nat, marked: set<nat>)
    requires Tiled(m0, lo, hi)
  {
    && |m| == |m0|
    && (forall k {:trigger m[k]} | 0 <= k < |m| && k in Headers(m0, lo, hi) :: m[k] == Stamped(m0[k], k in marked))
    && (forall k {:trigger m[k]} | 0 <= k < |m| && k !in Headers(m0, lo, hi) && k !in ReservedCells(m0, lo, hi) ::
          m[k] == m0[k])
  }

  lemma ReservedInside(classOf: Cell -> Class, m: seq<Cell>, lo: nat, hi: nat, h: nat)
    requires WellFormed(classOf, m, lo, hi) && h in Headers(m, lo, hi) && IsWeak(KindOf(m[h]))
    ensures h < ReservedCell(KindOf(m[h]), h) < Next(m, h) <= hi
  {
    HeaderBounds(m, lo, hi, h);
  }

  /** A cell inside an object is no header. */
  lemma InsideIsNoHeader(m: seq<Cell>, lo: nat, hi: nat, h: nat, k: nat)
    requires Tiled(m, lo, hi) && h in Headers(m, lo, hi) && h < |m| && h < k < Next(m, h)
    ensures k !in Headers(m, lo, hi)
  {
    if k in Headers(m, lo, hi) {
      HeadersApart(m, lo, hi, h, k);
    }
  }

  lemma RowOf(classOf: Cell -> Class, m: seq<Cell>, lo: nat, hi: nat)
    requires WellFormed(classOf, m, lo, hi)
    ensures Tiled(m, lo, hi)
  {
  }

  /** A cell inside an object is reserved only if it is that object's own reserved cell. */
  lemma ReservedByOwner(classOf: Cell -> Class, m: seq<Cell>, lo: nat, hi: nat, h: nat, k: nat)
    requires WellFormed(classOf, m, lo, hi) && h in Headers(m, lo, hi) && h < k < Next(m, h)
    requires k in ReservedCells(m, lo, hi)
    ensures IsWeak(KindOf(m[h])) && k == ReservedCell(KindOf(m[h]), h)
  {
    hide Fits, Sound, SizeOf, KindOf, Tiled, Headers, WellFormed;
    RowOf(classOf, m, lo, hi);
    var g :| g in Headers(m, lo, hi) && g < |m| && IsWeak(KindOf(m[g])) && k == ReservedCell(KindOf(m[g]), g);
    ReservedInside(classOf, m, lo, hi, g);
    if g < h {
      HeadersApart(m, lo, hi, g, h);
    } else if h < g {
      HeadersApart(m, lo, hi, h, g);
    }
  }
}
