/** mallocHeapObject: what allocation does to the heap, and when it fails. */
module HeapObjects {
  import opened Cells
  import opened FreeList
  import opened Objects
  import opened HeapShape
  import opened Marking
  import opened Roots
  import opened HeapUpdate
  import opened WeakPointers
  import opened Tracing
  import opened Sweeping
  import opened Outcomes
  import opened Preservation
  import opened Isomorphism
  import opened Collecting
  import opened Allocation

  /** The row of objects after the one at s has been split d cells behind its header. */
  lemma {:induction false} SplitRow(m': seq<Cell>, m: seq<Cell>, p: nat, hi: nat, s: nat, d: nat)
    requires Tiled(m, p, hi) && s in Headers(m, p, hi) && |m'| == |m| && s < |m| && 2 <= d
    requires s + d + 2 <= Next(m, s) <= |m|
    requires SizeOf(m'[s]) == d - HEADERSIZE && SizeOf(m'[s + d]) == Next(m, s) - (s + d) - HEADERSIZE
    requires forall h | h in Headers(m, p, hi) && h != s :: h < |m| && SizeOf(m'[h]) == SizeOf(m[h])
    ensures Tiled(m', p, hi) && Headers(m', p, hi) == Headers(m, p, hi) + {s + d}
    decreases hi - p
  {
    var q := Next(m, p);
    if p == s {
      forall h | h in Headers(m, q, hi)
        ensures h < |m'| && SizeOf(m'[h]) == SizeOf(m[h])
      {
        HeaderBounds(m, q, hi, h);
      }
      SameTiling(m', m, q, hi);
      assert Next(m', s + d) == q;
      assert Tiled(m', s + d, hi) && Headers(m', s + d, hi) == {s + d} + Headers(m', q, hi);
    } else {
      assert p in Headers(m, p, hi);
      SplitRow(m', m, q, hi, s, d);
    }
  }

  lemma {:induction false} DeadFront(chunks: seq<Chunk>, other: seq<Chunk>, n: nat)
    requires n <= |chunks| && n <= |other| && chunks[..n] == other[..n]
    ensures Dead(chunks, n) == Dead(other, n)
  {
    if n > 0 {
      assert chunks[..n - 1] == chunks[..n][..n - 1] == other[..n][..n - 1] == other[..n - 1];
      assert chunks[n - 1] == chunks[..n][n - 1] == other[..n][n - 1];
      DeadFront(chunks, other, n - 1);
    }
  }

  /** The free list gets shorter by exactly the cells given away. */
  lemma {:induction false} DeadRest(chunks: seq<Chunk>, k: nat, size: nat, n: nat)
    requires k < n <= |chunks| && size <= chunks[k].cells
    ensures var rest := Rest(chunks, k, size);
            var r := if |rest| == |chunks| then n else n - 1;
            r <= |rest| && Dead(rest, r) == Dead(chunks, n) - Given(chunks[k], size)
    decreases n
  {
    var rest := Rest(chunks, k, size);
    if n == k + 1 {
      DeadFront(rest, chunks, k);
    } else {
      DeadRest(chunks, k, size, n - 1);
    }
  }

  /** The memory after a request has been served from chunk k and the object has been given its type. */
  ghost predicate NewObject(m': seq<Cell>, m: seq<Cell>, chunks: seq<Chunk>, k: nat, size: nat, kind: nat) {
    && k < |chunks| && size <= chunks[k].cells && |m'| == |m| && 2 <= Given(chunks[k], size) <= MAX_CELLS && kind < 64
    && 0 <= Taken(chunks[k], size) < |m'|
    && m'[Taken(chunks[k], size)] == HeaderOf(Given(chunks[k], size) - HEADERSIZE, kind)
    && (chunks[k].cells > size + HEADERSIZE ==>
          chunks[k].start < |m'| && 2 <= chunks[k].cells - size <= MAX_CELLS
            && m'[chunks[k].start] == ChunkHeader(chunks[k].cells - size))
    && forall x {:trigger m'[x]} | 0 <= x < |m'| && x != Taken(chunks[k], size) && x != chunks[k].start
                                   && !(0 < k && x == chunks[k - 1].start + 1) :: m'[x] == m[x]
  }

  lemma HeaderOfFacts(size: nat, kind: nat)
    requires size < MAX_CELLS && kind < 64
    ensures SizeOf(HeaderOf(size, kind)) == size && KindOf(HeaderOf(size, kind)) == kind
    ensures !IsMarked(HeaderOf(size, kind))
  {
    assert HeaderOf(size, kind) == 4 * (64 * size + kind);
    assert HeaderOf(size, kind) == 2 * (128 * size + 2 * kind);
  }

  /** The chunk that a free cell belongs to is an object of the heap. */
  lemma ChunkObject(m: seq<Cell>, lo: nat, hi: nat, chunks: seq<Chunk>, first: Cell, k: nat)
    requires FreeHeap(m, lo, hi, chunks, first) && k < |chunks|
    ensures Tiled(m, lo, hi) && chunks[k].start in Headers(m, lo, hi) && chunks[k].start < |m|
    ensures Next(m, chunks[k].start) == chunks[k].End() <= hi
    ensures KindOf(m[chunks[k].start]) == GCT_FREE && 2 <= chunks[k].cells && hi <= |m| <= MAX_CELLS
  {
    hide FreeHeap, Free, Apart, ChunkHeader, Headers, Tiled, KindOf, SizeOf;
    FreeHeapFacts(m, lo, hi, chunks, first);
    FreeListed(m, hi, chunks, first, k);
    assert chunks[k] in chunks;
    ChunkHeaderFacts(chunks[k].cells);
  }

  /** Allocation touches free chunks only. */
  lemma LiveUntouched(m': seq<Cell>, m: seq<Cell>, lo: nat, hi: nat, chunks: seq<Chunk>, first: Cell, k: nat,
                      size: nat, kind: nat, h: nat, x: nat)
    requires FreeHeap(m, lo, hi, chunks, first) && NewObject(m', m, chunks, k, size, kind) && Tiled(m, lo, hi)
    requires h in Headers(m, lo, hi) && h < |m| && h <= x < Next(m, h) && h !in Starts(chunks)
    ensures x < |m'| && m'[x] == m[x]
  {
    hide FreeHeap, ChunkHeader, Headers, Tiled, KindOf, SizeOf, HeaderOf, Next;
    HeaderBounds(m, lo, hi, h);
    ChunkObject(m, lo, hi, chunks, first, k);
    assert chunks[k] in chunks;
    ApartObjects(m, lo, hi, h, chunks[k].start, x, Taken(chunks[k], size));
    ApartObjects(m, lo, hi, h, chunks[k].start, x, chunks[k].start);
    if 0 < k {
      ChunkObject(m, lo, hi, chunks, first, k - 1);
      assert chunks[k - 1] in chunks;
      ApartObjects(m, lo, hi, h, chunks[k - 1].start, x, chunks[k - 1].start + 1);
    }
  }

  /** Cells of different objects are different. */
  lemma ApartObjects(m: seq<Cell>, lo: nat, hi: nat, h: nat, o: nat, x: nat, y: nat)
    requires Tiled(m, lo, hi) && h in Headers(m, lo, hi) && o in Headers(m, lo, hi) && h < |m| && o < |m|
    requires h <= x < Next(m, h) && o <= y < Next(m, o) && h != o
    ensures x != y
  {
    if h < o {
      HeadersApart(m, lo, hi, h, o);
    } else {
      HeadersApart(m, lo, hi, o, h);
    }
  }

  /** Headers keep their size and type, but for those of the chunk that serves the request and of the new object. */
  lemma HeaderUntouched(m': seq<Cell>, m: seq<Cell>, lo: nat, hi: nat, chunks: seq<Chunk>, first: Cell, k: nat,
                        size: nat, kind: nat, h: nat)
    requires FreeHeap(m, lo, hi, chunks, first) && NewObject(m', m, chunks, k, size, kind) && Tiled(m, lo, hi)
    requires h in Headers(m, lo, hi) && h != chunks[k].start
    ensures h < |m'| == |m| && m'[h] == m[h] && h != Taken(chunks[k], size)
  {
    hide FreeHeap, ChunkHeader, Headers, Tiled, KindOf, SizeOf, HeaderOf, Next;
    HeaderBounds(m, lo, hi, h);
    ChunkObject(m, lo, hi, chunks, first, k);
    ApartObjects(m, lo, hi, h, chunks[k].start, h, Taken(chunks[k], size));
    if 0 < k {
      ChunkObject(m, lo, hi, chunks, first, k - 1);
      if h != chunks[k - 1].start {
        ApartObjects(m, lo, hi, h, chunks[k - 1].start, h, chunks[k - 1].start + 1);
      }
    }
  }

  lemma NewObjectFacts(m': seq<Cell>, m: seq<Cell>, chunks: seq<Chunk>, k: nat, size: nat, kind: nat)
    requires NewObject(m', m, chunks, k, size, kind)
    ensures k < |chunks| && size <= chunks[k].cells && |m'| == |m| && 0 <= Taken(chunks[k], size) < |m'|
    ensures SizeOf(m'[Taken(chunks[k], size)]) == Given(chunks[k], size) - HEADERSIZE
    ensures KindOf(m'[Taken(chunks[k], size)]) == kind && !IsMarked(m'[Taken(chunks[k], size)])
    ensures chunks[k].cells > size + HEADERSIZE ==>
              && chunks[k].start < |m'| && SizeOf(m'[chunks[k].start]) == chunks[k].cells - size - HEADERSIZE
              && KindOf(m'[chunks[k].start]) == GCT_FREE && !IsMarked(m'[chunks[k].start])
  {
    hide SizeOf, KindOf, IsMarked, HeaderOf, ChunkHeader;
    HeaderOfFacts(Given(chunks[k], size) - HEADERSIZE, kind);
    if chunks[k].cells > size + HEADERSIZE {
      ChunkHeaderFacts(chunks[k].cells - size);
    }
  }

  lemma SizesUntouched(m': seq<Cell>, m: seq<Cell>, lo: nat, hi: nat, chunks: seq<Chunk>, first: Cell, k: nat,
                       size: nat, kind: nat)
    requires FreeHeap(m, lo, hi, chunks, first) && NewObject(m', m, chunks, k, size, kind) && Tiled(m, lo, hi)
    ensures forall h | h in Headers(m, lo, hi) && h != chunks[k].start ::
              h < |m| && h < |m'| && SizeOf(m'[h]) == SizeOf(m[h])
  {
    hide FreeHeap, NewObject, Headers, Tiled, SizeOf;
    NewObjectFacts(m', m, chunks, k, size, kind);
    forall h | h in Headers(m, lo, hi) && h != chunks[k].start
      ensures h < |m| && h < |m'| && SizeOf(m'[h]) == SizeOf(m[h])
    {
      HeaderUntouched(m', m, lo, hi, chunks, first, k, size, kind, h);
    }
  }

  /** The row of objects after allocation: one more object if the chunk has been split. */
  lemma RowAfterAllocation(m': seq<Cell>, m: seq<Cell>, lo: nat, hi: nat, chunks: seq<Chunk>, first: Cell, k: nat,
                           size: nat, kind: nat)
    requires FreeHeap(m, lo, hi, chunks, first) && NewObject(m', m, chunks, k, size, kind) && 2 <= size
    ensures Tiled(m, lo, hi) && Tiled(m', lo, hi)
    ensures Headers(m', lo, hi) == Headers(m, lo, hi) + {Taken(chunks[k], size)}
  {
    hide FreeHeap, NewObject, Headers, Tiled, KindOf, SizeOf, Free, Apart;
    FreeHeapFacts(m, lo, hi, chunks, first);
    NewObjectFacts(m', m, chunks, k, size, kind);
    ChunkObject(m, lo, hi, chunks, first, k);
    SizesUntouched(m', m, lo, hi, chunks, first, k, size, kind);
    var s := chunks[k].start;
    if chunks[k].cells > size + HEADERSIZE {
      SplitRow(m', m, lo, hi, s, chunks[k].cells - size);
    } else {
      assert SizeOf(m'[s]) == SizeOf(m[s]);
      SameTiling(m', m, lo, hi);
      assert Headers(m, lo, hi) + {s} == Headers(m, lo, hi);
    }
  }

  lemma StartIn(chunks: seq<Chunk>, k: nat)
    requires k < |chunks|
    ensures chunks[k].start in Starts(chunks)
  {
    assert chunks[k] in chunks;
  }

  lemma StartOf(chunks: seq<Chunk>, s: nat) returns (k: nat)
    requires s in Starts(chunks)
    ensures k < |chunks| && chunks[k].start == s
  {
    var c :| c in chunks && c.start == s;
    k :| k < |chunks| && chunks[k] == c;
  }

  /** Taking a request from a chunk removes its start from the list only if the whole chunk is given away. */
  lemma StartsRest(chunks: seq<Chunk>, k: nat, size: nat, s: nat)
    requires Apart(chunks) && k < |chunks| && size <= chunks[k].cells && forall c | c in chunks :: 2 <= c.cells
    ensures s in Starts(Rest(chunks, k, size))
            <==> s in Starts(chunks) && (chunks[k].cells > size + HEADERSIZE || s != chunks[k].start)
  {
    hide Starts, Apart;
    var rest := Rest(chunks, k, size);
    if s in Starts(rest) {
      var j := StartOf(rest, s);
      var i := if |rest| == |chunks| || j < k then j else j + 1;
      StartIn(chunks, i);
      assert chunks[k] in chunks && chunks[i] in chunks;
      if i != k {
        ApartAt(chunks, i, k);
      }
    }
    if s in Starts(chunks) && (chunks[k].cells > size + HEADERSIZE || s != chunks[k].start) {
      var i := StartOf(chunks, s);
      StartIn(rest, if |rest| == |chunks| || i < k then i else i - 1);
    }
  }

  lemma AllLarge(m: seq<Cell>, hi: nat, chunks: seq<Chunk>, first: Cell)
    requires Free(m, hi, chunks, first)
    ensures forall c | c in chunks :: 2 <= c.cells
  {
  }

  lemma FreeHeapFrom(m: seq<Cell>, lo: nat, hi: nat, chunks: seq<Chunk>, first: Cell)
    requires 1 <= lo && Tiled(m, lo, hi) && |m| <= MAX_CELLS && Free(m, hi, chunks, first) && Apart(chunks)
    requires Starts(chunks) <= Headers(m, lo, hi)
    requires forall h | h in Headers(m, lo, hi) && h < |m| && KindOf(m[h]) == GCT_FREE :: h in Starts(chunks)
    ensures FreeHeap(m, lo, hi, chunks, first)
  {
  }

  lemma FreeHeapObjects(m: seq<Cell>, lo: nat, hi: nat, chunks: seq<Chunk>, first: Cell, h: nat)
    requires FreeHeap(m, lo, hi, chunks, first) && Tiled(m, lo, hi)
    ensures h in Starts(chunks) ==> h in Headers(m, lo, hi)
    ensures h in Headers(m, lo, hi) && h < |m| && KindOf(m[h]) == GCT_FREE ==> h in Starts(chunks)
  {
  }

  /** Allocation keeps the heap a row of objects, the free ones among them being those of the free list. */
  lemma FreeHeapAfterAllocation(m': seq<Cell>, m: seq<Cell>, lo: nat, hi: nat, chunks: seq<Chunk>, first: Cell,
                                newFirst: Cell,
                                k: nat, size: nat, kind: nat)
    requires FreeHeap(m, lo, hi, chunks, first) && NewObject(m', m, chunks, k, size, kind) && 2 <= size
    requires kind != GCT_FREE
    requires k < |chunks| && size <= chunks[k].cells
    requires Free(m', hi, Rest(chunks, k, size), newFirst) && Apart(Rest(chunks, k, size))
    ensures FreeHeap(m', lo, hi, Rest(chunks, k, size), newFirst)
  {
    hide FreeHeap, NewObject, Headers, Tiled, KindOf, SizeOf, Free, Apart, Starts, Rest, Taken;
    FreeHeapFacts(m, lo, hi, chunks, first);
    NewObjectFacts(m', m, chunks, k, size, kind);
    RowAfterAllocation(m', m, lo, hi, chunks, first, k, size, kind);
    AllLarge(m, hi, chunks, first);
    var rest := Rest(chunks, k, size);
    forall h | h in Starts(rest)
      ensures h in Headers(m', lo, hi)
    {
      StartsRest(chunks, k, size, h);
      FreeHeapObjects(m, lo, hi, chunks, first, h);
    }
    forall h | h in Headers(m', lo, hi) && h < |m'| && KindOf(m'[h]) == GCT_FREE
      ensures h in Starts(rest)
    {
      FreeAfterAllocation(m', m, lo, hi, chunks, first, k, size, kind, h);
    }
    FreeHeapFrom(m', lo, hi, rest, newFirst);
  }

  lemma FreeAfterAllocation(m': seq<Cell>, m: seq<Cell>, lo: nat, hi: nat, chunks: seq<Chunk>, first: Cell,
                            k: nat, size: nat, kind: nat, h: nat)
    requires FreeHeap(m, lo, hi, chunks, first) && NewObject(m', m, chunks, k, size, kind) && 2 <= size
    requires kind != GCT_FREE
    requires k < |chunks| && size <= chunks[k].cells && Tiled(m, lo, hi) && h < |m'| && KindOf(m'[h]) == GCT_FREE
    requires h in Headers(m, lo, hi) || h == Taken(chunks[k], size)
    ensures h in Starts(Rest(chunks, k, size))
  {
    hide FreeHeap, NewObject, Headers, Tiled, KindOf, SizeOf, Free, Apart, Starts, Rest;
    FreeHeapFacts(m, lo, hi, chunks, first);
    NewObjectFacts(m', m, chunks, k, size, kind);
    AllLarge(m, hi, chunks, first);
    StartsRest(chunks, k, size, h);
    if h == chunks[k].start {
      StartIn(chunks, k);
    } else {
      HeaderUntouched(m', m, lo, hi, chunks, first, k, size, kind, h);
      FreeHeapObjects(m, lo, hi, chunks, first, h);
    }
  }

  /** The heap before and after an allocation. */
  ghost predicate Allocates(m': seq<Cell>, m: seq<Cell>, lo: nat, hi: nat, chunks: seq<Chunk>, first: Cell, k: nat,
                            size: nat, kind: nat) {
    FreeHeap(m, lo, hi, chunks, first) && NewObject(m', m, chunks, k, size, kind) && 2 <= size && kind != GCT_FREE
  }

  lemma AllocationShape(m': seq<Cell>, m: seq<Cell>, lo: nat, hi: nat, chunks: seq<Chunk>, first: Cell, k: nat,
                        size: nat, kind: nat)
    requires Allocates(m', m, lo, hi, chunks, first, k, size, kind)
    ensures 1 <= lo <= hi <= |m| == |m'| <= MAX_CELLS && k < |chunks| && Tiled(m, lo, hi) && Tiled(m', lo, hi)
    ensures Headers(m', lo, hi) == Headers(m, lo, hi) + {Taken(chunks[k], size)}
  {
    hide FreeHeap, NewObject, Headers, Tiled, Free, Apart, Taken;
    FreeHeapFacts(m, lo, hi, chunks, first);
    NewObjectFacts(m', m, chunks, k, size, kind);
    RowAfterAllocation(m', m, lo, hi, chunks, first, k, size, kind);
  }

  /** The header of the new object: at most one cell more than requested belongs to it. */
  lemma HeaderOfNew(m1: seq<Cell>, m: seq<Cell>, lo: nat, hi: nat, chunks: seq<Chunk>, first: Cell, k: nat, size: nat,
                    kind: nat)
    requires Allocates(m1, m, lo, hi, chunks, first, k, size, kind) && k < |chunks|
    ensures var h := Taken(chunks[k], size);
            && lo <= h < |m1| && SizeOf(m1[h]) == Given(chunks[k], size) - HEADERSIZE
               && size - HEADERSIZE <= SizeOf(m1[h]) <= size
            && KindOf(m1[h]) == kind && !IsMarked(m1[h]) && h + 2 <= Next(m1, h) <= hi <= |m1|
  {
    hide FreeHeap, Tiled, Headers, KindOf, IsMarked;
    AllocationShape(m1, m, lo, hi, chunks, first, k, size, kind);
    HeaderOfFacts(Given(chunks[k], size) - HEADERSIZE, kind);
    HeaderBounds(m1, lo, hi, Taken(chunks[k], size));
  }

  /**
   * The cells behind `address` are an object of the heap with at least the `size` cells that have been asked for, and
   * at most one more; a request for nothing is one for a single cell.
   */
  ghost predicate HoldsRequest(m: seq<Cell>, lo: nat, hi: nat, address: Cell, size: nat, kind: nat) {
    && address % CELL == 0 && lo + HEADERSIZE <= address / CELL < |m|
    && var h := address / CELL - HEADERSIZE;
       && Next(m, h) <= hi <= |m| && KindOf(m[h]) == kind && !IsMarked(m[h])
       && size <= SizeOf(m[h]) && 1 <= SizeOf(m[h]) && (SizeOf(m[h]) <= size + 1 || SizeOf(m[h]) <= 2)
  }

  /** An object in use is left alone, cell for cell. */
  lemma ObjectStill(m': seq<Cell>, m: seq<Cell>, lo: nat, hi: nat, chunks: seq<Chunk>, first: Cell, k: nat, size: nat,
                    kind: nat, h: nat, x: nat)
    requires Allocates(m', m, lo, hi, chunks, first, k, size, kind) && Tiled(m, lo, hi)
    requires h in Headers(m, lo, hi) && h < |m| && KindOf(m[h]) != GCT_FREE && h <= x < Next(m, h)
    ensures x < |m'| == |m| && m'[x] == m[x] && h < |m'| && m'[h] == m[h] && Next(m', h) == Next(m, h)
    ensures h + 2 <= Next(m, h) <= hi
    ensures Tiled(m', lo, hi) && h in Headers(m', lo, hi)
  {
    hide FreeHeap, NewObject, Headers, Tiled, KindOf, SizeOf, Free, Apart, Starts, Taken;
    AllocationShape(m', m, lo, hi, chunks, first, k, size, kind);
    HeaderBounds(m, lo, hi, h);
    if h in Starts(chunks) {
      var j := StartOf(chunks, h);
      ChunkObject(m, lo, hi, chunks, first, j);
    }
    LiveUntouched(m', m, lo, hi, chunks, first, k, size, kind, h, h);
    LiveUntouched(m', m, lo, hi, chunks, first, k, size, kind, h, x);
  }

  lemma PointsWellStill(m': seq<Cell>, m: seq<Cell>, lo: nat, hi: nat, chunks: seq<Chunk>, first: Cell, k: nat,
                        size: nat, kind: nat, v: int)
    requires Allocates(m', m, lo, hi, chunks, first, k, size, kind) && Tiled(m, lo, hi) && PointsWell(m, lo, hi, v)
    ensures Tiled(m', lo, hi) && PointsWell(m', lo, hi, v)
  {
    hide Allocates, Headers, Tiled, KindOf, SizeOf, Taken;
    AllocationShape(m', m, lo, hi, chunks, first, k, size, kind);
    if InHeap(lo, hi, v) {
      var c := HeaderAt(v);
      HeaderBounds(m, lo, hi, c);
      ObjectStill(m', m, lo, hi, chunks, first, k, size, kind, c, c);
    }
  }

  /** The cells of an object in use that say where its pointers are. */
  lemma FirstCellsStill(classOf: Cell -> Class, m': seq<Cell>, m: seq<Cell>, lo: nat, hi: nat, chunks: seq<Chunk>,
                        first: Cell, k: nat, size: nat, kind: nat, h: nat)
    requires Allocates(m', m, lo, hi, chunks, first, k, size, kind) && Tiled(m, lo, hi)
    requires h in Headers(m, lo, hi) && h < |m| && KindOf(m[h]) != GCT_FREE && Fits(classOf, m, h)
    ensures h + 1 < |m'| == |m| && m'[h] == m[h] && m'[h + 1] == m[h + 1]
    ensures HasMonitorCell(KindOf(m[h])) ==> h + 2 < |m| && m'[h + 2] == m[h + 2]
    ensures KindOf(m[h]) == GCT_OBJECTARRAY ==> h + 3 < |m| && m'[h + 3] == m[h + 3]
    ensures Fits(classOf, m', h)
  {
    hide Allocates, Headers, Tiled, KindOf, SizeOf;
    ObjectStill(m', m, lo, hi, chunks, first, k, size, kind, h, h);
    ObjectStill(m', m, lo, hi, chunks, first, k, size, kind, h, h + 1);
    if HasMonitorCell(KindOf(m[h])) {
      ObjectStill(m', m, lo, hi, chunks, first, k, size, kind, h, h + 2);
    }
    if KindOf(m[h]) == GCT_OBJECTARRAY {
      ObjectStill(m', m, lo, hi, chunks, first, k, size, kind, h, h + 3);
    }
    FitsMoved(classOf, m', h, m, h);
  }

  lemma SoundStill(classOf: Cell -> Class, m': seq<Cell>, m: seq<Cell>, lo: nat, hi: nat, chunks: seq<Chunk>,
                   first: Cell, k: nat, size: nat, kind: nat, h: nat)
    requires Allocates(m', m, lo, hi, chunks, first, k, size, kind) && Tiled(m, lo, hi)
    requires h in Headers(m, lo, hi) && h < |m| && KindOf(m[h]) != GCT_FREE && Fits(classOf, m, h)
    requires Sound(classOf, m, lo, hi, h)
    ensures Tiled(m', lo, hi) && Fits(classOf, m', h) && Sound(classOf, m', lo, hi, h)
  {
    hide Allocates, Headers, Tiled, KindOf, SizeOf, PointsWell, InHeap, HeaderAt, Taken, SlotsAt, Range;
    AllocationShape(m', m, lo, hi, chunks, first, k, size, kind);
    FirstCellsStill(classOf, m', m, lo, hi, chunks, first, k, size, kind, h);
    hide Fits;
    assert StrongSlots(classOf, m', h) == StrongSlots(classOf, m, h);
    forall s | s in StrongSlots(classOf, m', h)
      ensures h < s < Next(m', h) && s < |m'| && PointsWell(m', lo, hi, m'[s])
    {
      ObjectStill(m', m, lo, hi, chunks, first, k, size, kind, h, s);
      PointsWellStill(m', m, lo, hi, chunks, first, k, size, kind, m[s]);
    }
    if HasRealMonitor(m, h) && InHeap(lo, hi, MonitorOf(m, h)) {
      PointsWellStill(m', m, lo, hi, chunks, first, k, size, kind, MonitorOf(m, h));
      MonitorStill(m', m, lo, hi, chunks, first, k, size, kind, MonitorOf(m, h));
    }
  }

  lemma MonitorStill(m': seq<Cell>, m: seq<Cell>, lo: nat, hi: nat, chunks: seq<Chunk>, first: Cell, k: nat, size: nat,
                     kind: nat, v: int)
    requires Allocates(m', m, lo, hi, chunks, first, k, size, kind) && Tiled(m, lo, hi) && PointsWell(m, lo, hi, v)
    requires InHeap(lo, hi, v)
    ensures 0 <= HeaderAt(v) < |m| == |m'| && m'[HeaderAt(v)] == m[HeaderAt(v)]
  {
    hide Allocates, Headers, Tiled, KindOf, SizeOf;
    HeaderBounds(m, lo, hi, HeaderAt(v));
    ObjectStill(m', m, lo, hi, chunks, first, k, size, kind, HeaderAt(v), HeaderAt(v));
  }

  /** Types of objects without pointers. */
  predicate HasNoPointers(kind: nat) {
    kind == GCT_NOPOINTERS || kind == GCT_EXECSTACK
  }

  /** What a heap at rest promises about one object. */
  ghost predicate HeaderAtRest(classOf: Cell -> Class, m: seq<Cell>, lo: nat, hi: nat, h: nat)
    requires Tiled(m, lo, hi)
  {
    && Fits(classOf, m, h) && (KindOf(m[h]) != GCT_FREE ==> Sound(classOf, m, lo, hi, h))
    && !IsMarked(m[h]) && HasReferent(classOf, m, h)
  }

  lemma PlainAtRest(classOf: Cell -> Class, m: seq<Cell>, lo: nat, hi: nat, h: nat)
    requires Tiled(m, lo, hi) && h < |m| && h + 2 <= Next(m, h) <= |m| && !IsMarked(m[h])
    requires KindOf(m[h]) == GCT_FREE || HasNoPointers(KindOf(m[h]))
    ensures HeaderAtRest(classOf, m, lo, hi, h)
  {
    hide KindOf, IsMarked, Tiled, PointsWell;
  }

  lemma UsedAtRest(classOf: Cell -> Class, m': seq<Cell>, m: seq<Cell>, lo: nat, hi: nat, chunks: seq<Chunk>,
                   first: Cell, k: nat, size: nat, kind: nat, h: nat)
    requires Allocates(m', m, lo, hi, chunks, first, k, size, kind) && AtRest(classOf, m, lo, hi) && Tiled(m, lo, hi)
    requires h in Headers(m, lo, hi) && h < |m| && KindOf(m[h]) != GCT_FREE
    ensures Tiled(m', lo, hi) && HeaderAtRest(classOf, m', lo, hi, h)
  {
    hide Allocates, Headers, Tiled, KindOf, IsMarked, AtRest, Fits, Sound;
    RestingObject(classOf, m, lo, hi, h);
    SoundStill(classOf, m', m, lo, hi, chunks, first, k, size, kind, h);
    FirstCellsStill(classOf, m', m, lo, hi, chunks, first, k, size, kind, h);
    RestingHeader(classOf, m, lo, hi, h);
  }

  lemma RestingObject(classOf: Cell -> Class, m: seq<Cell>, lo: nat, hi: nat, h: nat)
    requires AtRest(classOf, m, lo, hi) && Tiled(m, lo, hi) && h in Headers(m, lo, hi) && h < |m|
    requires KindOf(m[h]) != GCT_FREE
    ensures Fits(classOf, m, h) && Sound(classOf, m, lo, hi, h)
  {
  }

  /** Every object of the heap after the allocation. */
  lemma ObjectAfterAllocation(classOf: Cell -> Class, m': seq<Cell>, m: seq<Cell>, lo: nat, hi: nat,
                              chunks: seq<Chunk>, first: Cell,
                              k: nat, size: nat, kind: nat, n: nat)
    requires Allocates(m', m, lo, hi, chunks, first, k, size, kind) && AtRest(classOf, m, lo, hi)
    requires Tiled(m', lo, hi) && n in Headers(m', lo, hi) && k < |chunks|
    requires (HasNoPointers(kind) || n != Taken(chunks[k], size))
    ensures HeaderAtRest(classOf, m', lo, hi, n)
  {
    hide FreeHeap, NewObject, Headers, Tiled, KindOf, IsMarked, AtRest, SizeOf, HeaderAtRest, Taken;
    AllocationShape(m', m, lo, hi, chunks, first, k, size, kind);
    NewObjectFacts(m', m, chunks, k, size, kind);
    HeaderBounds(m', lo, hi, n);
    if n == Taken(chunks[k], size) {
      PlainAtRest(classOf, m', lo, hi, n);
    } else {
      HeaderBounds(m, lo, hi, n);
      if KindOf(m[n]) != GCT_FREE {
        UsedAtRest(classOf, m', m, lo, hi, chunks, first, k, size, kind, n);
      } else {
        FreeStill(classOf, m', m, lo, hi, chunks, first, k, size, kind, n);
        PlainAtRest(classOf, m', lo, hi, n);
      }
    }
  }

  lemma FreeStill(classOf: Cell -> Class, m': seq<Cell>, m: seq<Cell>, lo: nat, hi: nat, chunks: seq<Chunk>,
                  first: Cell, k: nat, size: nat, kind: nat, n: nat)
    requires Allocates(m', m, lo, hi, chunks, first, k, size, kind) && AtRest(classOf, m, lo, hi) && Tiled(m, lo, hi)
    requires k < |chunks| && n in Headers(m, lo, hi) && n < |m| && KindOf(m[n]) == GCT_FREE
    requires n != Taken(chunks[k], size)
    ensures n < |m'| && KindOf(m'[n]) == GCT_FREE && !IsMarked(m'[n])
  {
    hide FreeHeap, NewObject, Headers, Tiled, KindOf, IsMarked, AtRest, SizeOf;
    NewObjectFacts(m', m, chunks, k, size, kind);
    RestingHeader(classOf, m, lo, hi, n);
    if n != chunks[k].start {
      HeaderUntouched(m', m, lo, hi, chunks, first, k, size, kind, n);
    }
  }

  lemma WeakStill(classOf: Cell -> Class, m': seq<Cell>, m: seq<Cell>, lo: nat, hi: nat, chunks: seq<Chunk>,
                  first: Cell,
                  k: nat, size: nat, kind: nat, n: nat, x: nat)
    requires Allocates(m', m, lo, hi, chunks, first, k, size, kind) && AtRest(classOf, m, lo, hi)
    requires Tiled(m', lo, hi) && n in Headers(m', lo, hi) && k < |chunks|
    requires (HasNoPointers(kind) || n != Taken(chunks[k], size))
    requires IsWeakSlot(m', n, x)
    ensures x < |m'| && WeakPointer(m', lo, hi, m'[x])
  {
    hide FreeHeap, NewObject, Headers, Tiled, AtRest, SizeOf, Taken, PointsWell, KindOf;
    AllocationShape(m', m, lo, hi, chunks, first, k, size, kind);
    NewObjectFacts(m', m, chunks, k, size, kind);
    HeaderBounds(m', lo, hi, n);
    assert n in Headers(m, lo, hi);
    HeaderBounds(m, lo, hi, n);
    if KindOf(m[n]) == GCT_FREE {
      FreeStill(classOf, m', m, lo, hi, chunks, first, k, size, kind, n);
    }
    RestingObject(classOf, m, lo, hi, n);
    FirstCellsStill(classOf, m', m, lo, hi, chunks, first, k, size, kind, n);
    AtRestFacts(classOf, m, lo, hi, n, x);
    WeakSlotInObject(classOf, m, n, x);
    ObjectStill(m', m, lo, hi, chunks, first, k, size, kind, n, x);
    if m[x] != NULL {
      PointsWellStill(m', m, lo, hi, chunks, first, k, size, kind, m[x]);
    }
  }

  lemma WeakSlotInObject(classOf: Cell -> Class, m: seq<Cell>, h: nat, x: nat)
    requires Fits(classOf, m, h) && IsWeakSlot(m, h, x)
    ensures h < x < Next(m, h)
  {
    hide KindOf;
  }

  /**
   * An object without pointers can be allocated at any time: the heap and its roots are as ready for a collection as
   * before.
   */
  lemma ReadyAfterAllocation(classOf: Cell -> Class, m': seq<Cell>, m: seq<Cell>, lo: nat, hi: nat, r: Roots,
                             chunks: seq<Chunk>, first: Cell,
                             k: nat, size: nat, kind: nat)
    requires Allocates(m', m, lo, hi, chunks, first, k, size, kind) && Ready(classOf, m, lo, hi, r)
    requires HasNoPointers(kind)
    ensures Ready(classOf, m', lo, hi, r)
  {
    hide Allocates, Headers, Tiled, AtRest, SizeOf, Taken, PointsWell, KindOf, Roots.Distinct, LaidOut, Roots.HasValue,
      HeaderAtRest, IsWeakSlot, WeakPointer;
    AllocationShape(m', m, lo, hi, chunks, first, k, size, kind);
    forall n | n in Headers(m', lo, hi)
      ensures HeaderAtRest(classOf, m', lo, hi, n)
    {
      ObjectAfterAllocation(classOf, m', m, lo, hi, chunks, first, k, size, kind, n);
    }
    forall n, x: nat | n in Headers(m', lo, hi) && IsWeakSlot(m', n, x)
      ensures x < |m'| && WeakPointer(m', lo, hi, m'[x])
    {
      WeakStill(classOf, m', m, lo, hi, chunks, first, k, size, kind, n, x);
    }
    AllAtRest(classOf, m', lo, hi);
    forall v: Cell | r.HasValue(v)
      ensures PointsWell(m', lo, hi, v)
    {
      PointsWellStill(m', m, lo, hi, chunks, first, k, size, kind, v);
    }
  }

  lemma AllAtRest(classOf: Cell -> Class, m: seq<Cell>, lo: nat, hi: nat)
    requires 1 <= lo && Tiled(m, lo, hi) && |m| <= MAX_CELLS && WeakSound(m, lo, hi)
    requires forall h | h in Headers(m, lo, hi) :: HeaderAtRest(classOf, m, lo, hi, h)
    ensures AtRest(classOf, m, lo, hi)
  {
    hide Tiled, Headers, Fits, Sound, KindOf, IsMarked, WeakSound;
  }
}
