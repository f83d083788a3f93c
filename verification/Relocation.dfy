/** updatePointer: where an address points after compaction, by binary search in the break table. */
module Relocation {
  import opened Cells
  import opened FreeList
  import opened HeapShape
  import opened BreakTable
  import opened BreakTableSort
  import opened Compaction
  import opened Sweeping

  /** The live group, among the first n + 1, that the address v lies in if it lies in any. */
  ghost function GroupOf(lo: nat, chunks: seq<Chunk>, v: Cell, n: nat): (k: nat)
    requires n <= |chunks|
    ensures k <= n
  {
    if n == 0 || CELL * GroupStart(lo, chunks, n) <= v then n else GroupOf(lo, chunks, v, n - 1)
  }

  lemma {:induction false} GroupOfIs(lo: nat, hi: nat, chunks: seq<Chunk>, v: Cell, n: nat, k: nat)
    requires Swept(lo, hi, chunks) && k <= n <= |chunks|
    requires k == 0 || CELL * GroupStart(lo, chunks, k) <= v
    requires k == n || v < CELL * GroupStart(lo, chunks, k + 1)
    ensures GroupOf(lo, chunks, v, n) == k
  {
    if k < n {
      if k + 1 < n {
        GroupsAscend(lo, hi, chunks, k + 1, n);
      }
      GroupOfIs(lo, hi, chunks, v, n - 1, k);
    }
  }

  /** The break table of a compaction: where it lies, and the free chunks that it has closed. */
  datatype Table = Table(lo: nat, hi: nat, ghost chunks: seq<Chunk>, location: nat, length: nat)

  ghost predicate TableIn(m: seq<Cell>, t: Table) {
    && 1 <= t.lo && Swept(t.lo, t.hi, t.chunks) && t.length == Moved(t.hi, t.chunks)
    && Holds(m, t.location, CellsOf(Breaks(t.lo, t.hi, t.chunks, t.length)))
  }

  /** The bytes that the group of the address v has moved. */
  ghost function Offset(t: Table, v: Cell): (offset: nat)
    requires Swept(t.lo, t.hi, t.chunks)
  {
    CELL * Dead(t.chunks, GroupOf(t.lo, t.chunks, v, Moved(t.hi, t.chunks)))
  }

  lemma OffsetBound(t: Table, v: Cell)
    requires Swept(t.lo, t.hi, t.chunks) && CELL * t.lo <= v
    ensures Offset(t, v) <= v
  {
    var k := GroupOf(t.lo, t.chunks, v, Moved(t.hi, t.chunks));
    GroupOfStarts(t.lo, t.chunks, v, Moved(t.hi, t.chunks));
    DeadBounds(t.lo, t.hi, t.chunks, k);
  }

  lemma {:induction false} GroupOfStarts(lo: nat, chunks: seq<Chunk>, v: Cell, n: nat)
    requires n <= |chunks| && CELL * lo <= v
    ensures CELL * GroupStart(lo, chunks, GroupOf(lo, chunks, v, n)) <= v
  {
    if n > 0 && v < CELL * GroupStart(lo, chunks, n) {
      GroupOfStarts(lo, chunks, v, n - 1);
    }
  }

  /** Where the address v points after compaction. */
  ghost function Relocated(t: Table, v: Cell): Cell
    requires Swept(t.lo, t.hi, t.chunks)
  {
    OffsetFits(t, v);
    if InHeap(t.lo, t.hi, v) then v - Offset(t, v) else v
  }

  lemma OffsetFits(t: Table, v: Cell)
    requires Swept(t.lo, t.hi, t.chunks)
    ensures InHeap(t.lo, t.hi, v) ==> Offset(t, v) <= v
  {
    if InHeap(t.lo, t.hi, v) {
      OffsetBound(t, v);
    }
  }

  /** Entry i of the table says where group i + 1 was and how far it moved. */
  lemma TableAt(m: seq<Cell>, t: Table, i: nat)
    requires TableIn(m, t) && i < t.length
    ensures t.length <= |t.chunks| && t.location + 2 * t.length <= |m|
    ensures m[t.location + 2 * i] == CELL * GroupStart(t.lo, t.chunks, i + 1)
    ensures m[t.location + 2 * i + 1] == CELL * Dead(t.chunks, i + 1)
  {
    hide Holds, CellsOf;
    EntryAt(m, t.location, Breaks(t.lo, t.hi, t.chunks, t.length), i);
    BreaksAt(t.lo, t.hi, t.chunks, t.length, i);
  }

  lemma TableShape(m: seq<Cell>, t: Table)
    requires TableIn(m, t)
    ensures 1 <= t.lo && Swept(t.lo, t.hi, t.chunks) && t.length == Moved(t.hi, t.chunks) <= |t.chunks|
  {
  }

  /** Group `low` + 1 is the one that the address lies in. */
  lemma Found(m: seq<Cell>, t: Table, value: Cell, low: int)
    requires TableIn(m, t) && InHeap(t.lo, t.hi, value) && -1 <= low < t.length <= |t.chunks|
    requires low == -1 || CELL * GroupStart(t.lo, t.chunks, low + 1) <= value
    requires low == t.length - 1 || value < CELL * GroupStart(t.lo, t.chunks, low + 2)
    ensures Swept(t.lo, t.hi, t.chunks)
    ensures low < 0 ==> Relocated(t, value) == value
    ensures 0 <= low ==> Relocated(t, value) == value - CELL * Dead(t.chunks, low + 1)
  {
    hide Holds, CellsOf, Breaks;
    GroupOfIs(t.lo, t.hi, t.chunks, value, t.length, low + 1);
  }

  /** Looks an address up in the table. */
  method UpdatePointer(mem: array<Cell>, t: Table, value: Cell) returns (result: Cell)
    requires TableIn(mem[..], t)
    ensures Swept(t.lo, t.hi, t.chunks) && result == Relocated(t, value)
  {
    hide TableIn, Swept, Moved, GroupStart, Dead, Offset;
    TableShape(mem[..], t);
    if value == NULL || value < CELL * t.lo || value >= CELL * t.hi {
      return value;
    }
    var low, high := -1, t.length - 1;
    while low < high
      invariant -1 <= low <= high < t.length
      invariant low == -1 || CELL * GroupStart(t.lo, t.chunks, low + 1) <= value
      invariant high == t.length - 1 || value < CELL * GroupStart(t.lo, t.chunks, high + 2)
      decreases high - low
    {
      var middle := (low + high + 1) / 2;
      TableAt(mem[..], t, middle);
      if value >= mem[t.location + 2 * middle] {
        low := middle;
      } else {
        high := middle - 1;
      }
    }
    Found(mem[..], t, value, low);
    result := value;
    if low >= 0 {
      TableAt(mem[..], t, low);
      result := value - mem[t.location + 2 * low + 1];
    }
  }

  /**
   * Every address inside a marked object, its header and interior addresses included, moves down by the dead cells
   * below it.
   */
  lemma RelocatedInside(t: Table, m: seq<Cell>, marked: set<nat>, h: nat, v: Cell)
    requires 1 <= t.lo && Tiled(m, t.lo, t.hi) && t.hi <= |m| <= MAX_CELLS
    requires t.chunks == DeadRuns(m, t.lo, t.hi, marked)
    requires h in Headers(m, t.lo, t.hi) && h in marked && h < |m| && CELL * h <= v < CELL * Next(m, h)
    ensures Swept(t.lo, t.hi, t.chunks) && Tiled(m, t.lo, h)
    ensures Relocated(t, v) == v - CELL * DeadCells(m, t.lo, h, marked)
  {
    DeadRunsAreSwept(m, t.lo, t.hi, marked);
    HeaderBounds(m, t.lo, t.hi, h);
    var k := LiveGroup(m, t.lo, t.hi, marked, h);
    hide Tiled, Headers, DeadRuns, DeadCells, Next;
    var n := Moved(t.hi, t.chunks);
    if k < |t.chunks| {
      DeadBounds(t.lo, t.hi, t.chunks, k + 1);
    }
    GroupOfIs(t.lo, t.hi, t.chunks, v, n, k);
  }
}
