/** First-fit allocation from the free list (allocateFreeChunk), and memoryFree. */
module Allocation {
  import opened Cells
  import opened FreeList
  import opened Objects
  import opened HeapShape
  import opened Sweeping
  import opened Outcomes

  /** The cells that a request takes from a chunk that is large enough: one leftover cell is taken as well. */
  function Given(chunk: Chunk, size: nat): nat {
    if chunk.cells > size + HEADERSIZE then size else chunk.cells
  }

  /** Where the allocated cells start: they are taken from the end of the chunk. */
  function Taken(chunk: Chunk, size: nat): int {
    chunk.End() - Given(chunk, size)
  }

  /** The free list after a request has been served from chunk k. */
  ghost function Rest(chunks: seq<Chunk>, k: nat, size: nat): seq<Chunk>
    requires k < |chunks| && size <= chunks[k].cells
  {
    if chunks[k].cells > size + HEADERSIZE then chunks[k := Chunk(chunks[k].start, chunks[k].cells - size)]
    else chunks[..k] + chunks[k + 1..]
  }

  /** The chunks lie apart in address order. */
  ghost predicate Apart(chunks: seq<Chunk>) {
    forall i, j | 0 <= i < j < |chunks| :: chunks[i].End() <= chunks[j].start
  }

  /** Chunk k is the first one with room for the request. */
  ghost predicate FirstFit(chunks: seq<Chunk>, k: nat, size: nat) {
    k < |chunks| && size <= chunks[k].cells && forall i | 0 <= i < k :: chunks[i].cells < size
  }

  /** The memory after a request of `size` cells has been served from chunk k. */
  ghost predicate Allocated(m: seq<Cell>, m0: seq<Cell>, chunks: seq<Chunk>, k: nat, size: nat) {
    && FirstFit(chunks, k, size) && |m| == |m0| && 2 <= Given(chunks[k], size) <= MAX_CELLS
    && 0 <= Taken(chunks[k], size) < |m| && m[Taken(chunks[k], size)] == ChunkHeader(Given(chunks[k], size))
    && forall x {:trigger m[x]} | 0 <= x < |m| && x != Taken(chunks[k], size) && x != chunks[k].start
                                  && !(0 < k && x == chunks[k - 1].start + 1) :: m[x] == m0[x]
  }

  /** Chunk j, its header and its link are in memory. */
  ghost predicate Listed(m: seq<Cell>, hi: nat, chunks: seq<Chunk>, j: nat) {
    && j < |chunks| && 2 <= chunks[j].cells && chunks[j].End() <= hi <= |m| <= MAX_CELLS
    && m[chunks[j].start] == ChunkHeader(chunks[j].cells) && m[chunks[j].start + 1] == Link(chunks, j + 1)
  }

  lemma FreeListed(m: seq<Cell>, hi: nat, chunks: seq<Chunk>, first: Cell, j: nat)
    requires Free(m, hi, chunks, first) && j < |chunks|
    ensures Listed(m, hi, chunks, j) && SizeOf(m[chunks[j].start]) == chunks[j].cells - HEADERSIZE
  {
    hide ChunkHeader, SizeOf;
    assert chunks[j] in chunks;
  }

  lemma FreeFromListed(m: seq<Cell>, hi: nat, chunks: seq<Chunk>, first: Cell)
    requires first == Link(chunks, 0) && forall j | 0 <= j < |chunks| :: Listed(m, hi, chunks, j)
    ensures Free(m, hi, chunks, first)
  {
    hide ChunkHeader, SizeOf;
    forall j | 0 <= j < |chunks|
      ensures chunks[j].End() <= |m| <= MAX_CELLS && 2 <= chunks[j].cells
      ensures SizeOf(m[chunks[j].start]) == chunks[j].cells - HEADERSIZE
      ensures m[chunks[j].start + 1] == Link(chunks, j + 1)
    {
      assert Listed(m, hi, chunks, j);
      ChunkHeaderFacts(chunks[j].cells);
    }
    forall c | c in chunks
      ensures 2 <= c.cells && c.End() <= hi <= |m| <= MAX_CELLS && m[c.start] == ChunkHeader(c.cells)
    {
      var j :| 0 <= j < |chunks| && chunks[j] == c;
      assert Listed(m, hi, chunks, j);
    }
  }

  /** The cells of one chunk belong to no other. */
  lemma ApartAt(chunks: seq<Chunk>, i: nat, j: nat)
    requires Apart(chunks) && i < |chunks| && j < |chunks| && i != j
    ensures chunks[i].End() <= chunks[j].start || chunks[j].End() <= chunks[i].start
  {
  }

  /** The links of the list after a chunk has shrunk. */
  lemma FreeShrunk(m: seq<Cell>, m0: seq<Cell>, hi: nat, chunks: seq<Chunk>, first: Cell, k: nat, size: nat)
    requires Free(m0, hi, chunks, first) && Apart(chunks) && k < |chunks| && size <= chunks[k].cells && 2 <= size
    requires |m| == |m0|
    requires chunks[k].cells > size + HEADERSIZE && chunks[k].End() <= |m| <= MAX_CELLS
    requires m == m0[chunks[k].start := ChunkHeader(chunks[k].cells - size)]
                    [chunks[k].End() - size := ChunkHeader(size)]
    ensures Free(m, hi, Rest(chunks, k, size), first)
  {
    hide ChunkHeader, Free, Apart, SizeOf;
    var rest := Rest(chunks, k, size);
    forall j | 0 <= j < |rest|
      ensures Listed(m, hi, rest, j)
    {
      FreeListed(m0, hi, chunks, first, j);
      if j != k {
        ApartAt(chunks, j, k);
      }
    }
    FreeListed(m0, hi, chunks, first, 0);
    FreeHead(m0, hi, chunks, first);
    FreeFromListed(m, hi, rest, first);
  }

  lemma FreeHead(m: seq<Cell>, hi: nat, chunks: seq<Chunk>, first: Cell)
    requires Free(m, hi, chunks, first)
    ensures first == Link(chunks, 0)
  {
  }

  /** The links of the list after a chunk has been taken out. */
  lemma FreeUnlinked(m: seq<Cell>, m0: seq<Cell>, hi: nat, chunks: seq<Chunk>, first: Cell, newFirst: Cell, k: nat,
                     size: nat)
    requires Free(m0, hi, chunks, first) && Apart(chunks) && k < |chunks| && size <= chunks[k].cells && 2 <= size
    requires |m| == |m0|
    requires chunks[k].cells <= size + HEADERSIZE && 2 <= chunks[k].cells && chunks[k].End() <= |m| <= MAX_CELLS
    requires if k == 0 then newFirst == Link(chunks, 1) && m == m0[chunks[0].start := ChunkHeader(chunks[0].cells)]
             else newFirst == first && chunks[k - 1].start + 1 < |m|
                  && m == m0[chunks[k - 1].start + 1 := Link(chunks,
                      k + 1)][chunks[k].start := ChunkHeader(chunks[k].cells)]
    ensures Free(m, hi, Rest(chunks, k, size), newFirst)
  {
    hide ChunkHeader, Free, Apart, SizeOf;
    var rest := Rest(chunks, k, size);
    FreeHead(m0, hi, chunks, first);
    forall j | 0 <= j < |rest|
      ensures Listed(m, hi, rest, j)
    {
      UnlinkedAt(m, m0, hi, chunks, first, k, size, j);
    }
    FreeFromListed(m, hi, rest, newFirst);
  }

  lemma UnlinkedAt(m: seq<Cell>, m0: seq<Cell>, hi: nat, chunks: seq<Chunk>, first: Cell, k: nat, size: nat, j: nat)
    requires Free(m0, hi, chunks, first) && Apart(chunks) && k < |chunks| && size <= chunks[k].cells && |m| == |m0|
    requires chunks[k].cells <= size + HEADERSIZE && 2 <= chunks[k].cells && chunks[k].End() <= |m| <= MAX_CELLS
    requires if k == 0 then m == m0[chunks[0].start := ChunkHeader(chunks[0].cells)]
             else chunks[k - 1].start + 1 < |m|
                  && m == m0[chunks[k - 1].start + 1 := Link(chunks, k + 1)]
                          [chunks[k].start := ChunkHeader(chunks[k].cells)]
    requires j < |Rest(chunks, k, size)|
    ensures Listed(m, hi, Rest(chunks, k, size), j)
  {
    hide ChunkHeader, Free, Apart, SizeOf, Rest, Link;
    RestLength(chunks, k, size);
    var i := if j < k then j else j + 1;
    FreeListed(m0, hi, chunks, first, i);
    FreeListed(m0, hi, chunks, first, k);
    ApartAt(chunks, i, k);
    if 0 < k {
      FreeListed(m0, hi, chunks, first, k - 1);
      ApartAt(chunks, k - 1, k);
      if i != k - 1 {
        ApartAt(chunks, i, k - 1);
      }
    }
    UnlinkedCells(m, m0, chunks, k, i, Link(chunks, k + 1));
    RestLink(chunks, k, size, j);
  }

  lemma RestLength(chunks: seq<Chunk>, k: nat, size: nat)
    requires k < |chunks| && size <= chunks[k].cells <= size + HEADERSIZE
    ensures |Rest(chunks, k, size)| == |chunks| - 1
  {
  }

  lemma RestLink(chunks: seq<Chunk>, k: nat, size: nat, j: nat)
    requires k < |chunks| && size <= chunks[k].cells <= size + HEADERSIZE && j < |chunks| - 1
    ensures |Rest(chunks, k, size)| == |chunks| - 1 && Rest(chunks, k, size)[j] == chunks[if j < k then j else j + 1]
    ensures Link(Rest(chunks, k, size), j + 1) == Link(chunks, if j + 1 < k then j + 1 else j + 2)
  {
  }

  lemma UnlinkedCells(m: seq<Cell>, m0: seq<Cell>, chunks: seq<Chunk>, k: nat, i: nat, next: Cell)
    requires k < |chunks| && i < |chunks| && i != k && |m| == |m0|
    requires 2 <= chunks[k].cells && chunks[k].End() <= |m| <= MAX_CELLS && 2 <= chunks[i].cells
    requires chunks[i].End() <= |m|
    requires chunks[i].End() <= chunks[k].start || chunks[k].End() <= chunks[i].start
    requires 0 < k && i != k - 1 ==>
               2 <= chunks[k - 1].cells
                 && (chunks[i].End() <= chunks[k - 1].start || chunks[k - 1].End() <= chunks[i].start)
    requires if k == 0 then m == m0[chunks[0].start := ChunkHeader(chunks[0].cells)]
             else chunks[k - 1].start + 1 < |m|
                  && m == m0[chunks[k - 1].start + 1 := next][chunks[k].start := ChunkHeader(chunks[k].cells)]
    ensures m[chunks[i].start] == m0[chunks[i].start]
    ensures m[chunks[i].start + 1] == if i == k - 1 then next else m0[chunks[i].start + 1]
  {
    hide ChunkHeader;
  }

  lemma RestApart(chunks: seq<Chunk>, k: nat, size: nat)
    requires Apart(chunks) && k < |chunks| && size <= chunks[k].cells
    ensures Apart(Rest(chunks, k, size))
  {
  }

  /** The search stands at chunk j: all chunks before it are too small. */
  ghost predicate Searching(m: seq<Cell>, hi: nat, chunks: seq<Chunk>, first: Cell, size: nat, j: nat, thisChunk: Cell,
                            nextChunkPtr: nat) {
    && Free(m, hi, chunks, first) && Apart(chunks) && j <= |chunks| && thisChunk == Link(chunks, j)
    && nextChunkPtr == (if j == 0 then 0 else chunks[j - 1].start + 1)
    && forall i | 0 <= i < j :: chunks[i].cells < size
  }

  lemma SearchStarts(m: seq<Cell>, hi: nat, chunks: seq<Chunk>, first: Cell, size: nat)
    requires Free(m, hi, chunks, first) && Apart(chunks)
    ensures Searching(m, hi, chunks, first, size, 0, first, 0)
  {
  }

  lemma SearchFacts(m: seq<Cell>, hi: nat, chunks: seq<Chunk>, first: Cell, size: nat, j: nat, thisChunk: Cell,
                    nextChunkPtr: nat, lo: nat)
    requires Searching(m, hi, chunks, first, size, j, thisChunk, nextChunkPtr) && 1 <= lo && forall c | c in chunks ::
               lo <= c.start
    ensures thisChunk == NULL ==> forall c | c in chunks :: c.cells < size
    ensures thisChunk != NULL ==>
              && j < |chunks| && thisChunk == CELL * chunks[j].start && 1 <= chunks[j].start
                 && chunks[j].End() <= hi <= |m| <= MAX_CELLS
              && 2 <= chunks[j].cells && SizeOf(m[chunks[j].start]) == chunks[j].cells - HEADERSIZE
                 && m[chunks[j].start + 1] == Link(chunks, j + 1)
    ensures j <= |chunks| && if j == 0 then nextChunkPtr == 0 else 0 < nextChunkPtr == chunks[j - 1].start + 1 < |m|
  {
    hide ChunkHeader, SizeOf;
    if j < |chunks| {
      FreeListed(m, hi, chunks, first, j);
      assert chunks[j] in chunks;
    }
    if 0 < j {
      FreeListed(m, hi, chunks, first, j - 1);
    }
  }

  lemma SearchNext(m: seq<Cell>, hi: nat, chunks: seq<Chunk>, first: Cell, size: nat, j: nat, thisChunk: Cell,
                   nextChunkPtr: nat)
    requires Searching(m, hi, chunks, first, size, j, thisChunk, nextChunkPtr) && j < |chunks| && chunks[j].cells < size
    ensures Searching(m, hi, chunks, first, size, j + 1, Link(chunks, j + 1), chunks[j].start + 1)
  {
    hide Free, Apart;
  }

  /** The heap and its free list: the free chunks, and nothing else, are objects of type GCT_FREE. */
  ghost predicate FreeHeap(m: seq<Cell>, lo: nat, hi: nat, chunks: seq<Chunk>, first: Cell) {
    && 1 <= lo && Tiled(m, lo, hi) && |m| <= MAX_CELLS && Free(m, hi, chunks, first) && Apart(chunks)
    && Starts(chunks) <= Headers(m, lo, hi)
    && forall h | h in Headers(m, lo, hi) && h < |m| && KindOf(m[h]) == GCT_FREE :: h in Starts(chunks)
  }

  lemma FreeHeapFacts(m: seq<Cell>, lo: nat, hi: nat, chunks: seq<Chunk>, first: Cell)
    requires FreeHeap(m, lo, hi, chunks, first)
    ensures 1 <= lo <= hi <= |m| <= MAX_CELLS && Tiled(m, lo, hi) && Free(m, hi, chunks, first) && Apart(chunks)
    ensures forall c | c in chunks :: lo <= c.start && c.start in Headers(m, lo, hi)
  {
    hide Free, Apart;
    forall c | c in chunks
      ensures lo <= c.start && c.start in Headers(m, lo, hi)
    {
      assert c.start in Starts(chunks);
      HeaderBounds(m, lo, hi, c.start);
    }
  }

  /** The dynamic heap: its cells and the address of the first free chunk. */
  class Heap {
    const mem: array<Cell>
    const currentHeap: nat
    const currentHeapEnd: nat
    var firstFreeChunk: Cell
    ghost var chunks: seq<Chunk>

    constructor (mem: array<Cell>, currentHeap: nat, currentHeapEnd: nat, firstFreeChunk: Cell,
                 ghost chunks: seq<Chunk>)
      requires FreeHeap(mem[..], currentHeap, currentHeapEnd, chunks, firstFreeChunk)
      ensures Valid() && this.mem == mem && this.currentHeap == currentHeap && this.currentHeapEnd == currentHeapEnd
      ensures this.firstFreeChunk == firstFreeChunk && this.chunks == chunks
    {
      this.mem, this.currentHeap, this.currentHeapEnd := mem, currentHeap, currentHeapEnd;
      this.firstFreeChunk, this.chunks := firstFreeChunk, chunks;
    }

    ghost predicate Valid()
      reads this, mem
    {
      FreeHeap(mem[..], currentHeap, currentHeapEnd, chunks, firstFreeChunk)
    }

    /** The number of free bytes. */
    method MemoryFree() returns (available: nat)
      requires Valid()
      ensures available == CELL * Dead(chunks, |chunks|)
    {
      hide FreeHeap, Apart, Free, ChunkHeader, SizeOf;
      FreeHeapFacts(mem[..], currentHeap, currentHeapEnd, chunks, firstFreeChunk);
      FreeHead(mem[..], currentHeapEnd, chunks, firstFreeChunk);
      var thisChunk := firstFreeChunk;
      var cells := 0;
      ghost var j := 0;
      while thisChunk != NULL
        invariant 0 <= j <= |chunks| && thisChunk == Link(chunks, j) && cells == Dead(chunks, j)
        decreases |chunks| - j
      {
        FreeListed(mem[..], currentHeapEnd, chunks, firstFreeChunk, j);
        cells := cells + SizeOf(mem[Index(thisChunk)]) + HEADERSIZE;
        thisChunk := mem[Index(thisChunk) + 1];
        j := j + 1;
      }
      NoMoreChunks(mem[..], currentHeap, currentHeapEnd, chunks, firstFreeChunk, j);
      available := cells * CELL;
    }

    /** Takes the request from the chunk that the search has stopped at. */
    method TakeFromChunk(size: nat, thisChunk: nat, nextChunkPtr: nat, ghost k: nat) returns (dataArea: nat)
      requires Valid() && 2 <= size && FirstFit(chunks, k, size) && thisChunk == chunks[k].start
      requires nextChunkPtr == (if k == 0 then 0 else chunks[k - 1].start + 1)
      modifies this, mem
      ensures FirstFit(old(chunks), k, size) && dataArea == Taken(old(chunks)[k], size)
      ensures chunks == Rest(old(chunks), k, size)
      ensures Free(mem[..], currentHeapEnd, chunks, firstFreeChunk) && Apart(chunks)
      ensures Allocated(mem[..], old(mem[..]), old(chunks), k, size)
    {
      hide FreeHeap, Apart, Free, ChunkHeader, SizeOf;
      ghost var m0, before, first := mem[..], chunks, firstFreeChunk;
      FreeHeapFacts(m0, currentHeap, currentHeapEnd, chunks, firstFreeChunk);
      FreeListed(m0, currentHeapEnd, chunks, firstFreeChunk, k);
      RestApart(chunks, k, size);
      var cells := SizeOf(mem[thisChunk]) + HEADERSIZE;
      if cells > size + HEADERSIZE {
        mem[thisChunk] := ChunkHeader(cells - size);
        dataArea := thisChunk + (cells - size);
        mem[dataArea] := ChunkHeader(size);
        FreeShrunk(mem[..], m0, currentHeapEnd, before, first, k, size);
      } else {
        var next := mem[thisChunk + 1];
        if nextChunkPtr == 0 {
          firstFreeChunk := next;
        } else {
          FreeListed(m0, currentHeapEnd, chunks, firstFreeChunk, k - 1);
          mem[nextChunkPtr] := next;
        }
        dataArea := thisChunk;
        mem[dataArea] := ChunkHeader(cells);
        FreeUnlinked(mem[..], m0, currentHeapEnd, before, first, firstFreeChunk, k, size);
      }
      chunks := Rest(before, k, size);
    }

    /**
     * First fit.  The result is the first cell of the allocated object, or 0 when no chunk is large enough; a leftover
     * of one cell is given away with the object.
     */
    method AllocateFreeChunk(size: nat) returns (dataArea: nat, ghost k: nat)
      requires Valid() && 2 <= size
      modifies this, mem
      ensures dataArea == 0 ==>
                chunks == old(chunks) && mem[..] == old(mem[..]) && firstFreeChunk == old(firstFreeChunk)
                  && forall c | c in chunks :: c.cells < size
      ensures dataArea != 0 ==>
                && FirstFit(old(chunks), k, size) && dataArea == Taken(old(chunks)[k], size)
                   && chunks == Rest(old(chunks), k, size)
                && Free(mem[..], currentHeapEnd, chunks, firstFreeChunk) && Apart(chunks)
                && Allocated(mem[..], old(mem[..]), old(chunks), k, size)
    {
      hide FreeHeap, Apart, Free, ChunkHeader, SizeOf, Searching, Allocated;
      FreeHeapFacts(mem[..], currentHeap, currentHeapEnd, chunks, firstFreeChunk);
      SearchStarts(mem[..], currentHeapEnd, chunks, firstFreeChunk, size);
      var thisChunk, nextChunkPtr := firstFreeChunk, 0;
      dataArea, k := 0, 0;
      while thisChunk != NULL
        invariant Searching(mem[..], currentHeapEnd, chunks, firstFreeChunk, size, k, thisChunk, nextChunkPtr)
        invariant k <= |chunks|
        invariant chunks == old(chunks) && mem[..] == old(mem[..]) && firstFreeChunk == old(firstFreeChunk)
        decreases |chunks| - k
      {
        SearchFacts(mem[..], currentHeapEnd, chunks, firstFreeChunk, size, k, thisChunk, nextChunkPtr, currentHeap);
        var index := Index(thisChunk);
        if size <= SizeOf(mem[index]) + HEADERSIZE {
          break;
        }
        SearchNext(mem[..], currentHeapEnd, chunks, firstFreeChunk, size, k, thisChunk, nextChunkPtr);
        nextChunkPtr := index + 1;
        thisChunk := mem[index + 1];
        k := k + 1;
      }
      SearchFacts(mem[..], currentHeapEnd, chunks, firstFreeChunk, size, k, thisChunk, nextChunkPtr, currentHeap);
      if thisChunk != NULL {
        SearchFirst(mem[..], currentHeapEnd, chunks, firstFreeChunk, size, k, thisChunk, nextChunkPtr);
        dataArea := TakeFromChunk(size, Index(thisChunk), nextChunkPtr, k);
      }
    }
  }

  lemma NoMoreChunks(m: seq<Cell>, lo: nat, hi: nat, chunks: seq<Chunk>, first: Cell, j: nat)
    requires FreeHeap(m, lo, hi, chunks, first) && j <= |chunks| && Link(chunks, j) == NULL
    ensures j == |chunks|
  {
    if j < |chunks| {
      LinkIsSet(m, lo, hi, chunks, first, j);
    }
  }

  lemma LinkIsSet(m: seq<Cell>, lo: nat, hi: nat, chunks: seq<Chunk>, first: Cell, j: nat)
    requires FreeHeap(m, lo, hi, chunks, first) && j < |chunks|
    ensures Link(chunks, j) != NULL && 1 <= chunks[j].start
  {
    hide FreeHeap, Apart, Free;
    FreeHeapFacts(m, lo, hi, chunks, first);
    assert chunks[j] in chunks;
  }

  lemma SearchFirst(m: seq<Cell>, hi: nat, chunks: seq<Chunk>, first: Cell, size: nat, j: nat, thisChunk: Cell,
                    nextChunkPtr: nat)
    requires Searching(m, hi, chunks, first, size, j, thisChunk, nextChunkPtr) && j < |chunks|
    requires size <= chunks[j].cells
    ensures FirstFit(chunks, j, size) && nextChunkPtr == (if j == 0 then 0 else chunks[j - 1].start + 1)
  {
    hide Free, Apart;
  }
}
