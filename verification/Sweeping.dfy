/** sweepTheHeap: clears the marks of the live objects and links the space between them into the free list. */
module Sweeping {
  import opened Cells
  import opened FreeList
  import opened Objects
  import opened HeapShape

  /** The first object at or behind p that is not marked. */
  ghost function SkipLive(m: seq<Cell>, p: nat, hi: nat, marked: set<nat>): (q: nat)
    requires Tiled(m, p, hi)
    ensures p <= q <= hi && Tiled(m, q, hi) && (q == hi || q !in marked) && (p < q ==> p + 2 <= q)
    decreases hi - p
  {
    if p < hi && p in marked then SkipLive(m, Next(m, p), hi, marked) else p
  }

  /** The first object at or behind p that is marked. */
  ghost function SkipDead(m: seq<Cell>, p: nat, hi: nat, marked: set<nat>): (q: nat)
    requires Tiled(m, p, hi)
    ensures p <= q <= hi && Tiled(m, q, hi) && (q == hi || q in marked) && (p < q ==> p + 2 <= q)
    ensures p < hi && p !in marked ==> p < q
    decreases hi - p
  {
    if p < hi && p !in marked then SkipDead(m, Next(m, p), hi, marked) else p
  }

  /** The maximal runs of unmarked objects in [p, hi). */
  ghost function DeadRuns(m: seq<Cell>, p: nat, hi: nat, marked: set<nat>): seq<Chunk>
    requires Tiled(m, p, hi)
    decreases hi - p
  {
    var q := SkipLive(m, p, hi, marked);
    if q == hi then []
    else
      var r := SkipDead(m, q, hi, marked);
      [Chunk(q, r - q)] + DeadRuns(m, r, hi, marked)
  }

  /** The cells of the unmarked objects between p and the object boundary x. */
  ghost function DeadCells(m: seq<Cell>, p: nat, x: nat, marked: set<nat>): nat
    requires Tiled(m, p, x)
    decreases x - p
  {
    if p == x then 0
    else (if p in marked then 0 else Next(m, p) - p) + DeadCells(m, Next(m, p), x, marked)
  }

  /** The runs are chunks as the compacting collector and the allocator expect them. */
  lemma {:induction false} DeadRunsAreSwept(m: seq<Cell>, p: nat, hi: nat, marked: set<nat>)
    requires Tiled(m, p, hi) && hi <= MAX_CELLS
    ensures Swept(p, hi, DeadRuns(m, p, hi, marked))
    ensures p < hi && p in marked && DeadRuns(m, p, hi, marked) != [] ==> p + 2 <= DeadRuns(m, p, hi, marked)[0].start
    decreases hi - p
  {
    hide Swept, SkipDead;
    var q := SkipLive(m, p, hi, marked);
    if q < hi {
      var r := SkipDead(m, q, hi, marked);
      var rest := DeadRuns(m, r, hi, marked);
      NoRuns(m, p, hi, marked);
      DeadRunsAreSwept(m, r, hi, marked);
      assert r == hi || r + 2 <= hi;
      assert r == hi ==> rest == [];
      SweptCons(p, hi, Chunk(q, r - q), rest);
      assert DeadRuns(m, p, hi, marked) == [Chunk(q, r - q)] + rest;
    } else {
      SweptEmpty(p, hi);
      assert DeadRuns(m, p, hi, marked) == [];
    }
  }

  lemma SweptEmpty(lo: nat, hi: nat)
    requires lo <= hi <= MAX_CELLS
    ensures Swept(lo, hi, [])
  {
  }

  /** A chunk in front of swept space, with at least one live object between. */
  lemma SweptCons(lo: nat, hi: nat, chunk: Chunk, rest: seq<Chunk>)
    requires lo <= chunk.start && 2 <= chunk.cells && Swept(chunk.End(), hi, rest)
    requires rest != [] ==> chunk.End() + 2 <= rest[0].start
    requires rest == [] ==> chunk.End() == hi || chunk.End() + 2 <= hi
    ensures Swept(lo, hi, [chunk] + rest)
  {
    var all := [chunk] + rest;
    forall k | 0 <= k < |all|
      ensures lo <= all[k].start && 2 <= all[k].cells && all[k].End() <= hi
    {
      if k > 0 {
        assert all[k] == rest[k - 1];
      }
    }
    forall k | 0 <= k < |all| - 1
      ensures all[k].End() + 2 <= GroupEnd(hi, all, k + 1)
    {
      assert all[k + 1] == rest[k];
      if k > 0 {
        assert all[k] == rest[k - 1];
        assert rest[k - 1].End() + 2 <= GroupEnd(hi, rest, k);
      }
    }
    if rest != [] {
      assert all[|all| - 1] == rest[|rest| - 1];
    }
  }

  lemma {:induction false} DeadCons(chunk: Chunk, rest: seq<Chunk>, k: nat)
    requires k <= |rest|
    ensures Dead([chunk] + rest, k + 1) == chunk.cells + Dead(rest, k)
  {
    if k > 0 {
      DeadCons(chunk, rest, k - 1);
      assert ([chunk] + rest)[k] == rest[k - 1];
    }
  }

  /** Dead cells add up. */
  lemma {:induction false} DeadCellsSplit(m: seq<Cell>, p: nat, q: nat, x: nat, marked: set<nat>)
    requires Tiled(m, p, q) && Tiled(m, q, x)
    ensures Tiled(m, p, x) && DeadCells(m, p, x, marked) == DeadCells(m, p, q, marked) + DeadCells(m, q, x, marked)
    decreases q - p
  {
    if p < q {
      DeadCellsSplit(m, Next(m, p), q, x, marked);
    }
  }

  /** A header splits the row of objects. */
  lemma {:induction false} TiledUpTo(m: seq<Cell>, p: nat, hi: nat, h: nat)
    requires Tiled(m, p, hi) && h in Headers(m, p, hi)
    ensures Tiled(m, p, h) && Tiled(m, h, hi) && h < hi
    decreases hi - p
  {
    if h != p {
      HeaderBounds(m, Next(m, p), hi, h);
      TiledUpTo(m, Next(m, p), hi, h);
    }
  }

  /** Nothing is dead where only live objects are skipped. */
  lemma {:induction false} SkipLiveRun(m: seq<Cell>, p: nat, hi: nat, marked: set<nat>)
    requires Tiled(m, p, hi)
    ensures Tiled(m, p, SkipLive(m, p, hi, marked)) && DeadCells(m, p, SkipLive(m, p, hi, marked), marked) == 0
    decreases hi - p
  {
    if p < hi && p in marked {
      SkipLiveRun(m, Next(m, p), hi, marked);
    }
  }

  /** Everything is dead where dead objects are skipped. */
  lemma {:induction false} SkipDeadRun(m: seq<Cell>, p: nat, hi: nat, marked: set<nat>)
    requires Tiled(m, p, hi)
    ensures Tiled(m, p, SkipDead(m, p, hi, marked))
    ensures DeadCells(m, p, SkipDead(m, p, hi, marked), marked) == SkipDead(m, p, hi, marked) - p
    decreases hi - p
  {
    if p < hi && p !in marked {
      SkipDeadRun(m, Next(m, p), hi, marked);
    }
  }

  /** A marked object lies in front of the first dead one or behind the run that starts with it. */
  lemma {:induction false} LiveIsSkipped(m: seq<Cell>, p: nat, hi: nat, marked: set<nat>, h: nat)
    requires Tiled(m, p, hi) && h in Headers(m, p, hi) && h < |m|
    ensures h in marked && h < SkipLive(m, p, hi, marked) ==>
              Tiled(m, p, h) && Next(m, h) <= SkipLive(m, p, hi, marked) && DeadCells(m, p, h, marked) == 0
    ensures h !in marked ==> SkipLive(m, p, hi, marked) <= h
    ensures SkipLive(m, p, hi, marked) <= h ==> h in Headers(m, SkipLive(m, p, hi, marked), hi)
    decreases hi - p
  {
    HeaderBounds(m, p, hi, h);
    if p < hi && p in marked {
      if h == p {
      } else {
        HeaderBounds(m, Next(m, p), hi, h);
        LiveIsSkipped(m, Next(m, p), hi, marked, h);
      }
    }
  }

  lemma {:induction false} DeadIsSkipped(m: seq<Cell>, p: nat, hi: nat, marked: set<nat>, h: nat)
    requires Tiled(m, p, hi) && h in Headers(m, p, hi) && h < |m|
    ensures h !in marked && h < SkipDead(m, p, hi, marked) ==> p <= h && Next(m, h) <= SkipDead(m, p, hi, marked)
    ensures h in marked ==> SkipDead(m, p, hi, marked) <= h
    ensures SkipDead(m, p, hi, marked) <= h ==> h in Headers(m, SkipDead(m, p, hi, marked), hi)
    decreases hi - p
  {
    HeaderBounds(m, p, hi, h);
    if p < hi && p !in marked {
      if h == p {
      } else {
        HeaderBounds(m, Next(m, p), hi, h);
        DeadIsSkipped(m, Next(m, p), hi, marked, h);
      }
    }
  }

  /** The live group of a marked object; the dead cells below the group are those below the object. */
  lemma {:induction false} LiveGroup(m: seq<Cell>, p: nat, hi: nat, marked: set<nat>, h: nat) returns (k: nat)
    requires Tiled(m, p, hi) && h in Headers(m, p, hi) && h in marked
    ensures h < |m| && Tiled(m, p, h)
    ensures k <= |DeadRuns(m, p, hi, marked)|
    ensures GroupStart(p, DeadRuns(m, p, hi, marked), k) <= h
    ensures Next(m, h) <= GroupEnd(hi, DeadRuns(m, p, hi, marked), k)
    ensures Dead(DeadRuns(m, p, hi, marked), k) == DeadCells(m, p, h, marked)
    decreases hi - p
  {
    HeaderBounds(m, p, hi, h);
    TiledUpTo(m, p, hi, h);
    LiveIsSkipped(m, p, hi, marked, h);
    var q := SkipLive(m, p, hi, marked);
    if h < q {
      k := 0;
    } else {
      var r := SkipDead(m, q, hi, marked);
      var rest := DeadRuns(m, r, hi, marked);
      DeadIsSkipped(m, q, hi, marked, h);
      k := LiveGroup(m, r, hi, marked, h);
      DeadCons(Chunk(q, r - q), rest, k);
      assert ([Chunk(q, r - q)] + rest)[1..] == rest;
      SkipLiveRun(m, p, hi, marked);
      SkipDeadRun(m, q, hi, marked);
      DeadCellsSplit(m, q, r, h, marked);
      DeadCellsSplit(m, p, q, h, marked);
      k := k + 1;
    }
  }

  /** An unmarked object lies inside one of the chunks. */
  lemma {:induction false} DeadChunk(m: seq<Cell>, p: nat, hi: nat, marked: set<nat>, h: nat) returns (k: nat)
    requires Tiled(m, p, hi) && h in Headers(m, p, hi) && h !in marked
    ensures h < |m| && k < |DeadRuns(m, p, hi, marked)|
    ensures DeadRuns(m, p, hi, marked)[k].start <= h && Next(m, h) <= DeadRuns(m, p, hi, marked)[k].End()
    decreases hi - p
  {
    HeaderBounds(m, p, hi, h);
    LiveIsSkipped(m, p, hi, marked, h);
    var q := SkipLive(m, p, hi, marked);
    var r := SkipDead(m, q, hi, marked);
    DeadIsSkipped(m, q, hi, marked, h);
    if h < r {
      k := 0;
    } else {
      k := DeadChunk(m, r, hi, marked, h);
      assert ([Chunk(q, r - q)] + DeadRuns(m, r, hi, marked))[1..] == DeadRuns(m, r, hi, marked);
      k := k + 1;
    }
  }

  /** The chunks hold all the dead cells. */
  lemma {:induction false} DeadTotal(m: seq<Cell>, p: nat, hi: nat, marked: set<nat>)
    requires Tiled(m, p, hi)
    ensures Dead(DeadRuns(m, p, hi, marked), |DeadRuns(m, p, hi, marked)|) == DeadCells(m, p, hi, marked)
    decreases hi - p
  {
    var q := SkipLive(m, p, hi, marked);
    SkipLiveRun(m, p, hi, marked);
    if q < hi {
      var r := SkipDead(m, q, hi, marked);
      var rest := DeadRuns(m, r, hi, marked);
      DeadTotal(m, r, hi, marked);
      DeadCons(Chunk(q, r - q), rest, |rest|);
      SkipDeadRun(m, q, hi, marked);
      DeadCellsSplit(m, q, r, hi, marked);
      DeadCellsSplit(m, p, q, hi, marked);
    }
  }

  /** Cell k lies inside a marked object, behind its header. */
  ghost predicate InLiveBody(m: seq<Cell>, lo: nat, hi: nat, marked: set<nat>, k: nat)
    requires Tiled(m, lo, hi)
  {
    exists h | h in Headers(m, lo, hi) && h in marked && h < |m| :: h < k < Next(m, h)
  }

  /**
   * The heap in the middle of sweeping: marked objects below the scanner have lost their mark, nothing else about them
   * changes.
   */
  ghost predicate LiveKept(mem: seq<Cell>, m: seq<Cell>, lo: nat, hi: nat, marked: set<nat>, scanner: nat)
    requires Tiled(m, lo, hi)
  {
    && |mem| == |m| && lo <= scanner <= hi
    && (forall k {:trigger mem[k]} | 0 <= k < |m| && k in Headers(m, lo, hi) && k in marked ::
          mem[k] == if k < scanner then WithoutMark(m[k]) else m[k])
    && (forall k {:trigger mem[k]} | 0 <= k < |m| && InLiveBody(m, lo, hi, marked, k) :: mem[k] == m[k])
    && (forall k {:trigger mem[k]} | 0 <= k < lo :: mem[k] == m[k])
    && (forall k {:trigger mem[k]} | scanner <= k < |m| :: mem[k] == m[k])
  }

  /** The cells of a dead object belong to no live one. */
  lemma DeadIsNotLive(m: seq<Cell>, lo: nat, hi: nat, marked: set<nat>, h: nat, k: nat)
    requires Tiled(m, lo, hi) && h in Headers(m, lo, hi) && h !in marked && h < |m| && h <= k < Next(m, h)
    ensures !InLiveBody(m, lo, hi, marked, k) && !(k in Headers(m, lo, hi) && k in marked) && lo <= k < hi
  {
    HeaderBounds(m, lo, hi, h);
    if h < k {
      InsideIsNoHeader(m, lo, hi, h, k);
    }
    if InLiveBody(m, lo, hi, marked, k) {
      var g :| g in Headers(m, lo, hi) && g in marked && g < |m| && g < k < Next(m, g);
      if g < h {
        HeadersApart(m, lo, hi, g, h);
      } else {
        HeadersApart(m, lo, hi, h, g);
      }
    }
  }

  /** Clears the marks of a group of live objects. */
  method SkipLiveGroup(mem: array<Cell>, from: nat, currentHeapEnd: nat, ghost m: seq<Cell>, ghost lo: nat,
                       ghost marked: set<nat>)
    returns (scanner: nat)
    requires Tiled(m, lo, currentHeapEnd) && Tiled(m, from, currentHeapEnd) && currentHeapEnd <= mem.Length
    requires from == currentHeapEnd || from in Headers(m, lo, currentHeapEnd)
    requires forall h | h in Headers(m, lo, currentHeapEnd) :: h < |m| && (IsMarked(m[h]) <==> h in marked)
    requires LiveKept(mem[..], m, lo, currentHeapEnd, marked, from)
    modifies mem
    ensures scanner == SkipLive(m, from, currentHeapEnd, marked)
    ensures scanner == currentHeapEnd || scanner in Headers(m, lo, currentHeapEnd)
    ensures LiveKept(mem[..], m, lo, currentHeapEnd, marked, scanner)
    ensures forall k {:trigger mem[k]} | 0 <= k < mem.Length
            && !(k in Headers(m, lo, currentHeapEnd) && k in marked) :: mem[k] == old(mem[k])
  {
    scanner := from;
    while scanner < currentHeapEnd && IsMarked(mem[scanner])
      invariant Tiled(m, scanner, currentHeapEnd)
      invariant (scanner == currentHeapEnd || scanner in Headers(m, lo, currentHeapEnd))
      invariant SkipLive(m, scanner, currentHeapEnd, marked) == SkipLive(m, from, currentHeapEnd, marked)
      invariant LiveKept(mem[..], m, lo, currentHeapEnd, marked, scanner)
      invariant forall k {:trigger mem[k]} | 0 <= k < mem.Length
                && !(k in Headers(m, lo, currentHeapEnd) && k in marked)
                  :: mem[k] == old(mem[k])
      decreases currentHeapEnd - scanner
    {
      ghost var m1 := mem[..];
      NextHeader(m, lo, currentHeapEnd, scanner);
      MarkKeepsSizeAndKind(m[scanner]);
      LiveScanned(m1, m, lo, currentHeapEnd, marked, scanner);
      hide LiveKept, Headers, WithoutMark, IsMarked, SizeOf;
      mem[scanner] := WithoutMark(mem[scanner]);
      scanner := scanner + SizeOf(mem[scanner]) + HEADERSIZE;
    }
  }

  lemma LiveScanned(mem: seq<Cell>, m: seq<Cell>, lo: nat, hi: nat, marked: set<nat>, scanner: nat)
    requires Tiled(m, lo, hi) && scanner in Headers(m, lo, hi) && scanner in marked && scanner < |m|
    requires LiveKept(mem, m, lo, hi, marked, scanner)
    ensures scanner < |mem| == |m| && mem[scanner] == m[scanner]
    ensures LiveKept(mem[scanner := WithoutMark(m[scanner])], m, lo, hi, marked, Next(m, scanner))
  {
    HeaderBounds(m, lo, hi, scanner);
    var mem' := mem[scanner := WithoutMark(m[scanner])];
    forall k | k in Headers(m, lo, hi) && k in marked && k < |m|
      ensures mem'[k] == if k < Next(m, scanner) then WithoutMark(m[k]) else m[k]
    {
      if scanner < k {
        HeadersApart(m, lo, hi, scanner, k);
      }
    }
    forall k: nat | InLiveBody(m, lo, hi, marked, k) && k < |m|
      ensures mem'[k] == m[k]
    {
      var g :| g in Headers(m, lo, hi) && g in marked && g < |m| && g < k < Next(m, g);
      InsideIsNoHeader(m, lo, hi, g, k);
    }
  }

  /** Passes over a group of dead objects. */
  method SkipDeadGroup(mem: array<Cell>, from: nat, currentHeapEnd: nat, ghost m: seq<Cell>, ghost lo: nat,
                       ghost marked: set<nat>)
    returns (scanner: nat)
    requires Tiled(m, lo, currentHeapEnd) && Tiled(m, from, currentHeapEnd) && currentHeapEnd <= mem.Length
    requires from == currentHeapEnd || from in Headers(m, lo, currentHeapEnd)
    requires forall h | h in Headers(m, lo, currentHeapEnd) :: h < |m| && (IsMarked(m[h]) <==> h in marked)
    requires LiveKept(mem[..], m, lo, currentHeapEnd, marked, from)
    ensures scanner == SkipDead(m, from, currentHeapEnd, marked)
    ensures scanner == currentHeapEnd || scanner in Headers(m, lo, currentHeapEnd)
  {
    scanner := from;
    while scanner < currentHeapEnd && !IsMarked(mem[scanner])
      invariant Tiled(m, scanner, currentHeapEnd)
      invariant (scanner == currentHeapEnd || scanner in Headers(m, lo, currentHeapEnd))
      invariant from <= scanner
      invariant SkipDead(m, scanner, currentHeapEnd, marked) == SkipDead(m, from, currentHeapEnd, marked)
      decreases currentHeapEnd - scanner
    {
      NextHeader(m, lo, currentHeapEnd, scanner);
      scanner := scanner + SizeOf(mem[scanner]) + HEADERSIZE;
    }
  }

  /** The header of a free chunk of the given length. */
  function ChunkHeader(cells: nat): Cell
    requires 2 <= cells <= MAX_CELLS
  {
    (cells - HEADERSIZE) * TYPEBITS
  }

  lemma ChunkHeaderFacts(cells: nat)
    requires 2 <= cells <= MAX_CELLS
    ensures SizeOf(ChunkHeader(cells)) == cells - HEADERSIZE
    ensures KindOf(ChunkHeader(cells)) == GCT_FREE && !IsMarked(ChunkHeader(cells))
  {
    assert ChunkHeader(cells) == 4 * ((cells - HEADERSIZE) * 64);
    assert ChunkHeader(cells) == 2 * ((cells - HEADERSIZE) * 128);
  }

  /** The chunk headers are written, and the chunks lie apart in address order. */
  ghost predicate Placed(mem: seq<Cell>, chunks: seq<Chunk>) {
    && (forall j | 0 <= j < |chunks| :: 2 <= chunks[j].cells && chunks[j].End() <= |mem| <= MAX_CELLS
                                        && mem[chunks[j].start] == ChunkHeader(chunks[j].cells))
    && (forall i, j | 0 <= i < j < |chunks| :: chunks[i].End() <= chunks[j].start)
  }

  /** Every link but the last is written; that one is still to be written, at `nextChunkPtr` (0: the list head). */
  ghost predicate Threaded(mem: seq<Cell>, chunks: seq<Chunk>, first: Cell, nextChunkPtr: nat) {
    && (forall j | 0 <= j < |chunks| - 1 ::
          chunks[j].start + 1 < |mem| && mem[chunks[j].start + 1] == Link(chunks, j + 1))
    && (if chunks == [] then nextChunkPtr == 0
        else first == Link(chunks, 0) && nextChunkPtr == chunks[|chunks| - 1].start + 1)
  }

  /** The chunks collected so far. */
  ghost predicate ListedSoFar(mem: seq<Cell>, chunks: seq<Chunk>, first: Cell, nextChunkPtr: nat) {
    Placed(mem, chunks) && Threaded(mem, chunks, first, nextChunkPtr)
  }

  lemma PlacedMore(mem: seq<Cell>, mem1: seq<Cell>, chunks: seq<Chunk>, nextChunkPtr: nat, chunk: Chunk)
    requires Placed(mem1, chunks) && |mem| == |mem1|
    requires 2 <= chunk.cells && chunk.End() <= |mem| <= MAX_CELLS
    requires forall j | 0 <= j < |chunks| :: chunks[j].End() <= chunk.start
    requires chunks != [] ==> nextChunkPtr == chunks[|chunks| - 1].start + 1
    requires forall k {:trigger mem[k]} | 0 <= k < |mem| && k != chunk.start && (k != nextChunkPtr || chunks == []) ::
               mem[k] == mem1[k]
    requires mem[chunk.start] == ChunkHeader(chunk.cells)
    ensures Placed(mem, chunks + [chunk])
  {
    hide ChunkHeader;
    forall j | 0 <= j < |chunks|
      ensures mem[chunks[j].start] == mem1[chunks[j].start]
    {
      assert j < |chunks| - 1 ==> chunks[j].End() <= chunks[|chunks| - 1].start;
    }
  }

  lemma ThreadedMore(mem: seq<Cell>, mem1: seq<Cell>, chunks: seq<Chunk>, first: Cell, newFirst: Cell,
                     nextChunkPtr: nat, chunk: Chunk)
    requires Threaded(mem1, chunks, first, nextChunkPtr) && |mem| == |mem1|
    requires forall j | 0 <= j < |chunks| :: chunks[j].start + 2 <= chunk.start
    requires forall j | 0 <= j < |chunks| - 1 :: chunks[j].start + 2 <= chunks[|chunks| - 1].start
    requires forall k {:trigger mem[k]} | 0 <= k < |mem| && k != chunk.start && (k != nextChunkPtr || chunks == []) ::
               mem[k] == mem1[k]
    requires if chunks == [] then newFirst == CELL * chunk.start
             else newFirst == first && nextChunkPtr < |mem| && mem[nextChunkPtr] == CELL * chunk.start
    ensures Threaded(mem, chunks + [chunk], newFirst, chunk.start + 1)
  {
    var more := chunks + [chunk];
    forall j | 0 <= j < |more| - 1
      ensures more[j].start + 1 < |mem| && mem[more[j].start + 1] == Link(more, j + 1)
    {
      assert more[j] == chunks[j];
      if j < |chunks| - 1 {
        assert more[j + 1] == chunks[j + 1];
      }
    }
  }

  /** One more chunk, with a link to it. */
  lemma ListedMore(mem: seq<Cell>, mem1: seq<Cell>, chunks: seq<Chunk>, first: Cell, newFirst: Cell, nextChunkPtr: nat,
                   chunk: Chunk)
    requires ListedSoFar(mem1, chunks, first, nextChunkPtr) && |mem| == |mem1|
    requires 2 <= chunk.cells && chunk.End() <= |mem| <= MAX_CELLS
    requires forall j | 0 <= j < |chunks| :: chunks[j].End() <= chunk.start
    requires forall k {:trigger mem[k]} | 0 <= k < |mem| && k != chunk.start && (k != nextChunkPtr || chunks == []) ::
               mem[k] == mem1[k]
    requires mem[chunk.start] == ChunkHeader(chunk.cells)
    requires if chunks == [] then newFirst == CELL * chunk.start
             else newFirst == first && nextChunkPtr < |mem| && mem[nextChunkPtr] == CELL * chunk.start
    ensures ListedSoFar(mem, chunks + [chunk], newFirst, chunk.start + 1)
  {
    PlacedMore(mem, mem1, chunks, nextChunkPtr, chunk);
    ThreadedMore(mem, mem1, chunks, first, newFirst, nextChunkPtr, chunk);
  }

  /** Ending the list makes it a free list. */
  lemma ListedAll(mem: seq<Cell>, mem1: seq<Cell>, chunks: seq<Chunk>, first: Cell, nextChunkPtr: nat)
    requires ListedSoFar(mem1, chunks, first, nextChunkPtr) && |mem| == |mem1|
    requires forall k {:trigger mem[k]} | 0 <= k < |mem| && (k != nextChunkPtr || chunks == []) :: mem[k] == mem1[k]
    requires chunks != [] ==> nextChunkPtr < |mem| && mem[nextChunkPtr] == NULL
    ensures Linked(mem, chunks) && (chunks != [] ==> first == Link(chunks, 0))
    ensures forall j | 0 <= j < |chunks| :: mem[chunks[j].start] == ChunkHeader(chunks[j].cells)
  {
    forall j | 0 <= j < |chunks|
      ensures mem[chunks[j].start] == ChunkHeader(chunks[j].cells) && mem[chunks[j].start + 1] == Link(chunks, j + 1)
    {
      ChunkHeaderFacts(chunks[j].cells);
      if j < |chunks| - 1 {
        assert chunks[j].End() <= chunks[|chunks| - 1].start;
      }
    }
  }

  /** Turns the run [lastLive, scanner) of dead objects into a chunk at the end of the list. */
  method AddChunk(mem: array<Cell>, lastLive: nat, scanner: nat, first: Cell, nextChunkPtr: nat,
                  ghost m: seq<Cell>, ghost lo: nat, ghost hi: nat, ghost marked: set<nat>, ghost chunks: seq<Chunk>)
    returns (newFirst: Cell, newPtr: nat)
    requires Tiled(m, lo, hi) && hi <= mem.Length <= MAX_CELLS && lo <= lastLive && lastLive + 2 <= scanner <= hi
    requires lastLive in Headers(m, lo, hi) && lastLive !in marked
    requires forall h | h in Headers(m, lo, hi) && lastLive <= h < scanner :: h !in marked
    requires forall j | 0 <= j < |chunks| ::
               chunks[j].End() <= lastLive && chunks[j].start in Headers(m, lo, hi) && chunks[j].start !in marked
    requires ListedSoFar(mem[..], chunks, first, nextChunkPtr) && LiveKept(mem[..], m, lo, hi, marked, lastLive)
    modifies mem
    ensures ListedSoFar(mem[..], chunks + [Chunk(lastLive, scanner - lastLive)], newFirst, newPtr)
    ensures LiveKept(mem[..], m, lo, hi, marked, scanner)
  {
    ghost var m1 := mem[..];
    var thisFreeSize := scanner - lastLive - 1;
    mem[lastLive] := thisFreeSize * TYPEBITS;
    newFirst := first;
    if nextChunkPtr == 0 {
      newFirst := CELL * lastLive;
    } else {
      mem[nextChunkPtr] := CELL * lastLive;
    }
    newPtr := lastLive + 1;
    hide ListedSoFar, LiveKept, Headers, Tiled;
    ListedMore(mem[..], m1, chunks, first, newFirst, nextChunkPtr, Chunk(lastLive, scanner - lastLive));
    if nextChunkPtr == 0 {
      DeadWritten(mem[..], m1, m, lo, hi, marked, lastLive, scanner, lastLive, lastLive);
    } else {
      DeadWritten(mem[..], m1, m, lo, hi, marked, lastLive, scanner, lastLive, chunks[|chunks| - 1].start);
    }
  }

  /** Writing headers and links of dead objects changes nothing live. */
  lemma DeadWritten(mem: seq<Cell>, m1: seq<Cell>, m: seq<Cell>, lo: nat, hi: nat, marked: set<nat>, from: nat,
                    scanner: nat,
                    a: nat, b: nat)
    requires Tiled(m, lo, hi) && LiveKept(m1, m, lo, hi, marked, from) && from <= scanner <= hi && |mem| == |m1|
    requires a in Headers(m, lo, hi) && a !in marked && a < scanner && b in Headers(m, lo, hi) && b !in marked
    requires b + 1 < scanner
    requires forall h | h in Headers(m, lo, hi) && from <= h < scanner :: h !in marked
    requires forall k {:trigger mem[k]} | 0 <= k < |mem| && k != a && k != b + 1 :: mem[k] == m1[k]
    ensures LiveKept(mem, m, lo, hi, marked, scanner)
  {
    HeaderBounds(m, lo, hi, a);
    HeaderBounds(m, lo, hi, b);
    DeadIsNotLive(m, lo, hi, marked, a, a);
    DeadIsNotLive(m, lo, hi, marked, b, b + 1);
  }

  /** Headers behind p are the headers of what lies behind p. */
  lemma {:induction false} HeadersFrom(m: seq<Cell>, lo: nat, p: nat, hi: nat, h: nat)
    requires Tiled(m, lo, hi) && (p == hi || p in Headers(m, lo, hi)) && h in Headers(m, lo, hi) && p <= h
    ensures Tiled(m, p, hi) && h in Headers(m, p, hi)
    decreases hi - lo
  {
    HeaderBounds(m, lo, hi, h);
    if p != lo {
      HeaderBounds(m, lo, hi, p);
      HeadersFrom(m, Next(m, lo), p, hi, h);
    }
  }

  /** Everything from the header `from` up to the end of a run of dead objects is dead. */
  lemma DeadRun(m: seq<Cell>, lo: nat, from: nat, hi: nat, marked: set<nat>, h: nat)
    requires Tiled(m, lo, hi) && (from == hi || from in Headers(m, lo, hi)) && Tiled(m, from, hi)
    requires h in Headers(m, lo, hi) && from <= h < SkipDead(m, from, hi, marked)
    ensures h !in marked
  {
    HeaderBounds(m, lo, hi, h);
    HeadersFrom(m, lo, from, hi, h);
    DeadIsSkipped(m, from, hi, marked, h);
  }

  /** The heap before sweeping: the marked objects are those in `marked`. */
  ghost predicate Sweepable(m: seq<Cell>, lo: nat, hi: nat, marked: set<nat>) {
    && 1 <= lo && Tiled(m, lo, hi) && |m| <= MAX_CELLS
    && forall h | h in Headers(m, lo, hi) :: h < |m| && (IsMarked(m[h]) <==> h in marked)
  }

  /** The starts of the chunks are headers of dead objects. */
  ghost predicate DeadStarts(m: seq<Cell>, lo: nat, hi: nat, marked: set<nat>, chunks: seq<Chunk>, scanner: nat)
    requires Tiled(m, lo, hi)
  {
    forall j | 0 <= j < |chunks| ::
        chunks[j].End() <= scanner && chunks[j].start in Headers(m, lo, hi) && chunks[j].start !in marked
  }

  /** The heap has been swept up to the object boundary `scanner`. */
  ghost predicate SweptUpTo(mem: seq<Cell>, m: seq<Cell>, lo: nat, hi: nat, marked: set<nat>,
                            chunks: seq<Chunk>, first: Cell, nextChunkPtr: nat, scanner: nat)
  {
    && Sweepable(m, lo, hi, marked) && Tiled(m, scanner, hi) && (scanner == hi || scanner in Headers(m, lo, hi))
    && LiveKept(mem, m, lo, hi, marked, scanner)
    && ListedSoFar(mem, chunks, first, nextChunkPtr)
    && DeadStarts(m, lo, hi, marked, chunks, scanner)
    && chunks + DeadRuns(m, scanner, hi, marked) == DeadRuns(m, lo, hi, marked)
  }

  /** Clearing marks leaves the list alone. */
  lemma ListedKept(mem: seq<Cell>, mem1: seq<Cell>, m: seq<Cell>, lo: nat, hi: nat, marked: set<nat>,
                   chunks: seq<Chunk>, first: Cell, nextChunkPtr: nat, scanner: nat)
    requires ListedSoFar(mem1, chunks, first, nextChunkPtr) && |mem| == |mem1| == |m| && Tiled(m, lo, hi)
    requires DeadStarts(m, lo, hi, marked, chunks, scanner)
    requires forall k {:trigger mem[k]} | 0 <= k < |mem| && !(k in Headers(m, lo, hi) && k in marked) ::
               mem[k] == mem1[k]
    ensures ListedSoFar(mem, chunks, first, nextChunkPtr)
  {
    hide Headers, Tiled, SizeOf, ChunkHeader, Link;
    forall j | 0 <= j < |chunks|
      ensures chunks[j].start + 1 < |mem|
      ensures mem[chunks[j].start] == mem1[chunks[j].start] && mem[chunks[j].start + 1] == mem1[chunks[j].start + 1]
    {
      HeaderBounds(m, lo, hi, chunks[j].start);
      DeadIsNotLive(m, lo, hi, marked, chunks[j].start, chunks[j].start + 1);
    }
  }

  lemma NoRuns(m: seq<Cell>, p: nat, hi: nat, marked: set<nat>)
    requires Tiled(m, p, hi)
    ensures SkipLive(m, p, hi, marked) == hi ==> DeadRuns(m, p, hi, marked) == []
    ensures SkipLive(m, p, hi, marked) < hi ==>
              var q := SkipLive(m, p, hi, marked);
              var r := SkipDead(m, q, hi, marked);
              q + 2 <= r && DeadRuns(m, p, hi, marked) == [Chunk(q, r - q)] + DeadRuns(m, r, hi, marked)
  {
  }

  /** The bookkeeping of one more run of dead objects. */
  lemma RunSwept(mem: seq<Cell>, m: seq<Cell>, lo: nat, hi: nat, marked: set<nat>, chunks: seq<Chunk>,
                 newFirst: Cell, newPtr: nat, from: nat, q: nat, r: nat)
    requires Sweepable(m, lo, hi, marked) && Tiled(m, from, hi) && DeadStarts(m, lo, hi, marked, chunks, from)
    requires q == SkipLive(m, from, hi, marked) < hi && r == SkipDead(m, q, hi, marked)
    requires q in Headers(m, lo, hi) && (r == hi || r in Headers(m, lo, hi))
    requires LiveKept(mem, m, lo, hi, marked, r) && ListedSoFar(mem, chunks + [Chunk(q, r - q)], newFirst, newPtr)
    requires chunks + DeadRuns(m, from, hi, marked) == DeadRuns(m, lo, hi, marked)
    ensures SweptUpTo(mem, m, lo, hi, marked, chunks + [Chunk(q, r - q)], newFirst, newPtr, r)
  {
    hide Sweepable, LiveKept, ListedSoFar, Headers, Tiled, DeadRuns, SkipLive, SkipDead;
    NoRuns(m, from, hi, marked);
    assert Tiled(m, lo, hi) by {
      SweepableTiled(m, lo, hi, marked);
    }
    var rest := DeadRuns(m, r, hi, marked);
    assert chunks + ([Chunk(q, r - q)] + rest) == (chunks + [Chunk(q, r - q)]) + rest;
  }

  lemma SweepableTiled(m: seq<Cell>, lo: nat, hi: nat, marked: set<nat>)
    requires Sweepable(m, lo, hi, marked)
    ensures Tiled(m, lo, hi) && 1 <= lo <= hi <= |m| <= MAX_CELLS
    ensures forall h | h in Headers(m, lo, hi) :: h < |m| && (IsMarked(m[h]) <==> h in marked)
  {
  }

  /** One turn of the sweep: a group of live objects, then a group of dead ones. */
  method SweepRun(mem: array<Cell>, from: nat, currentHeapEnd: nat, first: Cell, nextChunkPtr: nat,
                  ghost m: seq<Cell>, ghost lo: nat, ghost marked: set<nat>, ghost chunks: seq<Chunk>)
    returns (lastLive: nat, scanner: nat, newFirst: Cell, newPtr: nat)
    requires SweptUpTo(mem[..], m, lo, currentHeapEnd, marked, chunks, first, nextChunkPtr, from)
    modifies mem
    ensures from <= lastLive <= scanner <= currentHeapEnd && (lastLive < scanner ==> lastLive + 2 <= scanner)
    ensures scanner == lastLive ==> scanner == currentHeapEnd && newFirst == first && newPtr == nextChunkPtr
    ensures SweptUpTo(mem[..], m, lo, currentHeapEnd, marked,
                      if lastLive == scanner then chunks else chunks + [Chunk(lastLive, scanner - lastLive)],
                      newFirst, newPtr, scanner)
  {
    hide LiveKept, ListedSoFar, Headers, Tiled, DeadRuns, SkipLive, SkipDead, Sweepable;
    ghost var mem1 := mem[..];
    SweepableTiled(m, lo, currentHeapEnd, marked);
    LiveKeptLength(mem1, m, lo, currentHeapEnd, marked, from);
    lastLive := SkipLiveGroup(mem, from, currentHeapEnd, m, lo, marked);
    ListedKept(mem[..], mem1, m, lo, currentHeapEnd, marked, chunks, first, nextChunkPtr, from);
    NoRuns(m, from, currentHeapEnd, marked);
    scanner := SkipDeadGroup(mem, lastLive, currentHeapEnd, m, lo, marked);
    newFirst, newPtr := first, nextChunkPtr;
    if lastLive < currentHeapEnd {
      forall h | h in Headers(m, lo, currentHeapEnd) && lastLive <= h < scanner
        ensures h !in marked
      {
        DeadRun(m, lo, lastLive, currentHeapEnd, marked, h);
      }
      newFirst, newPtr := AddChunk(mem, lastLive, scanner, first, nextChunkPtr, m, lo, currentHeapEnd, marked, chunks);
      RunSwept(mem[..], m, lo, currentHeapEnd, marked, chunks, newFirst, newPtr, from, lastLive, scanner);
    } else {
      NoRuns(m, scanner, currentHeapEnd, marked);
    }
  }

  lemma LiveKeptLength(mem: seq<Cell>, m: seq<Cell>, lo: nat, hi: nat, marked: set<nat>, scanner: nat)
    requires Tiled(m, lo, hi) && LiveKept(mem, m, lo, hi, marked, scanner)
    ensures |mem| == |m| && lo <= scanner <= hi
  {
  }

  /** The size field of the largest chunk; 0 if there is none. */
  ghost predicate LargestSize(chunks: seq<Chunk>, size: nat) {
    && (forall j | 0 <= j < |chunks| :: chunks[j].cells - HEADERSIZE <= size)
    && (size != 0 ==> exists j | 0 <= j < |chunks| :: chunks[j].cells - HEADERSIZE == size)
  }

  /** What sweeping leaves: live objects as they were, without marks, and the free list between them. */
  ghost predicate Clean(mem: seq<Cell>, m: seq<Cell>, lo: nat, hi: nat, marked: set<nat>) {
    && Sweepable(m, lo, hi, marked) && LiveKept(mem, m, lo, hi, marked, hi)
    && var chunks := DeadRuns(m, lo, hi, marked);
       Swept(lo, hi, chunks) && Linked(mem, chunks)
       && forall j | 0 <= j < |chunks| :: mem[chunks[j].start] == ChunkHeader(chunks[j].cells)
  }

  lemma SweepStart(m: seq<Cell>, lo: nat, hi: nat, marked: set<nat>)
    requires Sweepable(m, lo, hi, marked)
    ensures SweptUpTo(m, m, lo, hi, marked, [], NULL, 0, lo) && LargestSize([], 0)
  {
    forall h | h in Headers(m, lo, hi)
      ensures lo <= h
    {
      HeaderBounds(m, lo, hi, h);
    }
  }

  /** Ending the list completes the sweep. */
  lemma SweepEnd(mem: seq<Cell>, mem1: seq<Cell>, m: seq<Cell>, lo: nat, hi: nat, marked: set<nat>,
                 chunks: seq<Chunk>, first: Cell, nextChunkPtr: nat)
    requires SweptUpTo(mem1, m, lo, hi, marked, chunks, first, nextChunkPtr, hi) && |mem| == |mem1|
    requires if chunks == [] then mem == mem1
             else nextChunkPtr < |mem| && mem == mem1[nextChunkPtr := NULL]
    ensures chunks == DeadRuns(m, lo, hi, marked) && Clean(mem, m, lo, hi, marked)
    ensures chunks != [] ==> first == Link(chunks, 0)
  {
    hide LiveKept, ListedSoFar, Headers, Tiled, DeadRuns, Sweepable, Swept, Linked, ChunkHeader;
    NoRuns(m, hi, hi, marked);
    assert chunks + [] == chunks;
    SweepableTiled(m, lo, hi, marked);
    DeadRunsAreSwept(m, lo, hi, marked);
    LiveKeptLength(mem1, m, lo, hi, marked, hi);
    ListedAll(mem, mem1, chunks, first, nextChunkPtr);
    if chunks != [] {
      var last := chunks[|chunks| - 1].start;
      ListedPtr(mem1, chunks, first, nextChunkPtr);
      HeaderBounds(m, lo, hi, last);
      DeadWritten(mem, mem1, m, lo, hi, marked, hi, hi, last, last);
    }
  }

  lemma ListedPtr(mem: seq<Cell>, chunks: seq<Chunk>, first: Cell, nextChunkPtr: nat)
    requires ListedSoFar(mem, chunks, first, nextChunkPtr)
    ensures chunks == [] ==> nextChunkPtr == 0
    ensures chunks != [] ==> 0 < nextChunkPtr == chunks[|chunks| - 1].start + 1 < |mem|
  {
  }

  /** Writes the last link of the free list. */
  method EndList(mem: array<Cell>, currentHeapEnd: nat, first: Cell, nextChunkPtr: nat,
                 ghost m: seq<Cell>, ghost lo: nat, ghost marked: set<nat>, ghost chunks: seq<Chunk>)
    returns (firstFreeChunk: Cell)
    requires SweptUpTo(mem[..], m, lo, currentHeapEnd, marked, chunks, first, nextChunkPtr, currentHeapEnd)
    modifies mem
    ensures chunks == DeadRuns(m, lo, currentHeapEnd, marked) && Clean(mem[..], m, lo, currentHeapEnd, marked)
    ensures firstFreeChunk == Link(chunks, 0)
  {
    hide SweptUpTo, Clean, Sweepable, DeadRuns, Swept;
    ghost var mem1 := mem[..];
    SweptPtr(mem1, m, lo, currentHeapEnd, marked, chunks, first, nextChunkPtr, currentHeapEnd);
    if nextChunkPtr == 0 {
      firstFreeChunk := NULL;
    } else {
      mem[nextChunkPtr] := NULL;
      firstFreeChunk := first;
    }
    SweepEnd(mem[..], mem1, m, lo, currentHeapEnd, marked, chunks, first, nextChunkPtr);
  }

  /** One turn of the sweep, with the size of the largest chunk so far. */
  method SweepNext(mem: array<Cell>, from: nat, currentHeapEnd: nat, first: Cell, nextChunkPtr: nat,
                   maximumFreeSize: nat,
                   ghost m: seq<Cell>, ghost lo: nat, ghost marked: set<nat>, ghost chunks: seq<Chunk>)
    returns (scanner: nat, newFirst: Cell, newPtr: nat, newSize: nat, done: bool, ghost newChunks: seq<Chunk>)
    requires SweptUpTo(mem[..], m, lo, currentHeapEnd, marked, chunks, first, nextChunkPtr, from)
    requires LargestSize(chunks, maximumFreeSize)
    modifies mem
    ensures SweptUpTo(mem[..], m, lo, currentHeapEnd, marked, newChunks, newFirst, newPtr, scanner)
    ensures LargestSize(newChunks, newSize)
    ensures from <= scanner <= currentHeapEnd && (if done then scanner == currentHeapEnd else from < scanner)
  {
    hide SweptUpTo, LargestSize;
    var lastLive;
    lastLive, scanner, newFirst, newPtr :=
      SweepRun(mem, from, currentHeapEnd, first, nextChunkPtr, m, lo, marked, chunks);
    done, newSize, newChunks := scanner == currentHeapEnd, maximumFreeSize, chunks;
    if lastLive < scanner {
      var thisFreeSize := scanner - lastLive - 1;
      LargestMore(chunks, maximumFreeSize, Chunk(lastLive, scanner - lastLive));
      newChunks := chunks + [Chunk(lastLive, scanner - lastLive)];
      if thisFreeSize > maximumFreeSize {
        newSize := thisFreeSize;
      }
    }
  }

  /**
   * Clears all marks and links everything unmarked into the free list: the maximal runs of unmarked objects, in address
   * order.
   */
  method SweepTheHeap(mem: array<Cell>, currentHeap: nat, currentHeapEnd: nat, ghost marked: set<nat>)
    returns (firstFreeChunk: Cell, maximumFreeSize: nat)
    requires Sweepable(mem[..], currentHeap, currentHeapEnd, marked)
    modifies mem
    ensures Clean(mem[..], old(mem[..]), currentHeap, currentHeapEnd, marked)
    ensures var chunks := DeadRuns(old(mem[..]), currentHeap, currentHeapEnd, marked);
            firstFreeChunk == Link(chunks, 0) && LargestSize(chunks, maximumFreeSize)
  {
    ghost var m := mem[..];
    SweepableTiled(m, currentHeap, currentHeapEnd, marked);
    SweepStart(m, currentHeap, currentHeapEnd, marked);
    hide SweptUpTo, Clean, Sweepable, DeadRuns, Swept, LargestSize;
    ghost var chunks: seq<Chunk> := [];
    var scanner: nat, nextChunkPtr: nat, done := currentHeap, 0, false;
    firstFreeChunk, maximumFreeSize := NULL, 0;
    while !done
      invariant SweptUpTo(mem[..], m, currentHeap, currentHeapEnd, marked, chunks, firstFreeChunk, nextChunkPtr,
                          scanner)
      invariant scanner <= currentHeapEnd && (done ==> scanner == currentHeapEnd)
      invariant LargestSize(chunks, maximumFreeSize)
      decreases currentHeapEnd - scanner, !done
    {
      scanner, firstFreeChunk, nextChunkPtr, maximumFreeSize, done, chunks :=
        SweepNext(mem, scanner, currentHeapEnd, firstFreeChunk, nextChunkPtr, maximumFreeSize, m, currentHeap, marked,
                  chunks);
    }
    firstFreeChunk := EndList(mem, currentHeapEnd, firstFreeChunk, nextChunkPtr, m, currentHeap, marked, chunks);
  }

  lemma SweptPtr(mem: seq<Cell>, m: seq<Cell>, lo: nat, hi: nat, marked: set<nat>,
                 chunks: seq<Chunk>, first: Cell, nextChunkPtr: nat, scanner: nat)
    requires SweptUpTo(mem, m, lo, hi, marked, chunks, first, nextChunkPtr, scanner)
    ensures chunks == [] ==> nextChunkPtr == 0
    ensures chunks != [] ==> 0 < nextChunkPtr < |mem|
  {
    ListedPtr(mem, chunks, first, nextChunkPtr);
  }

  lemma LargestMore(chunks: seq<Chunk>, size: nat, chunk: Chunk)
    requires LargestSize(chunks, size) && 2 <= chunk.cells
    ensures LargestSize(chunks + [chunk], if chunk.cells - HEADERSIZE > size then chunk.cells - HEADERSIZE else size)
  {
    var more := chunks + [chunk];
    assert more[|chunks|] == chunk;
    assert forall j | 0 <= j < |chunks| :: more[j] == chunks[j];
  }
}
