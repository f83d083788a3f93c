/** garbageCollectForReal: mark, clear weak pointers, sweep, and compact when no chunk is large enough. */
module Collecting {
  import opened Cells
  import opened FreeList
  import opened Objects
  import opened HeapShape
  import opened Marking
  import opened Roots
  import opened WeakPointers
  import opened Tracing
  import opened Clearing
  import opened Sweeping
  import opened Survivors
  import opened BreakTable
  import opened Compaction
  import opened Relocation
  import opened HeapUpdate
  import opened Sliding
  import opened Outcomes

  /** With an empty table nothing moves. */
  lemma EmptyTable(t: Table, v: Cell)
    requires Swept(t.lo, t.hi, t.chunks) && Moved(t.hi, t.chunks) == 0
    ensures Relocated(t, v) == v
  {
  }

  lemma EmptyTableObject(classOf: Cell -> Class, m: seq<Cell>, n: nat, m2: seq<Cell>, h: nat, t: Table)
    requires Swept(t.lo, t.hi, t.chunks) && Moved(t.hi, t.chunks) == 0 && ObjectAt(m, n, m2, h)
    ensures MovedTo(classOf, m, n, m2, h, t)
  {
    hide PointerSlots, Relocated, Moved, Swept, Next;
    forall v
      ensures Relocated(t, v) == v
    {
      EmptyTable(t, v);
    }
  }

  lemma EmptyTableRoots(r: Roots, t: Table)
    requires Swept(t.lo, t.hi, t.chunks) && Moved(t.hi, t.chunks) == 0 && r.Distinct()
    ensures RootsMoved(r, r, t)
  {
    hide Relocated, Moved, Swept;
    forall v
      ensures Relocated(t, v) == v
    {
      EmptyTable(t, v);
    }
    forall i | 0 <= i < |r.temporaries|
      ensures TemporaryMoved(r, r, t, i)
    {
    }
  }

  /** The live objects of m2 after compaction, in m5. */
  ghost predicate AllMovedTo(classOf: Cell -> Class, m5: seq<Cell>, m2: seq<Cell>, t: Table, alive: set<nat>) {
    && Tiled(m2, t.lo, t.hi) && alive <= Headers(m2, t.lo, t.hi)
    && forall h | h in alive :: Tiled(m2, t.lo, h) && MovedTo(classOf, m5, NewIndex(m2, t.lo, h, alive), m2, h, t)
  }

  /** They form a row. */
  lemma MovedRow(classOf: Cell -> Class, m5: seq<Cell>, m2: seq<Cell>, t: Table, alive: set<nat>)
    requires AllMovedTo(classOf, m5, m2, t, alive) && t.hi <= |m5|
    ensures Tiled(m2, t.lo, t.hi) && Tiled(m2, t.lo, t.lo) && t.lo <= EndOf(m2, t.lo, t.hi, alive) <= t.hi
    ensures Tiled(m5, t.lo, EndOf(m2, t.lo, t.hi, alive))
    ensures Headers(m5, t.lo, EndOf(m2, t.lo, t.hi, alive)) == NewHeaders(m2, t.lo, t.lo, t.hi, alive)
  {
    hide PointerSlots, Relocated, Swept;
    forall h | h in Headers(m2, t.lo, t.hi) && h in alive
      ensures SizeMoved(m5, m2, t.lo, alive, h)
    {
      MovedSize(classOf, m5, m2, t, alive, h);
    }
    assert NewIndex(m2, t.lo, t.lo, alive) == t.lo;
    SlidTiling(m5, m2, t.lo, t.lo, t.hi, alive);
  }

  lemma MovedSize(classOf: Cell -> Class, m5: seq<Cell>, m2: seq<Cell>, t: Table, alive: set<nat>, h: nat)
    requires AllMovedTo(classOf, m5, m2, t, alive) && h in alive
    ensures SizeMoved(m5, m2, t.lo, alive, h)
  {
    hide PointerSlots, Relocated, Swept, SizeOf, Tiled, Headers, NewIndex;
    assert MovedTo(classOf, m5, NewIndex(m2, t.lo, h, alive), m2, h, t);
    MarkKeepsSizeAndKind(m2[h]);
  }

  /** The heap before sweeping: the objects to keep are marked, and their pointers can be rewritten. */
  ghost predicate Collectable(classOf: Cell -> Class, m2: seq<Cell>, lo: nat, hi: nat, alive: set<nat>) {
    && Sweepable(m2, lo, hi, alive) && Tiled(m2, lo, hi) && alive <= Headers(m2, lo, hi)
    && forall h | h in alive :: Fits(classOf, m2, h) && Updatable(classOf, m2, h)
  }

  lemma CollectableFacts(classOf: Cell -> Class, m2: seq<Cell>, lo: nat, hi: nat, alive: set<nat>)
    requires Collectable(classOf, m2, lo, hi, alive)
    ensures Sweepable(m2, lo, hi, alive) && Tiled(m2, lo, hi) && 1 <= lo <= hi <= |m2| <= MAX_CELLS
    ensures alive <= Headers(m2, lo, hi)
  {
    SweepableTiled(m2, lo, hi, alive);
  }

  lemma CleanFacts(m3: seq<Cell>, m2: seq<Cell>, lo: nat, hi: nat, alive: set<nat>)
    requires Clean(m3, m2, lo, hi, alive)
    ensures Tiled(m2, lo, hi) && 1 <= lo <= hi <= |m2| == |m3| && |m2| <= MAX_CELLS
    ensures Swept(lo, hi, DeadRuns(m2, lo, hi, alive)) && Linked(m3, DeadRuns(m2, lo, hi, alive))
    ensures Dead(DeadRuns(m2, lo, hi, alive), |DeadRuns(m2, lo, hi, alive)|) == DeadCells(m2, lo, hi, alive)
    ensures EndOf(m2, lo, hi, alive) == hi - DeadCells(m2, lo, hi, alive)
  {
    SweepableTiled(m2, lo, hi, alive);
    CleanLength(m3, m2, lo, hi, alive);
    DeadTotal(m2, lo, hi, alive);
  }

  /** The slid heap is ready for its pointers to be rewritten. */
  lemma ReadyToUpdate(classOf: Cell -> Class, m4: seq<Cell>, m3: seq<Cell>, m2: seq<Cell>, t: Table, alive: set<nat>,
                      end: nat)
    requires Collectable(classOf, m2, t.lo, t.hi, alive) && SweptAndSlid(m4, m3, m2, t.lo, t.hi, alive)
    requires Tiled(m2, t.lo, t.hi) && end == EndOf(m2, t.lo, t.hi, alive)
    ensures Slid(classOf, m4, m2, t.lo, t.hi, alive)
    ensures TableIn(m4, t) && end <= t.location ==> Compact(classOf, m4, t, end)
  {
    hide SweptAndSlid, TableIn, Tiled, Headers, EndOf, Compact, Slid, Fits, Updatable;
    CompactionSlides(classOf, m4, m3, m2, t.lo, t.hi, alive);
    if TableIn(m4, t) && end <= t.location {
      SlidUpdatable(classOf, m4, m2, t, alive, end);
    }
  }

  /** Without a table the slid heap is the result. */
  lemma NothingMoved(classOf: Cell -> Class, m4: seq<Cell>, m2: seq<Cell>, t: Table, alive: set<nat>)
    requires Slid(classOf, m4, m2, t.lo, t.hi, alive) && Swept(t.lo, t.hi, t.chunks) && Moved(t.hi, t.chunks) == 0
    ensures AllMovedTo(classOf, m4, m2, t, alive)
  {
    SlidShape(classOf, m4, m2, t.lo, t.hi, alive);
    hide Slid, Swept, Moved, Tiled, Headers, ObjectAt, MovedTo, Fits, Updatable, NewIndex;
    forall h | h in alive
      ensures Tiled(m2, t.lo, h) && MovedTo(classOf, m4, NewIndex(m2, t.lo, h, alive), m2, h, t)
    {
      SlidOneFacts(classOf, m4, m2, t.lo, t.hi, alive, h);
      EmptyTableObject(classOf, m4, NewIndex(m2, t.lo, h, alive), m2, h, t);
    }
  }

  lemma SlidShape(classOf: Cell -> Class, m4: seq<Cell>, m2: seq<Cell>, lo: nat, hi: nat, alive: set<nat>)
    requires Slid(classOf, m4, m2, lo, hi, alive)
    ensures Tiled(m2, lo, hi) && alive <= Headers(m2, lo, hi) && |m4| == |m2| && hi <= |m4|
  {
  }

  lemma AllMoved(classOf: Cell -> Class, m5: seq<Cell>, m4: seq<Cell>, m2: seq<Cell>, t: Table, alive: set<nat>,
                 end: nat)
    requires SlidAndUpdated(classOf, m5, m4, m2, t, alive, end)
    ensures AllMovedTo(classOf, m5, m2, t, alive)
  {
    SlidShape(classOf, m4, m2, t.lo, t.hi, alive);
    hide SlidAndUpdated, MovedTo, NewIndex, Tiled, Headers;
    forall h | h in alive
      ensures Tiled(m2, t.lo, h) && MovedTo(classOf, m5, NewIndex(m2, t.lo, h, alive), m2, h, t)
    {
      ObjectMoved(classOf, m5, m4, m2, t, alive, end, h);
    }
  }

  /** Slides the live objects together and rewrites all pointers to them. */
  method CompactAndUpdate(mem: array<Cell>, currentHeap: nat, currentHeapEnd: nat, firstFreeChunk: Cell,
                          classOf: Cell -> Class,
                          roots: RootSet, ghost m2: seq<Cell>, ghost alive: set<nat>)
    returns (freeStart: nat, ghost t: Table)
    requires Collectable(classOf, m2, currentHeap, currentHeapEnd, alive) && Tiled(m2, currentHeap, currentHeapEnd)
    requires Clean(mem[..], m2, currentHeap, currentHeapEnd, alive)
    requires firstFreeChunk == Link(DeadRuns(m2, currentHeap, currentHeapEnd, alive), 0)
    requires roots.variables != mem && roots.Now().Distinct()
    modifies mem, roots.variables, roots.temporaryRoots
    ensures t.lo == currentHeap && t.hi == currentHeapEnd
    ensures t.chunks == DeadRuns(m2, currentHeap, currentHeapEnd, alive)
    ensures freeStart == EndOf(m2, currentHeap, currentHeapEnd, alive)
    ensures AllMovedTo(classOf, mem[..], m2, t, alive) && RootsMoved(roots.Now(), old(roots.Now()), t)
  {
    hide Collectable, Tiled, Headers, Clean, Roots.Distinct, AllMovedTo, RootsMoved, EndOf, SweptAndSlid, Slid, Swept,
      Linked,
      DeadRuns, Live, Holds, Compact, Rewritten, PointerSlotsOf, Moved, TableIn, CellsOf, Breaks, Framed;
    ghost var m3, r := mem[..], roots.Now();
    CleanFacts(m3, m2, currentHeap, currentHeapEnd, alive);
    CollectableFacts(classOf, m2, currentHeap, currentHeapEnd, alive);
    ghost var chunks := DeadRuns(m2, currentHeap, currentHeapEnd, alive);
    var table, length;
    freeStart, table, length := CompactTheHeap(mem, currentHeap, currentHeapEnd, firstFreeChunk, chunks);
    t := Table(currentHeap, currentHeapEnd, chunks, table, length);
    AfterCompaction(classOf, mem[..], m3, m2, t, alive, freeStart);
    if length > 0 {
      UpdateAll(mem, roots, classOf, Table(currentHeap, currentHeapEnd, chunks, table, length), freeStart, m2, alive);
    } else {
      NothingMoved(classOf, mem[..], m2, t, alive);
      EmptyTableRoots(r, t);
    }
  }

  lemma AfterCompaction(classOf: Cell -> Class, m4: seq<Cell>, m3: seq<Cell>, m2: seq<Cell>, t: Table, alive: set<nat>,
                        end: nat)
    requires Collectable(classOf, m2, t.lo, t.hi, alive) && Clean(m3, m2, t.lo, t.hi, alive) && |m4| == |m3|
    requires Tiled(m2, t.lo, t.hi) && t.chunks == DeadRuns(m2, t.lo, t.hi, alive) && end == EndOf(m2, t.lo, t.hi, alive)
    requires Swept(t.lo, t.hi, t.chunks) && t.hi <= |m3| && Holds(m4, t.lo, Live(m3, t.lo, t.hi, t.chunks))
    requires t.length == Moved(t.hi, t.chunks)
    requires 0 < t.length ==>
               end <= t.location && Holds(m4, t.location, CellsOf(Breaks(t.lo, t.hi, t.chunks, t.length)))
    ensures Slid(classOf, m4, m2, t.lo, t.hi, alive)
    ensures 0 < t.length ==> TableIn(m4, t) && Compact(classOf, m4, t, end)
  {
    hide Tiled, Headers, Clean, EndOf, Slid, Swept, DeadRuns, Live, Holds, Compact, Moved, CellsOf, Breaks, Fits,
      Updatable, Sweepable;
    CollectableFacts(classOf, m2, t.lo, t.hi, alive);
    ReadyToUpdate(classOf, m4, m3, m2, t, alive, end);
  }

  /** Rewrites the roots and the heap. */
  method UpdateAll(mem: array<Cell>, roots: RootSet, classOf: Cell -> Class, t: Table, freeStart: nat,
                   ghost m2: seq<Cell>, ghost alive: set<nat>)
    requires Slid(classOf, mem[..], m2, t.lo, t.hi, alive) && Tiled(m2, t.lo, t.hi)
    requires freeStart == EndOf(m2, t.lo, t.hi, alive)
    requires TableIn(mem[..], t) && Compact(classOf, mem[..], t, freeStart)
    requires roots.variables != mem && roots.Now().Distinct()
    modifies mem, roots.variables, roots.temporaryRoots
    ensures AllMovedTo(classOf, mem[..], m2, t, alive) && RootsMoved(roots.Now(), old(roots.Now()), t)
  {
    hide Tiled, Headers, Roots.Distinct, AllMovedTo, RootsMoved, EndOf, Slid, Swept, Compact, Rewritten,
      PointerSlotsOf, TableIn;
    ghost var m4 := mem[..];
    roots.UpdateRootObjects(mem, t);
    assert mem[..] == m4;
    UpdateHeapObjects(mem, t, freeStart, classOf);
    AllMoved(classOf, mem[..], m4, m2, t, alive, freeStart);
  }

  /** The headers in m3 of a swept stretch of memory: marked ones as they were, one for each run of unmarked objects. */
  ghost predicate SizesKept(m3: seq<Cell>, m2: seq<Cell>, p: nat, hi: nat, alive: set<nat>)
    requires Tiled(m2, p, hi)
  {
    && |m3| == |m2| && hi <= |m2|
    && (forall h | h in Headers(m2, p, hi) && h in alive :: h < |m2| && SizeOf(m3[h]) == SizeOf(m2[h]))
    && (forall c | c in DeadRuns(m2, p, hi, alive) ::
          2 <= c.cells && c.End() <= hi && SizeOf(m3[c.start]) == c.cells - HEADERSIZE)
  }

  /** A swept heap is a row of the marked objects and the chunks. */
  lemma {:induction false} SweptRow(m3: seq<Cell>, m2: seq<Cell>, p: nat, hi: nat, alive: set<nat>)
    requires Tiled(m2, p, hi) && SizesKept(m3, m2, p, hi, alive)
    ensures Tiled(m3, p, hi)
    ensures Headers(m3, p, hi) == Headers(m2, p, hi) * alive + Starts(DeadRuns(m2, p, hi, alive))
    decreases hi - p
  {
    if p < hi {
      if p in alive {
        RowBehindLive(m3, m2, p, hi, alive);
        SweptRow(m3, m2, Next(m2, p), hi, alive);
        RowWithLive(m3, m2, p, hi, alive);
      } else {
        RowBehindDead(m3, m2, p, hi, alive);
        SweptRow(m3, m2, SkipDead(m2, p, hi, alive), hi, alive);
        RowWithDead(m3, m2, p, hi, alive);
      }
    } else {
      assert DeadRuns(m2, p, hi, alive) == [];
    }
  }

  lemma RowBehindLive(m3: seq<Cell>, m2: seq<Cell>, p: nat, hi: nat, alive: set<nat>)
    requires Tiled(m2, p, hi) && SizesKept(m3, m2, p, hi, alive) && p < hi && p in alive
    ensures Tiled(m2, Next(m2, p), hi) && SizesKept(m3, m2, Next(m2, p), hi, alive)
    ensures SizeOf(m3[p]) == SizeOf(m2[p])
  {
    NextLive(m2, p, hi, alive);
    assert Headers(m2, p, hi) == {p} + Headers(m2, Next(m2, p), hi);
    assert p in Headers(m2, p, hi);
    hide Tiled, Headers, DeadRuns, SizeOf;
  }

  lemma RowWithLive(m3: seq<Cell>, m2: seq<Cell>, p: nat, hi: nat, alive: set<nat>)
    requires Tiled(m2, p, hi) && p < hi && p in alive && hi <= |m3| && SizeOf(m3[p]) == SizeOf(m2[p])
    requires Tiled(m2, Next(m2, p), hi) && Tiled(m3, Next(m2, p), hi)
    requires Headers(m3, Next(m2, p), hi) == Headers(m2, Next(m2, p),
                                                     hi) * alive + Starts(DeadRuns(m2, Next(m2, p), hi, alive))
    ensures Tiled(m3, p, hi) && Headers(m3, p, hi) == Headers(m2, p, hi) * alive + Starts(DeadRuns(m2, p, hi, alive))
  {
    hide Tiled, Headers, DeadRuns, Starts, SizeOf;
    NextLive(m2, p, hi, alive);
    FirstHeader(m2, p, hi, Next(m2, p));
    FirstHeader(m3, p, hi, Next(m2, p));
    AddLive(Headers(m2, Next(m2, p), hi), alive, Starts(DeadRuns(m2, p, hi, alive)), p);
  }

  lemma FirstHeader(m: seq<Cell>, p: nat, hi: nat, q: nat)
    requires p < |m| && q == Next(m, p) && p + 2 <= q && Tiled(m, q, hi)
    ensures Tiled(m, p, hi) && Headers(m, p, hi) == {p} + Headers(m, q, hi)
  {
  }

  lemma AddLive(headers: set<nat>, alive: set<nat>, starts: set<nat>, p: nat)
    requires p in alive
    ensures ({p} + headers) * alive + starts == {p} + (headers * alive + starts)
  {
  }

  lemma AddDead(headers: set<nat>, alive: set<nat>, starts: set<nat>, p: nat)
    ensures headers * alive + ({p} + starts) == {p} + (headers * alive + starts)
  {
  }

  lemma StartsCons(chunk: Chunk, rest: seq<Chunk>)
    ensures Starts([chunk] + rest) == {chunk.start} + Starts(rest)
  {
    assert chunk in [chunk] + rest;
  }

  lemma RowBehindDead(m3: seq<Cell>, m2: seq<Cell>, p: nat, hi: nat, alive: set<nat>)
    requires Tiled(m2, p, hi) && SizesKept(m3, m2, p, hi, alive) && p < hi && p !in alive
    ensures SizesKept(m3, m2, SkipDead(m2, p, hi, alive), hi, alive)
    ensures p + SizeOf(m3[p]) + HEADERSIZE == SkipDead(m2, p, hi, alive)
  {
    FirstRun(m2, p, hi, alive);
    var r := SkipDead(m2, p, hi, alive);
    var chunk, rest := Chunk(p, r - p), DeadRuns(m2, r, hi, alive);
    assert chunk in [chunk] + rest;
    hide Tiled, Headers, DeadRuns, SizeOf, SkipDead;
    forall h | h in Headers(m2, r, hi) && h in alive
      ensures h < |m2| && SizeOf(m3[h]) == SizeOf(m2[h])
    {
      assert h in Headers(m2, r, hi) * alive;
    }
  }

  lemma RowWithDead(m3: seq<Cell>, m2: seq<Cell>, p: nat, hi: nat, alive: set<nat>)
    requires Tiled(m2, p, hi) && p < hi && p !in alive && hi <= |m3|
    requires p + SizeOf(m3[p]) + HEADERSIZE == SkipDead(m2, p, hi, alive) && Tiled(m3, SkipDead(m2, p, hi, alive), hi)
    requires Headers(m3, SkipDead(m2, p, hi, alive), hi)
          == Headers(m2, SkipDead(m2, p, hi, alive),
                     hi) * alive + Starts(DeadRuns(m2, SkipDead(m2, p, hi, alive), hi, alive))
    ensures Tiled(m3, p, hi) && Headers(m3, p, hi) == Headers(m2, p, hi) * alive + Starts(DeadRuns(m2, p, hi, alive))
  {
    hide Tiled, Headers, DeadRuns, Starts, SizeOf, SkipDead;
    FirstRun(m2, p, hi, alive);
    var r := SkipDead(m2, p, hi, alive);
    FirstHeader(m3, p, hi, r);
    StartsCons(Chunk(p, r - p), DeadRuns(m2, r, hi, alive));
    AddDead(Headers(m2, r, hi), alive, Starts(DeadRuns(m2, r, hi, alive)), p);
  }

  lemma NextLive(m2: seq<Cell>, p: nat, hi: nat, alive: set<nat>)
    requires Tiled(m2, p, hi) && p < hi && p in alive
    ensures p + 2 <= Next(m2, p) && Tiled(m2, Next(m2, p), hi)
    ensures DeadRuns(m2, p, hi, alive) == DeadRuns(m2, Next(m2, p), hi, alive)
  {
  }

  lemma FirstRun(m2: seq<Cell>, p: nat, hi: nat, alive: set<nat>)
    requires Tiled(m2, p, hi) && p < hi && p !in alive
    ensures var r := SkipDead(m2, p, hi, alive);
            && p + 2 <= r && DeadRuns(m2, p, hi, alive) == [Chunk(p, r - p)] + DeadRuns(m2, r, hi, alive)
            && Headers(m2, p, hi) * alive == Headers(m2, r, hi) * alive
  {
    var r := SkipDead(m2, p, hi, alive);
    forall h: nat
      ensures h in Headers(m2, p, hi) * alive <==> h in Headers(m2, r, hi) * alive
    {
      if h in Headers(m2, p, hi) * alive {
        HeaderBounds(m2, p, hi, h);
        DeadIsSkipped(m2, p, hi, alive, h);
      }
      if h in Headers(m2, r, hi) * alive {
        SkipDeadHeaders(m2, p, hi, alive, h);
      }
    }
  }

  lemma {:induction false} SkipDeadHeaders(m2: seq<Cell>, p: nat, hi: nat, alive: set<nat>, h: nat)
    requires Tiled(m2, p, hi) && h in Headers(m2, SkipDead(m2, p, hi, alive), hi)
    ensures h in Headers(m2, p, hi)
    decreases hi - p
  {
    if p < hi && p !in alive {
      SkipDeadHeaders(m2, Next(m2, p), hi, alive, h);
    }
  }

  /** A collection that did not compact the heap, once it has been swept. */
  ghost predicate SweptOutcome(o: Outcome, m3: seq<Cell>, m2: seq<Cell>) {
    && !o.compacted && Traced(o.g, m2) && LaidOut(o.g.classOf) && o.t.lo == o.g.lo && o.t.hi == o.g.hi
    && Clean(m3, m2, o.g.lo, o.g.hi, o.g.reachable)
  }

  lemma SurvivedStill(o: Outcome, m3: seq<Cell>, m2: seq<Cell>, h: nat)
    requires SweptOutcome(o, m3, m2) && h in o.g.reachable
    ensures Survived(o, m3, m2, h)
  {
    hide Traced, Clean, LaidOut, PointerSlots, Tiled, Headers, Next, KindOf, SizeOf, IsMarked, WithoutMark;
    TracedTiling(o.g, m2);
    TracedHeader(o.g, m2, h);
    CleanLength(m3, m2, o.g.lo, o.g.hi, o.g.reachable);
    CleanCell(m3, m2, o.g.lo, o.g.hi, o.g.reachable, h, h);
    forall x: nat | h < x < Next(m2, h)
      ensures m3[x] == m2[x]
    {
      CleanCell(m3, m2, o.g.lo, o.g.hi, o.g.reachable, h, x);
    }
  }

  lemma SweptSizes(m3: seq<Cell>, m2: seq<Cell>, lo: nat, hi: nat, alive: set<nat>)
    requires Clean(m3, m2, lo, hi, alive) && Tiled(m2, lo, hi)
    ensures SizesKept(m3, m2, lo, hi, alive)
  {
    CleanFacts(m3, m2, lo, hi, alive);
    hide Clean, Tiled, Headers, SizeOf, DeadRuns, WithoutMark;
    forall h | h in Headers(m2, lo, hi) && h in alive
      ensures h < |m2| && SizeOf(m3[h]) == SizeOf(m2[h])
    {
      HeaderBounds(m2, lo, hi, h);
      CleanCell(m3, m2, lo, hi, alive, h, h);
      MarkKeepsSizeAndKind(m2[h]);
    }
    var chunks := DeadRuns(m2, lo, hi, alive);
    forall c | c in chunks
      ensures 2 <= c.cells && c.End() <= hi && SizeOf(m3[c.start]) == c.cells - HEADERSIZE
    {
      var k :| 0 <= k < |chunks| && chunks[k] == c;
    }
  }

  lemma FreeSwept(m3: seq<Cell>, m2: seq<Cell>, lo: nat, hi: nat, alive: set<nat>)
    requires Clean(m3, m2, lo, hi, alive)
    ensures Tiled(m2, lo, hi) && Free(m3, hi, DeadRuns(m2, lo, hi, alive), Link(DeadRuns(m2, lo, hi, alive), 0))
  {
    CleanFacts(m3, m2, lo, hi, alive);
    hide Sweepable, LiveKept, Tiled, DeadRuns, Linked, ChunkHeader;
    var chunks := DeadRuns(m2, lo, hi, alive);
    forall c | c in chunks
      ensures 2 <= c.cells && c.End() <= hi && m3[c.start] == ChunkHeader(c.cells)
    {
      var k :| 0 <= k < |chunks| && chunks[k] == c;
    }
  }

  /** The state after a collection that did not compact the heap. */
  lemma CollectedStill(o: Outcome, m3: seq<Cell>, m2: seq<Cell>)
    requires SweptOutcome(o, m3, m2)
    ensures Tiled(m2, o.g.lo, o.g.hi)
    ensures var chunks := DeadRuns(m2, o.g.lo, o.g.hi, o.g.reachable);
            AfterCollection(o, m3, m2, chunks, Link(chunks, 0))
  {
    hide Traced, Clean, LaidOut, PointerSlots, Tiled, Headers, Survived, DeadRuns, Free, Starts;
    TracedTiling(o.g, m2);
    CleanLength(m3, m2, o.g.lo, o.g.hi, o.g.reachable);
    forall h | h in o.g.reachable
      ensures Survived(o, m3, m2, h)
    {
      SurvivedStill(o, m3, m2, h);
    }
    SweptSizes(m3, m2, o.g.lo, o.g.hi, o.g.reachable);
    SweptRow(m3, m2, o.g.lo, o.g.hi, o.g.reachable);
    assert Headers(m2, o.g.lo, o.g.hi) * o.g.reachable == o.g.reachable;
    assert Places(o) == o.g.reachable;
    FreeSwept(m3, m2, o.g.lo, o.g.hi, o.g.reachable);
  }

  /** The live objects end where the free space starts. */
  lemma PlaceEnds(m2: seq<Cell>, lo: nat, hi: nat, alive: set<nat>, h: nat)
    requires Tiled(m2, lo, hi) && h in Headers(m2, lo, hi) && h in alive
    ensures Tiled(m2, lo, h) && h < |m2| && NewIndex(m2, lo, h, alive) + (Next(m2, h) - h) <= EndOf(m2, lo, hi, alive)
  {
    TiledUpTo(m2, lo, hi, h);
    NewIndexNext(m2, lo, h, hi, alive);
    var q := Next(m2, h);
    DeadCellsSplit(m2, lo, q, hi, alive);
    DeadCellsFit(m2, q, hi, alive);
  }

  ghost predicate SameBelow(m: seq<Cell>, m5: seq<Cell>, end: nat) {
    |m| == |m5| && forall k {:trigger m[k]} | 0 <= k < end && k < |m| :: m[k] == m5[k]
  }

  /** Writing behind the live objects leaves them alone. */
  lemma MovedStill(classOf: Cell -> Class, m: seq<Cell>, m5: seq<Cell>, m2: seq<Cell>, t: Table, alive: set<nat>)
    requires AllMovedTo(classOf, m5, m2, t, alive) && Tiled(m2, t.lo, t.hi) && |m| == |m5|
    requires SameBelow(m, m5, EndOf(m2, t.lo, t.hi, alive))
    ensures AllMovedTo(classOf, m, m2, t, alive)
  {
    hide NewIndex, Tiled, Headers, MovedTo, EndOf, SameBelow;
    forall h | h in alive
      ensures Tiled(m2, t.lo, h) && MovedTo(classOf, m, NewIndex(m2, t.lo, h, alive), m2, h, t)
    {
      PlaceEnds(m2, t.lo, t.hi, alive, h);
      MovedToKept(classOf, m, m5, NewIndex(m2, t.lo, h, alive), m2, h, t, EndOf(m2, t.lo, t.hi, alive));
    }
  }

  lemma MovedToKept(classOf: Cell -> Class, m: seq<Cell>, m5: seq<Cell>, n: nat, m2: seq<Cell>, h: nat, t: Table,
                    end: nat)
    requires MovedTo(classOf, m5, n, m2, h, t) && h < |m2| && n + (Next(m2, h) - h) <= end && |m| == |m5|
    requires SameBelow(m, m5, end)
    ensures MovedTo(classOf, m, n, m2, h, t)
  {
    hide PointerSlots, Relocated, Swept, Next;
    forall x: nat | h < x < Next(m2, h)
      ensures m[x - h + n] == if x in PointerSlots(classOf, m2, h) then Relocated(t, m2[x]) else m2[x]
    {
      assert m2[x] == m2[x];
    }
  }

  /** The free space behind the live objects, as one chunk; there is none when nothing was dead. */
  function FreeRest(end: nat, hi: nat): seq<Chunk> {
    if end < hi then [Chunk(end, hi - end)] else []
  }

  /**
   * A collection that compacted the heap, once all pointers have been rewritten and the free space has become a chunk.
   */
  ghost predicate CompactedOutcome(o: Outcome, m5: seq<Cell>, m2: seq<Cell>, end: nat) {
    && o.compacted && Traced(o.g, m2) && LaidOut(o.g.classOf) && o.t.lo == o.g.lo && o.t.hi == o.g.hi
    && Tiled(m2, o.g.lo, o.g.hi) && o.t.chunks == DeadRuns(m2, o.g.lo, o.g.hi, o.g.reachable)
    && end == EndOf(m2, o.g.lo, o.g.hi, o.g.reachable) <= o.g.hi && |m5| == |m2|
    && AllMovedTo(o.g.classOf, m5, m2, o.t, o.g.reachable)
    && (end < o.g.hi ==>
          end + 2 <= o.g.hi <= |m5| <= MAX_CELLS && m5[end] == ChunkHeader(o.g.hi - end) && m5[end + 1] == NULL)
  }

  lemma SurvivedMoved(o: Outcome, m5: seq<Cell>, m2: seq<Cell>, end: nat, h: nat)
    requires CompactedOutcome(o, m5, m2, end) && h in o.g.reachable
    ensures Survived(o, m5, m2, h)
  {
    hide Traced, LaidOut, PointerSlots, Tiled, Headers, Next, WithoutMark, NewIndex, Relocated, Swept, EndOf, DeadRuns,
      ChunkHeader;
    PlaceIs(o, m2, h);
    assert MovedTo(o.g.classOf, m5, NewIndex(m2, o.g.lo, h, o.g.reachable), m2, h, o.t);
  }

  lemma {:induction false} HeadersJoin(m: seq<Cell>, lo: nat, x: nat, hi: nat)
    requires Tiled(m, lo, x) && Tiled(m, x, hi)
    ensures Tiled(m, lo, hi) && Headers(m, lo, hi) == Headers(m, lo, x) + Headers(m, x, hi)
    decreases x - lo
  {
    if lo < x {
      HeadersJoin(m, Next(m, lo), x, hi);
    }
  }

  lemma RestRow(m5: seq<Cell>, end: nat, hi: nat)
    requires end <= hi <= |m5|
    requires end < hi ==> end + 2 <= hi <= |m5| <= MAX_CELLS && m5[end] == ChunkHeader(hi - end) && m5[end + 1] == NULL
    ensures Tiled(m5, end, hi) && Headers(m5, end, hi) == Starts(FreeRest(end, hi))
    ensures |m5| <= MAX_CELLS ==> Free(m5, hi, FreeRest(end, hi), Link(FreeRest(end, hi), 0))
  {
    if end < hi {
      ChunkHeaderFacts(hi - end);
      hide ChunkHeader, SizeOf;
      assert Tiled(m5, hi, hi) && Headers(m5, hi, hi) == {};
      FirstHeader(m5, end, hi, hi);
      assert FreeRest(end, hi) == [Chunk(end, hi - end)];
      assert Starts([Chunk(end, hi - end)]) == {end};
    }
  }

  lemma PlacesMoved(o: Outcome, m2: seq<Cell>)
    requires o.compacted && Traced(o.g, m2)
    ensures Tiled(m2, o.g.lo, o.g.lo) && Tiled(m2, o.g.lo, o.g.hi)
    ensures Places(o) == NewHeaders(m2, o.g.lo, o.g.lo, o.g.hi, o.g.reachable)
  {
    TracedTiling(o.g, m2);
    assert Tiled(m2, o.g.lo, o.g.lo);
    hide Traced, Tiled, Headers, NewIndex, NewHeaders;
    var places := NewHeaders(m2, o.g.lo, o.g.lo, o.g.hi, o.g.reachable);
    forall h | h in o.g.reachable
      ensures o.Place(h) in places
    {
      PlaceIs(o, m2, h);
      NewHeaderOf(m2, o.g.lo, o.g.lo, o.g.hi, o.g.reachable, h);
    }
    forall n | n in places
      ensures n in Places(o)
    {
      var h := OldHeaderOf(m2, o.g.lo, o.g.lo, o.g.hi, o.g.reachable, n);
      PlaceIs(o, m2, h);
    }
  }

  /** The state after a collection that compacted the heap. */
  lemma CollectedMoved(o: Outcome, m5: seq<Cell>, m2: seq<Cell>, end: nat)
    requires CompactedOutcome(o, m5, m2, end)
    ensures AfterCollection(o, m5, m2, FreeRest(end, o.g.hi), Link(FreeRest(end, o.g.hi), 0))
  {
    hide Traced, LaidOut, Tiled, Headers, Survived, DeadRuns, Free, Starts, AllMovedTo, EndOf, NewHeaders, Places,
      FreeRest, ChunkHeader;
    TracedFacts(o.g, m2);
    forall h | h in o.g.reachable
      ensures Survived(o, m5, m2, h)
    {
      SurvivedMoved(o, m5, m2, end, h);
    }
    MovedRow(o.g.classOf, m5, m2, o.t, o.g.reachable);
    PlacesMoved(o, m2);
    RestRow(m5, end, o.g.hi);
    HeadersJoin(m5, o.g.lo, end, o.g.hi);
  }

  lemma TracedCollectable(g: Start, m2: seq<Cell>)
    requires Traced(g, m2) && LaidOut(g.classOf)
    ensures Tiled(m2, g.lo, g.hi) && Collectable(g.classOf, m2, g.lo, g.hi, g.reachable)
  {
    TracedTiling(g, m2);
    hide Traced, LaidOut, Tiled, Headers, Fits, Updatable;
    forall h | h in g.reachable
      ensures Fits(g.classOf, m2, h) && Updatable(g.classOf, m2, h)
    {
      TracedFits(g, m2, h);
    }
  }

  /** The free cells of a collection: everything that is not part of a live object. */
  ghost function FreeCells(g: Start): nat {
    if Tiled(g.m0, g.lo, g.hi) then DeadCells(g.m0, g.lo, g.hi, g.reachable) else 0
  }

  lemma FreeCellsAre(g: Start, m2: seq<Cell>)
    requires Traced(g, m2)
    ensures Tiled(m2, g.lo, g.hi) && FreeCells(g) == DeadCells(m2, g.lo, g.hi, g.reachable)
    ensures EndOf(m2, g.lo, g.hi, g.reachable) == g.hi - FreeCells(g)
  {
    hide Traced, Tiled, Headers, SizeOf, DeadCells;
    TracedFacts(g, m2);
    TracedTiling(g, m2);
    forall h | h in Headers(g.m0, g.lo, g.hi)
      ensures h < |m2| && SizeOf(m2[h]) == SizeOf(g.m0[h])
    {
      TracedHeader(g, m2, h);
    }
    SameDead(m2, g.m0, g.lo, g.hi, g.reachable);
  }

  /** Turns the space behind the live objects into the only free chunk. */
  method MakeFreeChunk(mem: array<Cell>, freeStart: nat, currentHeapEnd: nat) returns (firstFreeChunk: Cell)
    requires freeStart <= currentHeapEnd <= mem.Length <= MAX_CELLS
    requires (freeStart < currentHeapEnd ==> freeStart + 2 <= currentHeapEnd)
    modifies mem
    ensures firstFreeChunk == Link(FreeRest(freeStart, currentHeapEnd), 0)
    ensures SameBelow(mem[..], old(mem[..]), freeStart)
    ensures freeStart < currentHeapEnd ==>
              mem[freeStart] == ChunkHeader(currentHeapEnd - freeStart) && mem[freeStart + 1] == NULL
  {
    if freeStart < currentHeapEnd - 1 {
      firstFreeChunk := CELL * freeStart;
      mem[freeStart] := (currentHeapEnd - freeStart - HEADERSIZE) * TYPEBITS;
      mem[freeStart + 1] := NULL;
    } else {
      firstFreeChunk := NULL;
    }
  }

  /** The dead cells make room for at least one chunk header, or there are none. */
  lemma FreeRestFits(m3: seq<Cell>, g: Start, m2: seq<Cell>, end: nat)
    requires Traced(g, m2) && Clean(m3, m2, g.lo, g.hi, g.reachable) && Tiled(m2, g.lo, g.hi)
    requires end == EndOf(m2, g.lo, g.hi, g.reachable)
    ensures g.lo <= end <= g.hi && (end < g.hi ==> end + 2 <= g.hi) && end == g.hi - FreeCells(g)
  {
    hide Traced, Tiled, Headers, Clean, Swept, DeadRuns, Linked;
    FreeCellsAre(g, m2);
    CleanFacts(m3, m2, g.lo, g.hi, g.reachable);
    var chunks := DeadRuns(m2, g.lo, g.hi, g.reachable);
    DeadBounds(g.lo, g.hi, chunks, |chunks|);
  }

  lemma FreeRestSwept(m3: seq<Cell>, g: Start, m2: seq<Cell>)
    requires Traced(g, m2) && Clean(m3, m2, g.lo, g.hi, g.reachable)
    ensures FreeCells(g) <= g.hi && Swept(g.lo, g.hi, FreeRest(g.hi - FreeCells(g), g.hi))
  {
    hide Traced, Clean, Tiled, FreeCells, DeadRuns, Linked, DeadCells, EndOf;
    CleanFacts(m3, m2, g.lo, g.hi, g.reachable);
    FreeRestFits(m3, g, m2, EndOf(m2, g.lo, g.hi, g.reachable));
  }

  /** Compacts a swept heap whose chunks are all too small. */
  method CompactHeap(mem: array<Cell>, currentHeap: nat, currentHeapEnd: nat, firstFree: Cell, classOf: Cell -> Class,
                     roots: RootSet,
                 ghost g: Start, ghost m2: seq<Cell>)
    returns (firstFreeChunk: Cell, ghost o: Outcome)
    requires Traced(g, m2) && LaidOut(classOf) && g.classOf == classOf && g.lo == currentHeap && g.hi == currentHeapEnd
    requires Tiled(m2, g.lo, g.hi) && Clean(mem[..], m2, g.lo, g.hi, g.reachable)
    requires firstFree == Link(DeadRuns(m2, g.lo, g.hi, g.reachable), 0)
    requires roots.variables != mem && roots.Now().Distinct()
    modifies mem, roots.variables, roots.temporaryRoots
    ensures o.g == g && o.compacted && FreeCells(g) <= g.hi
    ensures AfterCollection(o, mem[..], m2, FreeRest(g.hi - FreeCells(g), g.hi), firstFreeChunk)
    ensures RootsMoved(roots.Now(), old(roots.Now()), o.t)
  {
    hide Traced, LaidOut, Tiled, Headers, Clean, Roots.Distinct, AllMovedTo, RootsMoved, EndOf, DeadRuns, Linked,
      Collectable, AfterCollection,
      FreeRest, ChunkHeader, FreeCells, SameBelow, Swept;
    ghost var m3 := mem[..];
    TracedCollectable(g, m2);
    CleanFacts(m3, m2, g.lo, g.hi, g.reachable);
    ghost var t;
    var freeStart;
    freeStart, t := CompactAndUpdate(mem, currentHeap, currentHeapEnd, firstFree, classOf, roots, m2, g.reachable);
    o := Outcome(g, true, t);
    ghost var m5 := mem[..];
    FreeRestFits(m3, g, m2, freeStart);
    firstFreeChunk := MakeFreeChunk(mem, freeStart, currentHeapEnd);
    MovedStill(classOf, mem[..], m5, m2, t, g.reachable);
    CollectedMoved(o, mem[..], m2, freeStart);
  }

  /** A heap and its roots before a collection. */
  ghost predicate Ready(classOf: Cell -> Class, m: seq<Cell>, lo: nat, hi: nat, r: Roots) {
    AtRest(classOf, m, lo, hi) && LaidOut(classOf) && r.Sound(m, lo, hi) && r.Distinct()
  }

  /** A collection that started with the heap m0 and the roots r0, and has left the heap m5 and the roots r. */
  ghost predicate Collection(o: Outcome, classOf: Cell -> Class, m0: seq<Cell>, lo: nat, hi: nat, r0: Roots,
                             m5: seq<Cell>, r: Roots, m2: seq<Cell>, chunks: seq<Chunk>, first: Cell)
  {
    && o.g == Start(classOf, m0, lo, hi, o.g.reachable)
    && Tiled(m0, lo, hi) && o.g.reachable == Alive(classOf, m0, lo, hi, r0)
    && AfterCollection(o, m5, m2, chunks, first)
    && if o.compacted then RootsMoved(r, r0, o.t) else r == r0
  }

  /** The chunks hold all the free cells; either one of them is large enough for the request, or there is only one. */
  ghost predicate Defragmented(o: Outcome, chunks: seq<Chunk>, realSize: nat) {
    Dead(chunks, |chunks|) == FreeCells(o.g) && (|chunks| <= 1 || exists c | c in chunks :: realSize <= c.cells)
  }

  /**
   * A garbage collection.  Afterwards the heap is a row of the objects that can be reached from the roots, in their old
   * order, and of free chunks.  Either one of the chunks is as large as requested, or all free cells are in one chunk.
   * Objects are moved exactly if no run of dead cells is larger than the request.
   */
  method GarbageCollectForReal(mem: array<Cell>, currentHeap: nat, currentHeapEnd: nat, classOf: Cell -> Class,
                               roots: RootSet, realSize: nat)
    returns (firstFreeChunk: Cell, calls: seq<Finalization>, ghost o: Outcome, ghost m2: seq<Cell>,
             ghost chunks: seq<Chunk>)
    requires Ready(classOf, mem[..], currentHeap, currentHeapEnd, roots.Now()) && roots.variables != mem
    modifies mem, roots.variables, roots.temporaryRoots
    ensures Collection(o, classOf, old(mem[..]), currentHeap, currentHeapEnd, old(roots.Now()), mem[..], roots.Now(),
                       m2, chunks, firstFreeChunk)
    ensures FinalizedOnce(o.g, m2, calls) && Defragmented(o, chunks, realSize)
    ensures Swept(currentHeap, currentHeapEnd, chunks)
    ensures Tiled(m2, currentHeap, currentHeapEnd)
    ensures o.compacted <==>
              0 < realSize && forall c | c in DeadRuns(m2, currentHeap, currentHeapEnd, o.g.reachable) ::
                c.cells <= realSize
  {
    hide AtRest, Traced, LaidOut, Tiled, Headers, Clean, Roots.Distinct, Roots.Sound, RootsMoved, EndOf, DeadRuns,
      AfterCollection,
      FreeRest, FreeCells, Alive, FinalizedOnce, LargestSize, Sweepable, Swept;
    ghost var r0 := roots.Now();
    ghost var g;
    calls, g := TraceHeap(mem, currentHeap, currentHeapEnd, classOf, roots);
    m2 := mem[..];
    TracedTiling(g, m2);
    var maximumFreeSize;
    firstFreeChunk, maximumFreeSize := SweepTheHeap(mem, currentHeap, currentHeapEnd, g.reachable);
    assert roots.Now() == r0;
    ghost var m3 := mem[..];
    CleanFacts(m3, m2, g.lo, g.hi, g.reachable);
    LargestExceeded(DeadRuns(m2, g.lo, g.hi, g.reachable), maximumFreeSize, realSize);
    if realSize > maximumFreeSize {
      firstFreeChunk, o := CompactHeap(mem, currentHeap, currentHeapEnd, firstFreeChunk, classOf, roots, g, m2);
      chunks := FreeRest(g.hi - FreeCells(g), g.hi);
      FreeRestSwept(m3, g, m2);
      RestDefragmented(o, realSize);
    } else {
      o := Outcome(g, false, Table(currentHeap, currentHeapEnd, [], 0, 0));
      CollectedStill(o, mem[..], m2);
      chunks := DeadRuns(m2, g.lo, g.hi, g.reachable);
      FreeCellsAre(g, m2);
      LargestFits(chunks, maximumFreeSize, realSize);
    }
  }

  lemma LargestExceeded(chunks: seq<Chunk>, size: nat, realSize: nat)
    requires LargestSize(chunks, size)
    ensures realSize > size <==> 0 < realSize && forall c | c in chunks :: c.cells <= realSize
  {
    if realSize > size {
      forall c | c in chunks
        ensures c.cells <= realSize
      {
        var j :| 0 <= j < |chunks| && chunks[j] == c;
      }
    } else if size > 0 {
      var j :| 0 <= j < |chunks| && chunks[j].cells - HEADERSIZE == size;
      assert chunks[j] in chunks;
    }
  }

  lemma RestDefragmented(o: Outcome, realSize: nat)
    requires FreeCells(o.g) <= o.g.hi
    ensures Defragmented(o, FreeRest(o.g.hi - FreeCells(o.g), o.g.hi), realSize)
  {
    hide FreeCells;
    var chunks := FreeRest(o.g.hi - FreeCells(o.g), o.g.hi);
    if chunks != [] {
      assert Dead(chunks, 1) == Dead(chunks, 0) + chunks[0].cells;
    }
  }

  lemma LargestFits(chunks: seq<Chunk>, size: nat, realSize: nat)
    requires LargestSize(chunks, size) && realSize <= size
    ensures |chunks| <= 1 || exists c | c in chunks :: realSize <= c.cells
  {
    if realSize > 0 {
      var j :| 0 <= j < |chunks| && chunks[j].cells - HEADERSIZE == size;
      assert chunks[j] in chunks;
    } else if chunks != [] {
      assert chunks[0] in chunks;
    }
  }
}
