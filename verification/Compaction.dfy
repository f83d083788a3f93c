/** compactTheHeap: the live groups slide to the bottom of the heap, leaving a break table in the space they free. */
module Compaction {
  import opened Cells
  import opened FreeList
  import opened BreakTable
  import SlideObject
  import opened BreakTableSort

  /** The entries collected so far: those before lastRoll may be out of order. */
  ghost predicate Collected(entries: seq<Break>, expected: seq<Break>, lastRoll: nat) {
    && |entries| == |expected| && lastRoll <= |entries|
    && multiset(entries[..lastRoll]) == multiset(expected[..lastRoll])
    && entries[lastRoll..] == expected[lastRoll..]
  }

  lemma CollectedLength(entries: seq<Break>, expected: seq<Break>, lastRoll: nat)
    requires Collected(entries, expected, lastRoll)
    ensures |entries| == |expected| && lastRoll <= |entries|
  {
  }

  lemma CollectedAll(entries: seq<Break>, expected: seq<Break>, lastRoll: nat)
    requires Collected(entries, expected, lastRoll)
    ensures multiset(entries) == multiset(expected)
  {
    assert entries == entries[..lastRoll] + entries[lastRoll..];
    assert expected == expected[..lastRoll] + expected[lastRoll..];
  }

  /** Rolling the table and adding the next entry keeps the collected entries. */
  lemma CollectedNext(entries: seq<Break>, expected: seq<Break>, lastRoll: nat, newLastRoll: nat, turn: nat,
                      next: Break)
    requires Collected(entries, expected, lastRoll) && turn <= |entries|
    requires (newLastRoll == lastRoll && turn == 0) || newLastRoll == |entries|
    ensures Collected(entries[turn..] + entries[..turn] + [next], expected + [next], newLastRoll)
  {
    var rolled := entries[turn..] + entries[..turn];
    if newLastRoll == |entries| {
      CollectedAll(entries, expected, lastRoll);
      assert entries == entries[..turn] + entries[turn..];
      assert (rolled + [next])[..newLastRoll] == rolled;
      assert (expected + [next])[..newLastRoll] == expected;
      assert (rolled + [next])[newLastRoll..] == [next] == (expected + [next])[newLastRoll..];
    } else {
      assert rolled == entries;
      assert (entries + [next])[..lastRoll] == entries[..lastRoll];
      assert (expected + [next])[..lastRoll] == expected[..lastRoll];
      assert (entries + [next])[lastRoll..] == entries[lastRoll..] + [next];
      assert (expected + [next])[lastRoll..] == expected[lastRoll..] + [next];
    }
  }

  /** Writes the entry behind the last one of the table. */
  method AddEntry(mem: array<Cell>, table: nat, count: nat, next: Break, ghost entries: seq<Break>)
    requires count == |entries| && table + 2 * count + 2 <= mem.Length && Holds(mem[..], table, CellsOf(entries))
    modifies mem
    ensures Holds(mem[..], table, CellsOf(entries + [next]))
    ensures Framed(mem[..], old(mem[..]), table + 2 * count, table + 2 * count + 2)
  {
    hide Holds, Framed;
    ghost var m := mem[..];
    var p := table + 2 * count;
    mem[p] := next.address;
    mem[p + 1] := next.offset;
    FramedFromCells(mem[..], m, p, p + 2);
    HoldsKept(mem[..], m, p, p + 2, table, CellsOf(entries));
    HoldsFromCells(mem[..], p, [next.address, next.offset]);
    HoldsJoin(mem[..], table, CellsOf(entries), [next.address, next.offset]);
    CellsOfJoin(entries, [next]);
    assert CellsOf([next]) == [next.address, next.offset] by {
      assert [next][..0] == [];
    }
  }

  /**
   * Moves live group number count + 1, which ends where the free space before `scanner` starts, and enters it in the
   * table.
   */
  method MoveGroup(mem: array<Cell>, copyTarget: nat, live: nat, liveEnd: nat, scanner: nat,
                   table: nat, count: nat, lastRoll: nat, ghost entries: seq<Break>, ghost group: seq<Cell>)
    returns (newTable: nat, newLastRoll: nat, ghost turn: nat)
    requires copyTarget + 2 * count + 2 <= live && live + 2 <= liveEnd <= scanner <= mem.Length <= MAX_CELLS
    requires count == |entries| && |group| == liveEnd - live && Holds(mem[..], live, group)
    requires 0 < count ==> copyTarget <= table && table + 2 * count <= live && Holds(mem[..], table, CellsOf(entries))
    modifies mem
    ensures turn <= count && ((newLastRoll == lastRoll && turn == 0) || newLastRoll == count)
    ensures copyTarget + |group| <= newTable && newTable + 2 * count + 2 <= scanner
    ensures Holds(mem[..], copyTarget, group)
    ensures Holds(mem[..], newTable, CellsOf(entries[turn..] + entries[..turn]
                                             + [Break(Address(live), Address(live - copyTarget))]))
    ensures Framed(mem[..], old(mem[..]), copyTarget, scanner)
  {
    hide Holds, Framed;
    ghost var m := mem[..];
    var liveSize := liveEnd - live;
    if count == 0 {
      Memmove(mem, copyTarget, live, liveSize, group);
      newTable := scanner - 2;
      newLastRoll, turn := lastRoll, 0;
      FramedWiden(mem[..], m, copyTarget, copyTarget + liveSize, copyTarget, scanner);
      HoldsFromCells(mem[..], newTable, []);
    } else {
      newTable, newLastRoll, turn :=
        SlideObject.SlideObject(mem, copyTarget, live, liveSize, scanner - liveEnd, table, count, lastRoll,
                                CellsOf(entries), group);
      CellsOfRotated(entries, turn);
    }
    ghost var rolled := entries[turn..] + entries[..turn];
    ghost var m1 := mem[..];
    var p := newTable + 2 * count;
    AddEntry(mem, newTable, count, Break(Address(live), Address(live - copyTarget)), rolled);
    HoldsKept(mem[..], m1, p, p + 2, copyTarget, group);
    FramedTrans(mem[..], m1, m, copyTarget, scanner, p, p + 2, copyTarget, scanner);
  }

  /** The number of live groups that have to move. */
  function Moved(hi: nat, chunks: seq<Chunk>): (n: nat)
    ensures n <= |chunks|
  {
    if chunks != [] && chunks[|chunks| - 1].End() == hi then |chunks| - 1 else |chunks|
  }

  /** Sorting the collected entries gives exactly the expected ones. */
  lemma SortedAsExpected(entries: seq<Break>, expected: seq<Break>, sorted: seq<Break>, lastRoll: nat)
    requires Collected(entries, expected, lastRoll) && StrictlyAscending(expected)
    requires |sorted| == |entries| && sorted[lastRoll..] == entries[lastRoll..]
    requires multiset(sorted[..lastRoll]) == multiset(entries[..lastRoll]) && Ascending(sorted[..lastRoll])
    ensures sorted == expected
  {
    SortedIsUnique(sorted[..lastRoll], expected[..lastRoll]);
    assert sorted == sorted[..lastRoll] + sorted[lastRoll..];
    assert expected == expected[..lastRoll] + expected[lastRoll..];
  }

  lemma {:induction false} GroupsAscend(lo: nat, hi: nat, chunks: seq<Chunk>, i: nat, j: nat)
    requires Swept(lo, hi, chunks) && i < j <= |chunks|
    ensures GroupStart(lo, chunks, i) + 2 <= GroupStart(lo, chunks, j)
  {
    if i + 1 < j {
      GroupsAscend(lo, hi, chunks, i, j - 1);
    }
    DeadBounds(lo, hi, chunks, j - 1);
  }

  lemma BreaksAscend(lo: nat, hi: nat, chunks: seq<Chunk>, n: nat)
    requires Swept(lo, hi, chunks) && n <= |chunks|
    ensures StrictlyAscending(Breaks(lo, hi, chunks, n))
  {
    var entries := Breaks(lo, hi, chunks, n);
    forall i, j | 0 <= i < j < n
      ensures entries[i].address < entries[j].address
    {
      BreaksAt(lo, hi, chunks, n, i);
      BreaksAt(lo, hi, chunks, n, j);
      GroupsAscend(lo, hi, chunks, i + 1, j + 1);
    }
  }

  /** Where scanning goes on after the first g live groups. */
  function ScanPoint(lo: nat, hi: nat, chunks: seq<Chunk>, g: nat): nat
    requires g <= |chunks| + 1
  {
    if g <= |chunks| then GroupStart(lo, chunks, g) else hi
  }

  /**
   * The first g live groups lie at the bottom of the heap, and the table has an entry for each of them but the first.
   */
  ghost predicate Compacted(m: seq<Cell>, m0: seq<Cell>, lo: nat, hi: nat, chunks: seq<Chunk>, g: nat,
                            copyTarget: nat, table: nat, entries: seq<Break>, lastRoll: nat)
  {
    && Swept(lo, hi, chunks) && hi <= |m0|
    && 1 <= g <= |chunks| + 1
    && copyTarget + Dead(chunks, g - 1) == GroupEnd(hi, chunks, g - 1)
    && Holds(m, lo, LiveUpTo(m0, lo, hi, chunks, g))
    && Collected(entries, Breaks(lo, hi, chunks, g - 1), lastRoll)
    && (1 < g ==> copyTarget <= table && table + 2 * (g - 1) <= ScanPoint(lo, hi, chunks, g)
                  && Holds(m, table, CellsOf(entries)))
    && lo <= ScanPoint(lo, hi, chunks, g)
    && Framed(m, m0, lo, ScanPoint(lo, hi, chunks, g))
  }

  /** The first live group stays where it is. */
  lemma FirstGroup(m: seq<Cell>, lo: nat, hi: nat, chunks: seq<Chunk>)
    requires Swept(lo, hi, chunks) && hi <= |m|
    ensures Compacted(m, m, lo, hi, chunks, 1, GroupEnd(hi, chunks, 0), 0, [], 0)
  {
    hide Holds, Framed, LiveUpTo, Swept, CellsOf, Collected;
    DeadBounds(lo, hi, chunks, 0);
    if 1 <= |chunks| {
      DeadBounds(lo, hi, chunks, 1);
    }
    FirstLive(m, lo, hi, chunks);
    NothingCollected(lo, hi, chunks);
    FramedSelf(m, lo, ScanPoint(lo, hi, chunks, 1));
  }

  lemma FirstLive(m: seq<Cell>, lo: nat, hi: nat, chunks: seq<Chunk>)
    requires Swept(lo, hi, chunks) && hi <= |m|
    ensures Holds(m, lo, LiveUpTo(m, lo, hi, chunks, 1))
  {
    hide Holds, LiveUpTo, Swept, GroupEnd;
    DeadBounds(lo, hi, chunks, 0);
    LiveStep(m, lo, hi, chunks, 0);
    var group := m[lo..GroupEnd(hi, chunks, 0)];
    NoFront(group);
    HoldsFromCells(m, lo, group);
  }

  lemma NothingCollected(lo: nat, hi: nat, chunks: seq<Chunk>)
    requires Swept(lo, hi, chunks)
    ensures Collected([], Breaks(lo, hi, chunks, 0), 0)
  {
  }

  lemma FramedSelf(m: seq<Cell>, lo: nat, hi: nat)
    requires lo <= hi <= |m|
    ensures Framed(m, m, lo, hi)
  {
  }

  /** Reads the next chunk of the free list: the bounds of the live group before it and the next link. */
  method NextChunk(mem: array<Cell>, currentHeapEnd: nat, freeChunk: Cell,
                   ghost m: seq<Cell>, ghost lo: nat, ghost chunks: seq<Chunk>, ghost g: nat)
    returns (liveEnd: nat, scanner: nat, next: Cell)
    requires Swept(lo, currentHeapEnd, chunks) && Linked(m, chunks) && g <= |chunks| && 0 < lo
    requires currentHeapEnd <= |m| == mem.Length
    requires lo <= GroupStart(lo, chunks, g) <= |m| && Framed(mem[..], m, lo, GroupStart(lo, chunks, g))
    requires freeChunk == Link(chunks, g)
    ensures liveEnd == GroupEnd(currentHeapEnd, chunks, g)
    ensures scanner == ScanPoint(lo, currentHeapEnd, chunks, g + 1)
    ensures g < |chunks| ==> next == Link(chunks, g + 1)
  {
    hide Framed, Swept, Dead, Linked, GroupStart, GroupEnd, ScanPoint, Link, SizeOf;
    ChunkRead(mem[..], m, lo, currentHeapEnd, chunks, g);
    if freeChunk != NULL {
      liveEnd := Index(freeChunk);
      scanner := liveEnd + SizeOf(mem[liveEnd]) + HEADERSIZE;
      next := mem[liveEnd + 1];
    } else {
      liveEnd := currentHeapEnd;
      scanner := currentHeapEnd;
      next := NULL;
    }
  }

  /** The link and the header of the next chunk, which compaction has not reached yet. */
  lemma ChunkRead(m1: seq<Cell>, m: seq<Cell>, lo: nat, hi: nat, chunks: seq<Chunk>, g: nat)
    requires Swept(lo, hi, chunks) && Linked(m, chunks) && g <= |chunks| && 0 < lo && hi <= |m| == |m1|
    requires lo <= GroupStart(lo, chunks, g) <= |m| && Framed(m1, m, lo, GroupStart(lo, chunks, g))
    ensures Link(chunks, g) != NULL ==>
              && g < |chunks| && GroupEnd(hi, chunks, g) == Link(chunks, g) / CELL && GroupEnd(hi, chunks, g) + 1 < |m1|
              && GroupEnd(hi, chunks, g) + SizeOf(m1[GroupEnd(hi, chunks, g)]) + HEADERSIZE == ScanPoint(lo, hi,
                  chunks, g + 1)
              && m1[GroupEnd(hi, chunks, g) + 1] == Link(chunks, g + 1)
    ensures Link(chunks, g) == NULL ==>
              g == |chunks| && GroupEnd(hi, chunks, g) == hi == ScanPoint(lo, hi, chunks, g + 1)
  {
    hide Framed, Dead, SizeOf, Swept, Linked;
    if g < |chunks| {
      ChunkLinked(m, lo, hi, chunks, g);
      DeadBounds(lo, hi, chunks, g);
      FramedAt(m1, m, lo, GroupStart(lo, chunks, g), chunks[g].start);
      FramedAt(m1, m, lo, GroupStart(lo, chunks, g), chunks[g].start + 1);
    }
  }

  lemma ChunkLinked(m: seq<Cell>, lo: nat, hi: nat, chunks: seq<Chunk>, g: nat)
    requires Swept(lo, hi, chunks) && Linked(m, chunks) && g < |chunks|
    ensures lo <= chunks[g].start && 2 <= chunks[g].cells && chunks[g].End() <= hi && chunks[g].End() <= |m|
    ensures chunks[g].start + SizeOf(m[chunks[g].start]) + HEADERSIZE == chunks[g].End()
    ensures m[chunks[g].start + 1] == Link(chunks, g + 1)
  {
    hide SizeOf;
  }

  /** Moves live group g, the one behind those already compacted. */
  method CompactGroup(mem: array<Cell>, copyTarget: nat, live: nat, liveEnd: nat, scanner: nat, table: nat, count: nat,
                      lastRoll: nat, ghost m: seq<Cell>, ghost lo: nat, ghost hi: nat, ghost chunks: seq<Chunk>,
                      ghost entries: seq<Break>)
    returns (newTarget: nat, newTable: nat, newLastRoll: nat, ghost newEntries: seq<Break>)
    requires hi <= |m| == mem.Length <= MAX_CELLS && count + 1 <= |chunks|
    requires live == GroupStart(lo, chunks, count + 1) < hi && liveEnd == GroupEnd(hi, chunks, count + 1)
    requires scanner == ScanPoint(lo, hi, chunks, count + 2)
    requires Compacted(mem[..], m, lo, hi, chunks, count + 1, copyTarget, table, entries, lastRoll)
    modifies mem
    ensures Compacted(mem[..], m, lo, hi, chunks, count + 2, newTarget, newTable, newEntries, newLastRoll)
  {
    hide Holds, Framed, LiveUpTo, CellsOf, Collected, Swept, Compacted, Breaks, GroupStart, GroupEnd, ScanPoint;
    ghost var m1 := mem[..];
    GroupFacts(m1, m, lo, hi, chunks, count, copyTarget, live, liveEnd, scanner, table, entries, lastRoll);
    ghost var group := m[live..liveEnd];
    ghost var turn;
    newTable, newLastRoll, turn :=
      MoveGroup(mem, copyTarget, live, liveEnd, scanner, table, count, lastRoll, entries, group);
    newEntries := entries[turn..] + entries[..turn] + [Break(Address(live), Address(live - copyTarget))];
    newTarget := copyTarget + (liveEnd - live);
    GroupDone(mem[..], m1, m, lo, hi, chunks, count, copyTarget, live, liveEnd, scanner, table, entries, lastRoll,
              newTable, newLastRoll, turn);
  }

  /** What is known of a live group before it moves. */
  lemma GroupFacts(m1: seq<Cell>, m: seq<Cell>, lo: nat, hi: nat, chunks: seq<Chunk>, count: nat,
                   copyTarget: nat, live: nat, liveEnd: nat, scanner: nat, table: nat, entries: seq<Break>,
                   lastRoll: nat)
    requires hi <= |m| == |m1| <= MAX_CELLS && count + 1 <= |chunks|
    requires live == GroupStart(lo, chunks, count + 1) < hi && liveEnd == GroupEnd(hi, chunks, count + 1)
    requires scanner == ScanPoint(lo, hi, chunks, count + 2)
    requires Compacted(m1, m, lo, hi, chunks, count + 1, copyTarget, table, entries, lastRoll)
    ensures copyTarget + 2 * count + 2 <= live && live + 2 <= liveEnd <= scanner <= hi
    ensures count == |entries| && Holds(m1, live, m[live..liveEnd])
    ensures 0 < count ==> copyTarget <= table && table + 2 * count <= live && Holds(m1, table, CellsOf(entries))
  {
    hide Holds, Framed, LiveUpTo, CellsOf, Collected;
    var g := count + 1;
    CollectedLength(entries, Breaks(lo, hi, chunks, count), lastRoll);
    DeadBounds(lo, hi, chunks, count);
    DeadBounds(lo, hi, chunks, g);
    HoldsFromCells(m, live, m[live..liveEnd]);
    HoldsKept(m1, m, lo, live, live, m[live..liveEnd]);
  }

  /** The state after a live group has moved. */
  lemma GroupDone(m2: seq<Cell>, m1: seq<Cell>, m: seq<Cell>, lo: nat, hi: nat, chunks: seq<Chunk>, count: nat,
                  copyTarget: nat, live: nat, liveEnd: nat, scanner: nat, table: nat, entries: seq<Break>,
                  lastRoll: nat, newTable: nat, newLastRoll: nat, turn: nat)
    requires hi <= |m| == |m1| == |m2| <= MAX_CELLS && count + 1 <= |chunks| && count == |entries|
    requires copyTarget <= live == GroupStart(lo, chunks, count + 1) < hi && liveEnd == GroupEnd(hi, chunks, count + 1)
    requires scanner == ScanPoint(lo, hi, chunks, count + 2) && live <= liveEnd <= scanner
    requires Compacted(m1, m, lo, hi, chunks, count + 1, copyTarget, table, entries, lastRoll)
    requires turn <= count && ((newLastRoll == lastRoll && turn == 0) || newLastRoll == count)
    requires copyTarget + (liveEnd - live) <= newTable && newTable + 2 * count + 2 <= scanner
    requires Holds(m2, copyTarget, m[live..liveEnd])
    requires Holds(m2, newTable,
                   CellsOf(entries[turn..] + entries[..turn] + [Break(Address(live), Address(live - copyTarget))]))
    requires Framed(m2, m1, copyTarget, scanner)
    ensures Compacted(m2, m, lo, hi, chunks, count + 2, copyTarget + (liveEnd - live), newTable,
                      entries[turn..] + entries[..turn] + [Break(Address(live),
                          Address(live - copyTarget))], newLastRoll)
  {
    hide Holds, Framed, LiveUpTo, CellsOf, Collected;
    var g := count + 1;
    var done, group := LiveUpTo(m, lo, hi, chunks, g), m[live..liveEnd];
    DeadBounds(lo, hi, chunks, count);
    DeadBounds(lo, hi, chunks, g);
    LiveStep(m, lo, hi, chunks, g);
    CollectedNext(entries, Breaks(lo, hi, chunks, count), lastRoll, newLastRoll, turn,
                  Break(Address(live), Address(live - copyTarget)));
    HoldsKept(m2, m1, copyTarget, scanner, lo, done);
    HoldsJoin(m2, lo, done, group);
    FramedTrans(m2, m1, m, lo, live, copyTarget, scanner, lo, scanner);
  }

  /** Sorts the entries that rolling left out of order. */
  method RestoreOrder(mem: array<Cell>, table: nat, lastRoll: nat, freeStart: nat, ghost m: seq<Cell>, ghost lo: nat,
                      ghost hi: nat,
                      ghost entries: seq<Break>, ghost expected: seq<Break>, ghost live: seq<Cell>)
    requires 0 < lastRoll && Collected(entries, expected, lastRoll) && StrictlyAscending(expected)
    requires lo + |live| <= freeStart <= table && table + 2 * |entries| <= hi <= mem.Length
    requires Holds(mem[..], lo, live) && Holds(mem[..], table, CellsOf(entries)) && Framed(mem[..], m, lo, hi)
    modifies mem
    ensures Holds(mem[..], lo, live) && Holds(mem[..], table, CellsOf(expected)) && Framed(mem[..], m, lo, hi)
  {
    hide Holds, Framed, CellsOf;
    ghost var m1 := mem[..];
    ghost var end := table + 2 * |entries|;
    ghost var sorted := SortBreakTable(mem, table, lastRoll, entries);
    SortedAsExpected(entries, expected, sorted, lastRoll);
    HoldsKept(mem[..], m1, table, end, lo, live);
    FramedTrans(mem[..], m1, m, lo, hi, table, end, lo, hi);
  }

  /** The state when the scan stands at live group count + 1 (counting from 0). */
  ghost predicate AtGroup(mem: seq<Cell>, m: seq<Cell>, lo: nat, hi: nat, chunks: seq<Chunk>, count: int, scanner: nat,
                          freeChunk: Cell, copyTarget: nat, table: nat, entries: seq<Break>, lastRoll: nat)
  {
    && 0 <= count + 1 <= |chunks| && Swept(lo, hi, chunks) && hi <= |m| == |mem|
    && scanner == GroupStart(lo, chunks, count + 1) && freeChunk == Link(chunks, count + 1)
    && if count < 0 then mem == m && table == 0 && lastRoll == 0
       else scanner < hi && Compacted(mem, m, lo, hi, chunks, count + 1, copyTarget, table, entries, lastRoll)
  }

  /** One live group: reads the free chunk behind it and, unless it is the first one, moves it. */
  method ScanGroup(mem: array<Cell>, currentHeapEnd: nat, count: int, scanner: nat, freeChunk: Cell,
                   copyTarget: nat, table: nat, lastRoll: nat,
                   ghost m: seq<Cell>, ghost lo: nat, ghost chunks: seq<Chunk>, ghost entries: seq<Break>)
    returns (newScanner: nat, newFree: Cell, newTarget: nat, newTable: nat, newLastRoll: nat,
             ghost newEntries: seq<Break>)
    requires AtGroup(mem[..], m, lo, currentHeapEnd, chunks, count, scanner, freeChunk, copyTarget, table, entries,
                     lastRoll)
    requires Linked(m, chunks) && 0 < lo && mem.Length <= MAX_CELLS
    modifies mem
    ensures newScanner == ScanPoint(lo, currentHeapEnd, chunks, count + 2)
    ensures count + 1 < |chunks| ==> newFree == Link(chunks, count + 2)
    ensures Compacted(mem[..], m, lo, currentHeapEnd, chunks, count + 2, newTarget, newTable, newEntries, newLastRoll)
  {
    hide Holds, Framed, Linked, Compacted;
    ghost var hi := currentHeapEnd;
    if count < 0 {
      FramedFromCells(m, m, lo, lo);
    } else {
      CompactedFrame(mem[..], m, lo, hi, chunks, count + 1, copyTarget, table, entries, lastRoll);
    }
    DeadBounds(lo, hi, chunks, count + 1);
    var liveEnd;
    liveEnd, newScanner, newFree := NextChunk(mem, currentHeapEnd, freeChunk, m, lo, chunks, count + 1);
    if count < 0 {
      FirstGroup(m, lo, hi, chunks);
      newTarget, newTable, newLastRoll, newEntries := liveEnd, table, lastRoll, [];
    } else {
      newTarget, newTable, newLastRoll, newEntries :=
        CompactGroup(mem, copyTarget, scanner, liveEnd, newScanner, table, count, lastRoll, m, lo, hi, chunks, entries);
    }
  }

  /** The main loop: one live group at a time, until the scan reaches the end of the heap. */
  method MoveGroups(mem: array<Cell>, currentHeap: nat, currentHeapEnd: nat, firstFreeChunk: Cell,
                    ghost chunks: seq<Chunk>)
    returns (copyTarget: nat, table: nat, count: int, lastRoll: nat, ghost entries: seq<Break>)
    requires Swept(currentHeap, currentHeapEnd, chunks) && currentHeapEnd <= mem.Length <= MAX_CELLS
    requires Linked(mem[..], chunks) && firstFreeChunk == Link(chunks, 0)
    requires 0 < currentHeap
    modifies mem
    ensures 0 <= count + 1 <= |chunks| && ScanPoint(currentHeap, currentHeapEnd, chunks, count + 2) >= currentHeapEnd
    ensures 0 < count + 1 ==> GroupStart(currentHeap, chunks, count + 1) < currentHeapEnd
    ensures Compacted(mem[..], old(mem[..]), currentHeap, currentHeapEnd, chunks, count + 2, copyTarget, table,
                      entries, lastRoll)
  {
    hide Linked, Compacted, Swept;
    ghost var m := mem[..];
    ghost var lo, hi := currentHeap, currentHeapEnd;
    var scanner: nat, freeChunk: Cell := currentHeap, firstFreeChunk;
    copyTarget, table, count, lastRoll, entries := currentHeap, 0, -1, 0, [];
    while true
      invariant AtGroup(mem[..], m, lo, hi, chunks, count, scanner, freeChunk, copyTarget, table, entries, lastRoll)
      decreases |chunks| - count
    {
      scanner, freeChunk, copyTarget, table, lastRoll, entries :=
        ScanGroup(mem, currentHeapEnd, count, scanner, freeChunk, copyTarget, table, lastRoll, m, lo, chunks, entries);
      if scanner >= currentHeapEnd {
        break;
      }
      count := count + 1;
    }
  }

  /**
   * Slides all live groups down to the bottom of the heap.  What is left between currentHeap and freeStart are the live
   * cells, in order; the break table lies behind them and has one entry for each group that moved, in address order.
   */
  method CompactTheHeap(mem: array<Cell>, currentHeap: nat, currentHeapEnd: nat, firstFreeChunk: Cell,
                        ghost chunks: seq<Chunk>)
    returns (freeStart: nat, table: nat, length: nat)
    requires Swept(currentHeap, currentHeapEnd, chunks) && currentHeapEnd <= mem.Length <= MAX_CELLS
    requires Linked(mem[..], chunks) && firstFreeChunk == Link(chunks, 0)
    requires 0 < currentHeap
    modifies mem
    ensures length == Moved(currentHeapEnd, chunks)
    ensures freeStart == currentHeapEnd - Dead(chunks, |chunks|)
    ensures Holds(mem[..], currentHeap, Live(old(mem[..]), currentHeap, currentHeapEnd, chunks))
    ensures 0 < length ==> freeStart <= table && table + 2 * length <= currentHeapEnd
    ensures 0 < length ==> Holds(mem[..], table, CellsOf(Breaks(currentHeap, currentHeapEnd, chunks, length)))
    ensures Framed(mem[..], old(mem[..]), currentHeap, currentHeapEnd)
  {
    hide Holds, Framed, Linked, Compacted, Collected, CellsOf, Live, Dead, Moved;
    ghost var m := mem[..];
    ghost var lo, hi := currentHeap, currentHeapEnd;
    ghost var entries;
    var count, lastRoll;
    freeStart, table, count, lastRoll, entries := MoveGroups(mem, currentHeap, currentHeapEnd, firstFreeChunk, chunks);
    length := count + 1;
    AllCompacted(mem[..], m, lo, hi, chunks, length + 1, freeStart, table, entries, lastRoll);
    CollectedLength(entries, Breaks(lo, hi, chunks, length), lastRoll);
    if lastRoll > 0 {
      BreaksAscend(lo, hi, chunks, length);
      RestoreOrder(mem, table, lastRoll, freeStart, m, lo, hi, entries, Breaks(lo, hi, chunks, length),
                   Live(m, lo, hi, chunks));
    }
  }

  lemma CompactedFrame(m: seq<Cell>, m0: seq<Cell>, lo: nat, hi: nat, chunks: seq<Chunk>, g: nat,
                       copyTarget: nat, table: nat, entries: seq<Break>, lastRoll: nat)
    requires Compacted(m, m0, lo, hi, chunks, g, copyTarget, table, entries, lastRoll)
    ensures g <= |chunks| + 1 && lo <= ScanPoint(lo, hi, chunks, g) && Framed(m, m0, lo, ScanPoint(lo, hi, chunks, g))
  {
  }

  /** Once scanning has reached the end of the heap, everything live is at the bottom of it. */
  lemma AllCompacted(m: seq<Cell>, m0: seq<Cell>, lo: nat, hi: nat, chunks: seq<Chunk>, g: nat,
                     copyTarget: nat, table: nat, entries: seq<Break>, lastRoll: nat)
    requires Compacted(m, m0, lo, hi, chunks, g, copyTarget, table, entries, lastRoll) && g <= |chunks| + 1
    requires ScanPoint(lo, hi, chunks, g) >= hi && (1 < g ==> GroupStart(lo, chunks, g - 1) < hi)
    ensures Swept(lo, hi, chunks) && hi <= |m0|
    ensures g - 1 == Moved(hi, chunks) && copyTarget == hi - Dead(chunks, |chunks|)
    ensures Holds(m, lo, Live(m0, lo, hi, chunks)) && Framed(m, m0, lo, hi)
    ensures Collected(entries, Breaks(lo, hi, chunks, g - 1), lastRoll)
    ensures lastRoll == 0 ==> entries == Breaks(lo, hi, chunks, g - 1)
    ensures 1 < g ==> copyTarget <= table && table + 2 * (g - 1) <= hi && Holds(m, table, CellsOf(entries))
  {
    hide Holds, Framed, LiveUpTo, CellsOf;
    DeadBounds(lo, hi, chunks, g - 1);
    DeadBounds(lo, hi, chunks, |chunks|);
    if g <= |chunks| {
      if g < |chunks| {
        GroupsAscend(lo, hi, chunks, g, |chunks|);
      }
      LiveStep(m0, lo, hi, chunks, g);
      assert m0[hi..hi] == [];
      assert LiveUpTo(m0, lo, hi, chunks, g) + [] == LiveUpTo(m0, lo, hi, chunks, g);
    }
  }
}
