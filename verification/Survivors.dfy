/**
 * Where the live objects of a swept heap end up when they slide together, and that they form a row of objects again.
 */
module Survivors {
  import opened Cells
  import opened FreeList
  import opened Objects
  import opened HeapShape
  import opened Sweeping

  lemma {:induction false} DeadCellsFit(m: seq<Cell>, p: nat, x: nat, marked: set<nat>)
    requires Tiled(m, p, x)
    ensures DeadCells(m, p, x, marked) <= x - p
    decreases x - p
  {
    if p < x {
      DeadCellsFit(m, Next(m, p), x, marked);
    }
  }

  /** Where the object at the boundary h moves to: down by the dead cells below it. */
  ghost function NewIndex(m: seq<Cell>, lo: nat, h: nat, marked: set<nat>): (n: nat)
    requires Tiled(m, lo, h)
    ensures lo <= n <= h
  {
    DeadCellsFit(m, lo, h, marked);
    h - DeadCells(m, lo, h, marked)
  }

  /** The next boundary moves by as much if the object is marked, and to the same place if it is not. */
  lemma NewIndexNext(m: seq<Cell>, lo: nat, h: nat, hi: nat, marked: set<nat>)
    requires Tiled(m, lo, h) && Tiled(m, h, hi) && h < hi
    ensures h + 2 <= Next(m, h) <= hi && Tiled(m, lo, Next(m, h)) && Tiled(m, Next(m, h), hi)
    ensures NewIndex(m, lo, Next(m, h), marked) == NewIndex(m, lo, h, marked)
                                                 + (if h in marked then Next(m, h) - h else 0)
  {
    assert Tiled(m, h, Next(m, h));
    DeadCellsSplit(m, lo, h, Next(m, h), marked);
    assert DeadCells(m, Next(m, h), Next(m, h), marked) == 0;
  }

  /** The places of the marked objects at or behind p. */
  ghost function NewHeaders(m: seq<Cell>, lo: nat, p: nat, hi: nat, marked: set<nat>): set<nat>
    requires Tiled(m, lo, p) && Tiled(m, p, hi)
    decreases hi - p
  {
    if p == hi then {}
    else
      NewIndexNext(m, lo, p, hi, marked);
      (if p in marked then {NewIndex(m, lo, p, marked)} else {}) + NewHeaders(m, lo, Next(m, p), hi, marked)
  }

  lemma {:induction false} NewHeaderOf(m: seq<Cell>, lo: nat, p: nat, hi: nat, marked: set<nat>, h: nat)
    requires Tiled(m, lo, p) && Tiled(m, p, hi) && h in Headers(m, p, hi) && h in marked
    ensures Tiled(m, lo, h) && NewIndex(m, lo, h, marked) in NewHeaders(m, lo, p, hi, marked)
    decreases hi - p
  {
    NewIndexNext(m, lo, p, hi, marked);
    if h != p {
      NewHeaderOf(m, lo, Next(m, p), hi, marked, h);
    }
  }

  lemma {:induction false} OldHeaderOf(m: seq<Cell>, lo: nat, p: nat, hi: nat, marked: set<nat>,
                                       n: nat) returns (h: nat)
    requires Tiled(m, lo, p) && Tiled(m, p, hi) && n in NewHeaders(m, lo, p, hi, marked)
    ensures h in Headers(m, p, hi) && h in marked && Tiled(m, lo, h) && n == NewIndex(m, lo, h, marked)
    decreases hi - p
  {
    NewIndexNext(m, lo, p, hi, marked);
    if p in marked && n == NewIndex(m, lo, p, marked) {
      h := p;
    } else {
      h := OldHeaderOf(m, lo, Next(m, p), hi, marked, n);
    }
  }

  /** m4 has the sizes of the marked objects of m at their new places. */
  ghost predicate SizesMoved(m4: seq<Cell>, m: seq<Cell>, lo: nat, hi: nat, marked: set<nat>)
    requires Tiled(m, lo, hi)
  {
    forall h | h in Headers(m, lo, hi) && h in marked :: SizeMoved(m4, m, lo, marked, h)
  }

  ghost predicate SizeMoved(m4: seq<Cell>, m: seq<Cell>, lo: nat, marked: set<nat>, h: nat) {
    h < |m| && Tiled(m, lo, h) && NewIndex(m, lo, h, marked) < |m4|
      && SizeOf(m4[NewIndex(m, lo, h, marked)]) == SizeOf(m[h])
  }

  /** The objects that slid together form a row again, in the same order. */
  lemma {:induction false} SlidTiling(m4: seq<Cell>, m: seq<Cell>, lo: nat, p: nat, hi: nat, marked: set<nat>)
    requires Tiled(m, lo, p) && Tiled(m, p, hi) && Tiled(m, lo, hi) && hi <= |m4|
    requires SizesMoved(m4, m, lo, hi, marked) && forall h | h in Headers(m, p, hi) :: h in Headers(m, lo, hi)
    ensures Tiled(m4, NewIndex(m, lo, p, marked), NewIndex(m, lo, hi, marked))
    ensures Headers(m4, NewIndex(m, lo, p, marked), NewIndex(m, lo, hi, marked)) == NewHeaders(m, lo, p, hi, marked)
    decreases hi - p
  {
    if p < hi {
      NewIndexNext(m, lo, p, hi, marked);
      var q := Next(m, p);
      assert Headers(m, p, hi) == {p} + Headers(m, q, hi);
      SlidTiling(m4, m, lo, q, hi, marked);
      if p in marked {
        assert SizeMoved(m4, m, lo, marked, p);
      }
    }
  }

  /** Marked objects keep their order and do not overlap. */
  lemma NewIndexAscends(m: seq<Cell>, lo: nat, hi: nat, marked: set<nat>, h: nat, k: nat)
    requires Tiled(m, lo, hi) && h in Headers(m, lo, hi) && h in marked && k in Headers(m, lo, hi) && h < k
    ensures h < |m| && Tiled(m, lo, h) && Tiled(m, lo, k)
    ensures NewIndex(m, lo, h, marked) + SizeOf(m[h]) + HEADERSIZE <= NewIndex(m, lo, k, marked)
  {
    HeadersApart(m, lo, hi, h, k);
    TiledUpTo(m, lo, hi, h);
    TiledUpTo(m, lo, hi, k);
    NewIndexNext(m, lo, h, hi, marked);
    var q := Next(m, h);
    NextHeader(m, lo, hi, h);
    TiledBetween(m, lo, q, k, hi);
    DeadCellsSplit(m, lo, q, k, marked);
    DeadCellsFit(m, q, k, marked);
  }

  /** The row between two headers. */
  lemma {:induction false} TiledBetween(m: seq<Cell>, lo: nat, p: nat, q: nat, hi: nat)
    requires Tiled(m, lo, hi) && p in Headers(m, lo, hi) && q in Headers(m, lo, hi) && p <= q
    ensures Tiled(m, p, q)
    decreases hi - lo
  {
    if p == lo {
      TiledUpTo(m, lo, hi, q);
    } else {
      HeaderBounds(m, lo, hi, p);
      assert q != lo by {
        HeaderBounds(m, Next(m, lo), hi, p);
      }
      TiledBetween(m, Next(m, lo), p, q, hi);
    }
  }

  /** The cells of the k-th live group in the sequence of everything live. */
  lemma {:induction false} LiveUpToAt(m: seq<Cell>, lo: nat, hi: nat, chunks: seq<Chunk>, n: nat, k: nat, x: nat)
    requires Swept(lo, hi, chunks) && hi <= |m| && k < n <= |chunks| + 1
    requires GroupStart(lo, chunks, k) <= x < GroupEnd(hi, chunks, k)
    ensures lo + Dead(chunks, k) <= x && x - lo - Dead(chunks, k) < |LiveUpTo(m, lo, hi, chunks, n)|
    ensures LiveUpTo(m, lo, hi, chunks, n)[x - lo - Dead(chunks, k)] == m[x]
  {
    hide LiveUpTo, Swept;
    DeadBounds(lo, hi, chunks, k);
    LiveStep(m, lo, hi, chunks, n - 1);
    var front := LiveUpTo(m, lo, hi, chunks, n - 1);
    if k < n - 1 {
      LiveUpToAt(m, lo, hi, chunks, n - 1, k, x);
    } else {
      LiveLength(m, lo, hi, chunks, k);
      assert x - lo - Dead(chunks, k) == |front| + (x - GroupStart(lo, chunks, k));
    }
  }

  lemma LiveLength(m: seq<Cell>, lo: nat, hi: nat, chunks: seq<Chunk>, k: nat)
    requires Swept(lo, hi, chunks) && hi <= |m| && k <= |chunks|
    ensures |LiveUpTo(m, lo, hi, chunks, k)| == GroupStart(lo, chunks, k) - lo - Dead(chunks, k)
  {
  }

  /** A cell of a marked object after sliding. */
  lemma SlidCell(m4: seq<Cell>, m3: seq<Cell>, m: seq<Cell>, lo: nat, hi: nat, marked: set<nat>, h: nat, x: nat)
    requires Clean(m3, m, lo, hi, marked) && Tiled(m, lo, hi) && Swept(lo, hi, DeadRuns(m, lo, hi, marked))
    requires hi <= |m3|
    requires Holds(m4, lo, Live(m3, lo, hi, DeadRuns(m, lo, hi, marked)))
    requires h in Headers(m, lo, hi) && h in marked && h < |m| && h <= x < Next(m, h)
    ensures Tiled(m, lo, h) && DeadCells(m, lo, h, marked) <= x - lo
    ensures x - DeadCells(m, lo, h, marked) < |m4| && x < |m3| && m4[x - DeadCells(m, lo, h, marked)] == m3[x]
  {
    hide Clean, Holds, Swept, DeadRuns, Tiled, Headers, Next, LiveUpTo;
    var chunks := DeadRuns(m, lo, hi, marked);
    var k := LiveGroup(m, lo, hi, marked, h);
    LiveStep(m3, lo, hi, chunks, k);
    LiveUpToAt(m3, lo, hi, chunks, |chunks| + 1, k, x);
    HoldsAt(m4, lo, Live(m3, lo, hi, chunks), x - lo - Dead(chunks, k));
  }

  /** What sweeping has left of a marked object: everything but its mark. */
  lemma CleanCell(m3: seq<Cell>, m: seq<Cell>, lo: nat, hi: nat, marked: set<nat>, h: nat, x: nat)
    requires Clean(m3, m, lo, hi, marked) && Tiled(m, lo, hi) && h in Headers(m, lo, hi) && h in marked && h < |m|
    requires h <= x < Next(m, h)
    ensures x < |m3| == |m| && m3[x] == if x == h then WithoutMark(m[h]) else m[x]
  {
    HeaderBounds(m, lo, hi, h);
    if h < x {
      assert InLiveBody(m, lo, hi, marked, x);
    }
  }
}
