/** The relocation table: entries of two cells, the old address of a moved group and the bytes it moved. */
module BreakTable {
  import opened Cells
  import opened FreeList
  import SlideObject

  datatype Break = Break(address: Cell, offset: Cell)

  /** The entries as they lie in memory. */
  ghost function CellsOf(entries: seq<Break>): (c: seq<Cell>)
    ensures |c| == 2 * |entries|
  {
    if entries == [] then []
    else
      var last := entries[|entries| - 1];
      CellsOf(entries[..|entries| - 1]) + [last.address, last.offset]
  }

  lemma {:induction false} CellsOfJoin(a: seq<Break>, b: seq<Break>)
    ensures CellsOf(a + b) == CellsOf(a) + CellsOf(b)
  {
    if b == [] {
      assert a + b == a;
    } else {
      var front, last := b[..|b| - 1], b[|b| - 1];
      CellsOfJoin(a, front);
      assert (a + b)[..|a + b| - 1] == a + front;
    }
  }

  /** Rolling the cells by whole entries rolls the entries. */
  lemma CellsOfRotated(entries: seq<Break>, turn: nat)
    requires turn <= |entries|
    ensures SlideObject.Rotate(CellsOf(entries), 2 * turn) == CellsOf(entries[turn..] + entries[..turn])
  {
    hide CellsOf;
    var front, back := entries[..turn], entries[turn..];
    CellsOfJoin(front, back);
    CellsOfJoin(back, front);
    assert front + back == entries;
    JoinThenSplit(CellsOf(front), CellsOf(back));
  }

  lemma {:induction false} CellsOfAt(entries: seq<Break>, k: nat)
    requires k < |entries|
    ensures CellsOf(entries)[2 * k] == entries[k].address && CellsOf(entries)[2 * k + 1] == entries[k].offset
  {
    if k < |entries| - 1 {
      CellsOfAt(entries[..|entries| - 1], k);
    }
  }

  /** The entry for each of the live groups 1 to n: where it was, and how many bytes lie dead below it. */
  ghost function Breaks(lo: nat, hi: nat, chunks: seq<Chunk>, n: nat): (entries: seq<Break>)
    requires Swept(lo, hi, chunks) && n <= |chunks|
    ensures |entries| == n
  {
    if n == 0 then []
    else
      DeadBounds(lo, hi, chunks, n);
      Breaks(lo, hi, chunks, n - 1) + [Break(Address(GroupStart(lo, chunks, n)), Address(Dead(chunks, n)))]
  }

  lemma {:induction false} BreaksAt(lo: nat, hi: nat, chunks: seq<Chunk>, n: nat, k: nat)
    requires Swept(lo, hi, chunks) && k < n <= |chunks|
    ensures Breaks(lo, hi, chunks, n)[k].address == CELL * GroupStart(lo, chunks, k + 1)
    ensures Breaks(lo, hi, chunks, n)[k].offset == CELL * Dead(chunks, k + 1)
  {
    if k < n - 1 {
      BreaksAt(lo, hi, chunks, n - 1, k);
    }
  }
}
