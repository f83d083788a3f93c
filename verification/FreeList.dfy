/** The address-ordered list of free chunks, and the live groups between them (garbage.h, struct chunkStruct). */
module FreeList {
  import opened Cells

  const TYPEBITS := 256   // a header holds its size shifted left by 8 bits

  /** SIZE of a header: the number of cells behind it. */
  function SizeOf(header: Cell): nat {
    header / TYPEBITS
  }

  /** A free chunk: its first cell and its length in cells, header included. */
  datatype Chunk = Chunk(start: nat, cells: nat) {
    function End(): nat {
      start + cells
    }
  }

  /** The byte address of chunk k, or NULL behind the last one. */
  function Link(chunks: seq<Chunk>, k: nat): nat {
    if k < |chunks| then CELL * chunks[k].start else NULL
  }

  /**
   * The chunks that sweeping [lo, hi) leaves: in address order, at least two cells each, maximal (the live groups
   * between them are at least one object of two cells, and so is the one behind the last chunk unless it is empty).
   */
  ghost predicate Swept(lo: nat, hi: nat, chunks: seq<Chunk>) {
    && lo <= hi <= MAX_CELLS
    && (forall k | 0 <= k < |chunks| :: lo <= chunks[k].start && 2 <= chunks[k].cells && chunks[k].End() <= hi)
    && (forall k | 0 <= k < |chunks| - 1 :: chunks[k].End() + 2 <= GroupEnd(hi, chunks, k + 1))
    && (chunks != [] ==> chunks[|chunks| - 1].End() == hi || chunks[|chunks| - 1].End() + 2 <= hi)
  }

  /** The chunk headers and links that memory holds are those of these chunks. */
  ghost predicate Linked(m: seq<Cell>, chunks: seq<Chunk>) {
    forall k | 0 <= k < |chunks| ::
      && chunks[k].End() <= |m| <= MAX_CELLS && 2 <= chunks[k].cells
      && SizeOf(m[chunks[k].start]) == chunks[k].cells - HEADERSIZE
      && m[chunks[k].start + 1] == Link(chunks, k + 1)
  }

  /** The k-th live group starts behind chunk k - 1 and ends where chunk k starts. */
  function GroupStart(lo: nat, chunks: seq<Chunk>, k: nat): nat
    requires k <= |chunks|
  {
    if k == 0 then lo else chunks[k - 1].End()
  }

  function GroupEnd(hi: nat, chunks: seq<Chunk>, k: nat): nat
    requires k <= |chunks|
  {
    if k < |chunks| then chunks[k].start else hi
  }

  /** The cells in the first k chunks. */
  function Dead(chunks: seq<Chunk>, k: nat): nat
    requires k <= |chunks|
  {
    if k == 0 then 0 else Dead(chunks, k - 1) + chunks[k - 1].cells
  }

  /** Group k lies behind at least two free cells for every chunk before it. */
  lemma {:induction false} DeadBounds(lo: nat, hi: nat, chunks: seq<Chunk>, k: nat)
    requires Swept(lo, hi, chunks) && k <= |chunks|
    ensures lo + 2 * k <= lo + Dead(chunks, k) <= GroupStart(lo, chunks, k) <= GroupEnd(hi, chunks, k) <= hi
    ensures 0 < k < |chunks| ==> GroupStart(lo, chunks, k) + 2 <= GroupEnd(hi, chunks, k)
  {
    if k == 0 {
    } else {
      DeadBounds(lo, hi, chunks, k - 1);
    }
  }

  /** The cells of the first k live groups, in address order. */
  ghost function LiveUpTo(m: seq<Cell>, lo: nat, hi: nat, chunks: seq<Chunk>, k: nat): (live: seq<Cell>)
    requires Swept(lo, hi, chunks) && hi <= |m| && k <= |chunks| + 1
    ensures |live| == if k == 0 then 0 else GroupEnd(hi, chunks, k - 1) - lo - Dead(chunks, k - 1)
  {
    if k == 0 then []
    else
      DeadBounds(lo, hi, chunks, k - 1);
      LiveUpTo(m, lo, hi, chunks, k - 1) + m[GroupStart(lo, chunks, k - 1)..GroupEnd(hi, chunks, k - 1)]
  }

  lemma LiveStep(m: seq<Cell>, lo: nat, hi: nat, chunks: seq<Chunk>, k: nat)
    requires Swept(lo, hi, chunks) && hi <= |m| && k <= |chunks|
    ensures GroupStart(lo, chunks, k) <= GroupEnd(hi, chunks, k) <= |m|
    ensures LiveUpTo(m, lo, hi, chunks, k + 1)
         == LiveUpTo(m, lo, hi, chunks, k) + m[GroupStart(lo, chunks, k)..GroupEnd(hi, chunks, k)]
    ensures LiveUpTo(m, lo, hi, chunks, 0) == []
  {
    DeadBounds(lo, hi, chunks, k);
  }

  /** Everything that survives, in address order. */
  ghost function Live(m: seq<Cell>, lo: nat, hi: nat, chunks: seq<Chunk>): (live: seq<Cell>)
    requires Swept(lo, hi, chunks) && hi <= |m|
    ensures |live| == hi - lo - Dead(chunks, |chunks|)
  {
    LiveUpTo(m, lo, hi, chunks, |chunks| + 1)
  }
}
