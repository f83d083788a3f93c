/** 32-bit cells, byte addresses and blocks of memory (garbage.h, global.h). */
module Cells {

  const CELL := 4

  /** A heap cell: an unsigned 32-bit word. */
  type Cell = x: int | 0 <= x < 0x1_0000_0000

  /** The memory the collector works on has at most 2^24 cells: the size field of a header has 24 bits. */
  const MAX_CELLS := 0x100_0000

  const HEADERSIZE := 1
  const NULL: Cell := 0

  /** The byte address of a cell. */
  function Address(index: nat): (p: Cell)
    requires index <= MAX_CELLS
  {
    CELL * index
  }

  /** The cell that a byte address points into. */
  function Index(p: Cell): nat {
    p / CELL
  }

  lemma TakeOfRest(s: seq<Cell>, a: nat, b: nat)
    requires a + b <= |s|
    ensures s[..a] + s[a..][..b] == s[..a + b]
  {
  }

  lemma JoinThenSplit(a: seq<Cell>, b: seq<Cell>)
    ensures (a + b)[..|a|] == a && (a + b)[|a|..] == b
  {
  }

  lemma NoFront(s: seq<Cell>)
    ensures [] + s == s
  {
  }

  lemma DropOfRest(s: seq<Cell>, a: nat, b: nat)
    requires a + b <= |s|
    ensures s[a..][b..] == s[a + b..]
  {
  }

  lemma Whole(s: seq<Cell>)
    ensures s[..|s|] == s && s[..0] == [] && s[0..] == s
  {
  }

  /** The block c is stored in m at p. */
  ghost predicate Holds(m: seq<Cell>, p: nat, c: seq<Cell>) {
    p + |c| <= |m| && m[p..p + |c|] == c
  }

  /** Memory outside [lo, hi) is the same in m and m0. */
  ghost predicate Framed(m: seq<Cell>, m0: seq<Cell>, lo: nat, hi: nat) {
    lo <= hi <= |m| && |m| == |m0| && m[..lo] == m0[..lo] && m[hi..] == m0[hi..]
  }

  lemma HoldsFromCells(m: seq<Cell>, p: nat, c: seq<Cell>)
    requires p + |c| <= |m|
    requires forall k {:trigger m[k]} | p <= k < p + |c| :: m[k] == c[k - p]
    ensures Holds(m, p, c)
  {
  }

  lemma FramedFromCells(m: seq<Cell>, m0: seq<Cell>, lo: nat, hi: nat)
    requires lo <= hi <= |m| && |m| == |m0|
    requires forall k {:trigger m[k]} | 0 <= k < |m| && !(lo <= k < hi) :: m[k] == m0[k]
    ensures Framed(m, m0, lo, hi)
  {
  }

  lemma HoldsFits(m: seq<Cell>, p: nat, c: seq<Cell>)
    requires Holds(m, p, c)
    ensures p + |c| <= |m|
  {
  }

  lemma HoldsAt(m: seq<Cell>, p: nat, c: seq<Cell>, k: nat)
    requires Holds(m, p, c) && k < |c|
    ensures p + |c| <= |m| && m[p + k] == c[k]
  {
    assert m[p + k] == m[p..p + |c|][k];
  }

  lemma HoldsSplit(m: seq<Cell>, p: nat, c: seq<Cell>, d: nat)
    requires Holds(m, p, c) && d <= |c|
    ensures Holds(m, p, c[..d]) && Holds(m, p + d, c[d..])
  {
    forall k | p <= k < p + |c|
      ensures m[k] == c[k - p]
    {
      HoldsAt(m, p, c, k - p);
    }
    HoldsFromCells(m, p, c[..d]);
    HoldsFromCells(m, p + d, c[d..]);
  }

  lemma HoldsJoin(m: seq<Cell>, p: nat, a: seq<Cell>, b: seq<Cell>)
    requires Holds(m, p, a) && Holds(m, p + |a|, b)
    ensures Holds(m, p, a + b)
  {
    assert m[p..p + |a + b|] == m[p..p + |a|] + m[p + |a|..p + |a| + |b|];
  }

  /** A block outside the frame did not change. */
  lemma HoldsKept(m: seq<Cell>, m0: seq<Cell>, lo: nat, hi: nat, p: nat, c: seq<Cell>)
    requires Framed(m, m0, lo, hi) && Holds(m0, p, c) && (p + |c| <= lo || hi <= p)
    ensures Holds(m, p, c)
  {
    forall k | p <= k < p + |c|
      ensures m[k] == c[k - p]
    {
      HoldsAt(m0, p, c, k - p);
      assert if k < lo then m[k] == m[..lo][k] && m0[k] == m0[..lo][k]
             else m[k] == m[hi..][k - hi] && m0[k] == m0[hi..][k - hi];
    }
    HoldsFromCells(m, p, c);
  }

  lemma FramedAt(m: seq<Cell>, m0: seq<Cell>, lo: nat, hi: nat, k: nat)
    requires Framed(m, m0, lo, hi) && k < |m| && (k < lo || hi <= k)
    ensures m[k] == m0[k]
  {
    assert if k < lo then m[k] == m[..lo][k] && m0[k] == m0[..lo][k]
           else m[k] == m[hi..][k - hi] && m0[k] == m0[hi..][k - hi];
  }

  /** Two framed steps are one, framed by any range that covers both. */
  lemma FramedTrans(m2: seq<Cell>, m1: seq<Cell>, m0: seq<Cell>, a: nat, b: nat, c: nat, d: nat, lo: nat, hi: nat)
    requires Framed(m1, m0, a, b) && Framed(m2, m1, c, d)
    requires lo <= a && lo <= c && b <= hi && d <= hi <= |m2|
    ensures Framed(m2, m0, lo, hi)
  {
    forall k | 0 <= k < |m2| && !(lo <= k < hi)
      ensures m2[k] == m0[k]
    {
      FramedAt(m2, m1, c, d, k);
      FramedAt(m1, m0, a, b, k);
    }
    FramedFromCells(m2, m0, lo, hi);
  }

  lemma FramedWiden(m: seq<Cell>, m0: seq<Cell>, a: nat, b: nat, lo: nat, hi: nat)
    requires Framed(m, m0, a, b) && lo <= a && b <= hi <= |m|
    ensures Framed(m, m0, lo, hi)
  {
    FramedTrans(m, m, m0, a, b, a, a, lo, hi);
  }

  /** Moves the cells [source, source + |block|) to `target`, whatever the overlap. */
  method Memmove(mem: array<Cell>, target: nat, source: nat, count: nat, ghost block: seq<Cell>)
    requires count == |block| && target + count <= mem.Length && Holds(mem[..], source, block)
    modifies mem
    ensures Holds(mem[..], target, block)
    ensures Framed(mem[..], old(mem[..]), target, target + count)
  {
    ghost var m := mem[..];
    forall k | source <= k < source + count
      ensures m[k] == block[k - source]
    {
      HoldsAt(m, source, block, k - source);
    }
    forall i | target <= i < target + count {
      mem[i] := mem[i - target + source];
    }
    HoldsFromCells(mem[..], target, block);
    FramedFromCells(mem[..], m, target, target + count);
  }
}
