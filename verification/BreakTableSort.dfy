/** sortBreakTable: straight selection sort of the entries that rolling left out of order. */
module BreakTableSort {
  import opened Cells
  import opened BreakTable

  ghost predicate Ascending(entries: seq<Break>) {
    forall i, j | 0 <= i < j < |entries| :: entries[i].address <= entries[j].address
  }

  ghost predicate StrictlyAscending(entries: seq<Break>) {
    forall i, j | 0 <= i < j < |entries| :: entries[i].address < entries[j].address
  }

  ghost function Swapped(s: seq<Break>, i: nat, j: nat): (r: seq<Break>)
    requires i < |s| && j < |s|
  {
    s[i := s[j]][j := s[i]]
  }

  lemma LastIsLargest(a: seq<Break>, b: seq<Break>)
    requires multiset(a) == multiset(b) && Ascending(a) && StrictlyAscending(b) && a != []
    ensures |a| == |b| && a[|a| - 1] == b[|b| - 1]
  {
    assert |a| == |multiset(a)| == |multiset(b)| == |b|;
    var n := |a| - 1;
    assert a[n] in multiset(b) && b[n] in multiset(a);
    var i :| 0 <= i < |b| && b[i] == a[n];
    var j :| 0 <= j < |a| && a[j] == b[n];
  }

  lemma WithoutLast(a: seq<Break>)
    requires a != []
    ensures multiset(a[..|a| - 1]) == multiset(a) - multiset{a[|a| - 1]}
  {
    assert a == a[..|a| - 1] + [a[|a| - 1]];
  }

  lemma FrontAscends(a: seq<Break>)
    requires a != []
    ensures Ascending(a) ==> Ascending(a[..|a| - 1])
    ensures StrictlyAscending(a) ==> StrictlyAscending(a[..|a| - 1])
  {
  }

  /** A sorted list is determined by its elements when their addresses are distinct. */
  lemma {:induction false} SortedIsUnique(a: seq<Break>, b: seq<Break>)
    requires multiset(a) == multiset(b) && Ascending(a) && StrictlyAscending(b)
    ensures a == b
  {
    hide Ascending, StrictlyAscending;
    if a == [] {
      assert |b| == |multiset(b)| == 0;
    } else {
      LastIsLargest(a, b);
      WithoutLast(a);
      WithoutLast(b);
      FrontAscends(a);
      FrontAscends(b);
      SortedIsUnique(a[..|a| - 1], b[..|b| - 1]);
      SameFrontAndLast(a, b);
    }
  }

  lemma SameFrontAndLast(a: seq<Break>, b: seq<Break>)
    requires |a| == |b| > 0 && a[..|a| - 1] == b[..|b| - 1] && a[|a| - 1] == b[|b| - 1]
    ensures a == b
  {
    assert a == a[..|a| - 1] + [a[|a| - 1]];
    assert b == b[..|b| - 1] + [b[|b| - 1]];
  }

  lemma EntryAt(m: seq<Cell>, table: nat, entries: seq<Break>, k: nat)
    requires Holds(m, table, CellsOf(entries)) && k < |entries|
    ensures table + 2 * |entries| <= |m|
    ensures m[table + 2 * k] == entries[k].address && m[table + 2 * k + 1] == entries[k].offset
  {
    hide *;
    CellsOfAt(entries, k);
    HoldsAt(m, table, CellsOf(entries), 2 * k);
    HoldsAt(m, table, CellsOf(entries), 2 * k + 1);
  }

  lemma {:induction false} HoldsEntries(m: seq<Cell>, table: nat, entries: seq<Break>)
    requires table + 2 * |entries| <= |m|
    requires forall k {:trigger entries[k]} | 0 <= k < |entries| ::
               m[table + 2 * k] == entries[k].address && m[table + 2 * k + 1] == entries[k].offset
    ensures Holds(m, table, CellsOf(entries))
  {
    if entries == [] {
    } else {
      var n := |entries| - 1;
      var front := entries[..n];
      forall k {:trigger front[k]} | 0 <= k < |front|
        ensures m[table + 2 * k] == front[k].address && m[table + 2 * k + 1] == front[k].offset
      {
        assert front[k] == entries[k];
      }
      HoldsEntries(m, table, front);
      HoldsFromCells(m, table + 2 * n, [entries[n].address, entries[n].offset]);
      HoldsJoin(m, table, CellsOf(front), [entries[n].address, entries[n].offset]);
    }
  }

  /** Exchanges two entries of the table. */
  lemma SwappedAt(m': seq<Cell>, m: seq<Cell>, table: nat, entries: seq<Break>, i: nat, j: nat, k: nat)
    requires i < |entries| && j < |entries| && k < |entries| && Holds(m, table, CellsOf(entries)) && |m'| == |m|
    requires table + 2 * |entries| <= |m|
    requires m'[table + 2 * i] == m[table + 2 * j] && m'[table + 2 * i + 1] == m[table + 2 * j + 1]
    requires m'[table + 2 * j] == m[table + 2 * i] && m'[table + 2 * j + 1] == m[table + 2 * i + 1]
    requires k != i && k != j ==> m'[table + 2 * k] == m[table + 2 * k] && m'[table + 2 * k + 1] == m[table + 2 * k + 1]
    ensures m'[table + 2 * k] == Swapped(entries, i, j)[k].address
    ensures m'[table + 2 * k + 1] == Swapped(entries, i, j)[k].offset
  {
    hide Holds, CellsOf;
    EntryAt(m, table, entries, i);
    EntryAt(m, table, entries, j);
    EntryAt(m, table, entries, k);
  }

  method SwapEntries(mem: array<Cell>, table: nat, i: nat, j: nat, ghost entries: seq<Break>)
    requires i < |entries| && j < |entries| && Holds(mem[..], table, CellsOf(entries))
    modifies mem
    ensures Holds(mem[..], table, CellsOf(Swapped(entries, i, j)))
    ensures Framed(mem[..], old(mem[..]), table, table + 2 * |entries|)
  {
    ghost var m := mem[..];
    EntryAt(m, table, entries, i);
    EntryAt(m, table, entries, j);
    EntryAt(m, table, entries, |entries| - 1);
    var p, q := table + 2 * i, table + 2 * j;
    var address, offset := mem[q], mem[q + 1];
    mem[q], mem[q + 1] := mem[p], mem[p + 1];
    mem[p], mem[p + 1] := address, offset;
    ghost var swapped := Swapped(entries, i, j);
    forall k {:trigger swapped[k]} | 0 <= k < |swapped|
      ensures mem[table + 2 * k] == swapped[k].address && mem[table + 2 * k + 1] == swapped[k].offset
    {
      SwappedAt(mem[..], m, table, entries, i, j, k);
    }
    HoldsEntries(mem[..], table, swapped);
    FramedFromCells(mem[..], m, table, table + 2 * |entries|);
  }

  /** Position of an entry with the largest address among the first end + 1. */
  method FindLargest(mem: array<Cell>, table: nat, end: nat, ghost entries: seq<Break>) returns (largest: nat)
    requires end < |entries| && Holds(mem[..], table, CellsOf(entries))
    ensures largest <= end
    ensures forall k | 0 <= k <= end :: entries[k].address <= entries[largest].address
  {
    largest := 0;
    var i := 1;
    while i <= end
      invariant 1 <= i <= end + 1 && largest < i
      invariant forall k | 0 <= k < i :: entries[k].address <= entries[largest].address
    {
      EntryAt(mem[..], table, entries, i);
      EntryAt(mem[..], table, entries, largest);
      if mem[table + 2 * i] > mem[table + 2 * largest] {
        largest := i;
      }
      i := i + 1;
    }
  }

  lemma SwapInFront(s: seq<Break>, i: nat, j: nat, n: nat)
    requires i < n && j < n <= |s|
    ensures multiset(Swapped(s, i, j)[..n]) == multiset(s[..n])
    ensures Swapped(s, i, j)[n..] == s[n..]
  {
    var t := s[..n];
    assert Swapped(s, i, j)[..n] == Swapped(t, i, j);
    assert multiset(Swapped(t, i, j)) == multiset(t);
  }

  /**
   * The first `length` entries of `sorted` are those of `entries`, and everything behind currentEnd is in its final
   * place.
   */
  ghost predicate SortedBehind(sorted: seq<Break>, entries: seq<Break>, length: nat, currentEnd: nat) {
    && |sorted| == |entries| && currentEnd < length <= |entries| && sorted[length..] == entries[length..]
    && multiset(sorted[..length]) == multiset(entries[..length])
    && (forall i, j | 0 <= i < j < length && currentEnd < j :: sorted[i].address <= sorted[j].address)
  }

  lemma NothingSorted(entries: seq<Break>, length: nat)
    requires 0 < length <= |entries|
    ensures SortedBehind(entries, entries, length, length - 1)
  {
  }

  /** Putting the largest of the first entries last sorts one more. */
  lemma OneMoreSorted(sorted: seq<Break>, entries: seq<Break>, length: nat, currentEnd: nat, largest: nat)
    requires SortedBehind(sorted, entries, length, currentEnd) && largest <= currentEnd && 0 < currentEnd
    requires forall k | 0 <= k <= currentEnd :: sorted[k].address <= sorted[largest].address
    ensures SortedBehind(Swapped(sorted, largest, currentEnd), entries, length, currentEnd - 1)
  {
    SwapInFront(sorted, largest, currentEnd, length);
  }

  lemma AllSorted(sorted: seq<Break>, entries: seq<Break>, length: nat)
    requires SortedBehind(sorted, entries, length, 0)
    ensures |sorted| == |entries| && sorted[length..] == entries[length..]
    ensures multiset(sorted[..length]) == multiset(entries[..length]) && Ascending(sorted[..length])
  {
  }

  /** Sorts the first `length` entries by address; the others stay where they are. */
  method SortBreakTable(mem: array<Cell>, table: nat, length: nat,
                        ghost entries: seq<Break>) returns (ghost sorted: seq<Break>)
    requires 0 < length <= |entries| && Holds(mem[..], table, CellsOf(entries))
    modifies mem
    ensures |sorted| == |entries| && sorted[length..] == entries[length..]
    ensures multiset(sorted[..length]) == multiset(entries[..length]) && Ascending(sorted[..length])
    ensures Holds(mem[..], table, CellsOf(sorted))
    ensures Framed(mem[..], old(mem[..]), table, table + 2 * |entries|)
  {
    hide Holds, Framed, CellsOf, SortedBehind, Swapped, Ascending;
    ghost var m := mem[..];
    EntryAt(m, table, entries, |entries| - 1);
    FramedFromCells(m, m, table, table + 2 * |entries|);
    NothingSorted(entries, length);
    sorted := entries;
    var currentEnd := length - 1;
    while currentEnd > 0
      invariant 0 <= currentEnd < length && |sorted| == |entries| && SortedBehind(sorted, entries, length, currentEnd)
      invariant Holds(mem[..], table, CellsOf(sorted))
      invariant Framed(mem[..], m, table, table + 2 * |entries|)
    {
      ghost var m1 := mem[..];
      var largest := FindLargest(mem, table, currentEnd, sorted);
      OneMoreSorted(sorted, entries, length, currentEnd, largest);
      SwapEntries(mem, table, largest, currentEnd, sorted);
      sorted := Swapped(sorted, largest, currentEnd);
      SortedLength(sorted, entries, length, currentEnd - 1);
      FramedTrans(mem[..], m1, m, table, table + 2 * |entries|, table, table + 2 * |entries|, table,
                  table + 2 * |entries|);
      currentEnd := currentEnd - 1;
    }
    AllSorted(sorted, entries, length);
  }

  lemma SortedLength(sorted: seq<Break>, entries: seq<Break>, length: nat, currentEnd: nat)
    requires SortedBehind(sorted, entries, length, currentEnd)
    ensures |sorted| == |entries|
  {
  }
}
