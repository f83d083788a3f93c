/** slideObject: moving one live group down over the break table that is stored in the gap being closed. */
module SlideObject {
  import opened Cells

  /** The cells of a table after its first `turn` cells went behind the others. */
  ghost function Rotate(entries: seq<Cell>, turn: nat): (r: seq<Cell>)
    requires turn <= |entries|
    ensures |r| == |entries|
  {
    entries[turn..] + entries[..turn]
  }

  lemma RotateOnceMore(entries: seq<Cell>, turn: nat)
    requires turn < |entries|
    ensures Rotate(Rotate(entries, turn), 1) == Rotate(entries, turn + 1)
  {
    var r, s := Rotate(Rotate(entries, turn), 1), Rotate(entries, turn + 1);
    forall k | 0 <= k < |r|
      ensures r[k] == s[k]
    {
      assert r[k] == if k < |entries| - 1 then Rotate(entries, turn)[k + 1] else Rotate(entries, turn)[0];
    }
  }

  lemma SplitRest(done: seq<Cell>, rest: seq<Cell>, moved: nat)
    requires moved <= |rest|
    ensures (done + rest[..moved]) + rest[moved..] == done + rest
  {
  }

  lemma NotRotated(entries: seq<Cell>)
    ensures Rotate(entries, 0) == entries
  {
  }

  method SwapCells(mem: array<Cell>, table: nat, body: nat, count: nat)
    requires table + count <= body && body + count <= mem.Length
    modifies mem
    ensures forall k {:trigger mem[k]} | table <= k < table + count :: mem[k] == old(mem[k - table + body])
    ensures forall k {:trigger mem[k]} | body <= k < body + count :: mem[k] == old(mem[k - body + table])
    ensures forall k {:trigger mem[k]} | 0 <= k < mem.Length && !(table <= k < table + count)
            && !(body <= k < body + count)
              :: mem[k] == old(mem[k])
  {
    var i := 0;
    while i < count
      invariant 0 <= i <= count
      invariant forall k {:trigger mem[k]} | table <= k < table + i :: mem[k] == old(mem[k - table + body])
      invariant forall k {:trigger mem[k]} | body <= k < body + i :: mem[k] == old(mem[k - body + table])
      invariant forall k {:trigger mem[k]} | 0 <= k < mem.Length && !(table <= k < table + i) && !(body <= k < body + i)
                  :: mem[k] == old(mem[k])
    {
      var temp := mem[table + i];
      mem[table + i] := mem[body + i];
      mem[body + i] := temp;
      i := i + 1;
    }
  }

  /** Exchanges the table with the first cells of the object. */
  method SwapTable(mem: array<Cell>, table: nat, body: nat, tableSize: nat, ghost entries: seq<Cell>,
                   ghost front: seq<Cell>)
    requires tableSize == |entries| == |front|
    requires table + tableSize <= body && Holds(mem[..], table, entries) && Holds(mem[..], body, front)
    modifies mem
    ensures Holds(mem[..], table, front) && Holds(mem[..], body, entries)
    ensures Framed(mem[..], old(mem[..]), table, body + tableSize)
  {
    ghost var m := mem[..];
    forall k: nat | k < tableSize
      ensures m[table + k] == entries[k] && m[body + k] == front[k]
    {
      HoldsAt(m, table, entries, k);
      HoldsAt(m, body, front, k);
    }
    SwapCells(mem, table, body, tableSize);
    HoldsFromCells(mem[..], table, front);
    HoldsFromCells(mem[..], body, entries);
    FramedFromCells(mem[..], m, table, body + tableSize);
  }

  /** The first loop of the overlapping copy: the table goes up and the object into its place, cell by cell. */
  method CopyBoth(mem: array<Cell>, table: nat, newTable: nat, body: nat, objectSize: nat, tableSize: nat)
    requires table + tableSize <= newTable < body
    requires table + tableSize + 2 <= body && objectSize <= tableSize + 1
    requires body + objectSize <= mem.Length && (tableSize < objectSize ==> table + tableSize < newTable)
    modifies mem
    ensures forall k {:trigger mem[k]} | table <= k < table + objectSize :: mem[k] == old(mem[k - table + body])
    ensures forall k {:trigger mem[k]} | newTable <= k < newTable + objectSize && k < newTable + tableSize ::
              mem[k] == old(mem[k - newTable + table])
    ensures forall k {:trigger mem[k]} | 0 <= k < mem.Length && !(table <= k < table + objectSize)
              && !(newTable <= k < newTable + objectSize) :: mem[k] == old(mem[k])
  {
    var i := 0;
    while i < objectSize
      invariant 0 <= i <= objectSize
      invariant forall k {:trigger mem[k]} | table <= k < table + i :: mem[k] == old(mem[k - table + body])
      invariant forall k {:trigger mem[k]} | newTable <= k < newTable + i && k < newTable + tableSize ::
                  mem[k] == old(mem[k - newTable + table])
      invariant forall k {:trigger mem[k]} | 0 <= k < mem.Length && !(table <= k < table + i)
                && !(newTable <= k < newTable + i)
                  :: mem[k] == old(mem[k])
    {
      assert mem[body + i] == old(mem[body + i]);
      assert i < tableSize ==> mem[table + i] == old(mem[table + i]);
      mem[newTable + i] := mem[table + i];
      mem[table + i] := mem[body + i];
      i := i + 1;
    }
  }

  /** The second loop: the rest of the table, beyond the length of the object, goes up. */
  method CopyRest(mem: array<Cell>, table: nat, newTable: nat, first: nat, tableSize: nat)
    requires table + tableSize <= newTable && newTable + tableSize <= mem.Length
    modifies mem
    ensures forall k {:trigger mem[k]} | newTable + first <= k < newTable + tableSize ::
              mem[k] == old(mem[k - newTable + table])
    ensures forall k {:trigger mem[k]} | 0 <= k < mem.Length && !(newTable + first <= k < newTable + tableSize)
              :: mem[k] == old(mem[k])
  {
    var i := first;
    while i < tableSize
      invariant i == first || first <= i <= tableSize
      invariant forall k {:trigger mem[k]} | newTable + first <= k < newTable + i ::
                  mem[k] == old(mem[k - newTable + table])
      invariant forall k {:trigger mem[k]} | 0 <= k < mem.Length && !(newTable + first <= k < newTable + i)
                  :: mem[k] == old(mem[k])
    {
      mem[newTable + i] := mem[table + i];
      i := i + 1;
    }
  }

  /**
   * Copies the table upwards, so that it ends one entry below the end of the object, while the object moves into its
   * place.
   */
  method CopyTableAndObject(mem: array<Cell>, table: nat, newTable: nat, body: nat, objectSize: nat, tableSize: nat,
                            ghost entries: seq<Cell>, ghost group: seq<Cell>)
    requires tableSize == |entries| && objectSize == |group| < tableSize + 2
    requires table + tableSize + 2 <= body && table + tableSize <= newTable
    requires newTable + tableSize + 2 == body + objectSize <= mem.Length
    requires Holds(mem[..], table, entries) && Holds(mem[..], body, group)
    modifies mem
    ensures Holds(mem[..], table, group) && Holds(mem[..], newTable, entries)
    ensures Framed(mem[..], old(mem[..]), table, body + objectSize)
  {
    ghost var m := mem[..];
    forall k: nat | k < tableSize
      ensures m[table + k] == entries[k]
    {
      HoldsAt(m, table, entries, k);
    }
    forall k: nat | k < objectSize
      ensures m[body + k] == group[k]
    {
      HoldsAt(m, body, group, k);
    }
    CopyBoth(mem, table, newTable, body, objectSize, tableSize);
    CopyRest(mem, table, newTable, objectSize, tableSize);
    HoldsFromCells(mem[..], table, group);
    HoldsFromCells(mem[..], newTable, entries);
    FramedFromCells(mem[..], m, table, body + objectSize);
  }

  method RollCells(mem: array<Cell>, table: nat, endTable: nat, body: nat, objectSize: nat)
    requires table + objectSize < endTable && endTable + 2 <= body && body + objectSize <= mem.Length
    modifies mem
    ensures forall k {:trigger mem[k]} | table <= k < table + objectSize :: mem[k] == old(mem[k - table + body])
    ensures forall k {:trigger mem[k]} | endTable <= k < endTable + objectSize ::
              mem[k] == old(mem[k - endTable + table])
    ensures forall k {:trigger mem[k]} | 0 <= k < mem.Length && !(table <= k < table + objectSize)
              && !(endTable <= k < endTable + objectSize) :: mem[k] == old(mem[k])
  {
    var i := 0;
    while i < objectSize
      invariant 0 <= i <= objectSize
      invariant forall k {:trigger mem[k]} | table <= k < table + i :: mem[k] == old(mem[k - table + body])
      invariant forall k {:trigger mem[k]} | endTable <= k < endTable + i :: mem[k] == old(mem[k - endTable + table])
      invariant forall k {:trigger mem[k]} | 0 <= k < mem.Length && !(table <= k < table + i)
                  && !(endTable <= k < endTable + i) :: mem[k] == old(mem[k])
    {
      var temp := mem[table + i];
      mem[table + i] := mem[body + i];
      mem[endTable + i] := temp;
      i := i + 1;
    }
  }

  /** Moves the object into the front of the table; the cells of that front go behind the table. */
  method RollObject(mem: array<Cell>, table: nat, body: nat, objectSize: nat, tableSize: nat,
                    ghost entries: seq<Cell>, ghost group: seq<Cell>)
    requires tableSize == |entries| && 1 <= objectSize == |group| < tableSize
    requires table + tableSize + 2 <= body && body + objectSize <= mem.Length
    requires Holds(mem[..], table, entries) && Holds(mem[..], body, group)
    modifies mem
    ensures Holds(mem[..], table, group)
    ensures Holds(mem[..], table + objectSize, Rotate(entries, objectSize))
    ensures Framed(mem[..], old(mem[..]), table, body + objectSize)
  {
    hide Holds, Framed, Rotate;
    ghost var m := mem[..];
    HoldsFits(m, table, entries);
    RollCells(mem, table, table + tableSize, body, objectSize);
    AfterRolling(mem[..], m, table, body, objectSize, tableSize, entries, group);
  }

  lemma AfterRolling(m1: seq<Cell>, m: seq<Cell>, table: nat, body: nat, objectSize: nat, tableSize: nat,
                     entries: seq<Cell>, group: seq<Cell>)
    requires tableSize == |entries| && 1 <= objectSize == |group| < tableSize
    requires table + tableSize + 2 <= body && body + objectSize <= |m| == |m1|
    requires Holds(m, table, entries) && Holds(m, body, group)
    requires forall k {:trigger m1[k]} | table <= k < table + objectSize :: m1[k] == m[k - table + body]
    requires forall k {:trigger m1[k]} | table + tableSize <= k < table + tableSize + objectSize ::
               m1[k] == m[k - (table + tableSize) + table]
    requires forall k {:trigger m1[k]} | 0 <= k < |m1| && !(table <= k < table + objectSize)
              && !(table + tableSize <= k < table + tableSize + objectSize) :: m1[k] == m[k]
    ensures Holds(m1, table, group) && Holds(m1, table + objectSize, Rotate(entries, objectSize))
    ensures Framed(m1, m, table, body + objectSize)
  {
    hide Holds, Framed;
    ghost var front, back := entries[..objectSize], entries[objectSize..];
    HoldsSplit(m, table, entries, objectSize);
    forall k: nat | k < objectSize
      ensures m[table + k] == front[k] && m[body + k] == group[k]
    {
      HoldsAt(m, table, front, k);
      HoldsAt(m, body, group, k);
    }
    HoldsFromCells(m1, table, group);
    HoldsFromCells(m1, table + tableSize, front);
    FramedFromCells(m1, m, table, body + objectSize);
    forall k: nat | k < |back|
      ensures m[table + objectSize + k] == back[k]
    {
      HoldsAt(m, table + objectSize, back, k);
    }
    HoldsFromCells(m1, table + objectSize, back);
    HoldsJoin(m1, table + objectSize, back, front);
  }

  /** Rotates a table by one more cell: into the free space behind it, or in place when there is none to spare. */
  method RollOnce(mem: array<Cell>, table: nat, tableSize: nat, room: bool,
                  ghost entries: seq<Cell>) returns (newTable: nat)
    requires 1 <= tableSize == |entries| && table + tableSize < mem.Length && Holds(mem[..], table, entries)
    modifies mem
    ensures newTable == if room then table + 1 else table
    ensures Holds(mem[..], newTable, Rotate(entries, 1))
    ensures Framed(mem[..], old(mem[..]), table, newTable + tableSize)
  {
    hide Holds, Framed, Rotate;
    HoldsSplit(mem[..], table, entries, 1);
    HoldsAt(mem[..], table, entries, 0);
    if room {
      RollBehind(mem, table, tableSize, entries);
      newTable := table + 1;
    } else {
      RollInPlace(mem, table, tableSize, entries);
      newTable := table;
    }
    OneRolled(mem[..], newTable, entries);
  }

  lemma OneRolled(m: seq<Cell>, newTable: nat, entries: seq<Cell>)
    requires entries != [] && Holds(m, newTable, entries[1..]) && newTable + |entries| <= |m|
    requires m[newTable + |entries| - 1] == entries[0]
    ensures Holds(m, newTable, Rotate(entries, 1))
  {
    hide Holds;
    HoldsFromCells(m, newTable + |entries| - 1, entries[..1]);
    HoldsJoin(m, newTable, entries[1..], entries[..1]);
  }

  method RollBehind(mem: array<Cell>, table: nat, tableSize: nat, ghost entries: seq<Cell>)
    requires 1 <= tableSize == |entries| && table + tableSize < mem.Length
    requires Holds(mem[..], table + 1, entries[1..]) && mem[table] == entries[0]
    modifies mem
    ensures Holds(mem[..], table + 1, entries[1..]) && mem[table + tableSize] == entries[0]
    ensures Framed(mem[..], old(mem[..]), table, table + 1 + tableSize)
  {
    hide Holds, Framed;
    ghost var m := mem[..];
    mem[table + tableSize] := mem[table];
    FramedFromCells(mem[..], m, table + tableSize, table + tableSize + 1);
    HoldsKept(mem[..], m, table + tableSize, table + tableSize + 1, table + 1, entries[1..]);
    FramedWiden(mem[..], m, table + tableSize, table + tableSize + 1, table, table + 1 + tableSize);
  }

  method RollInPlace(mem: array<Cell>, table: nat, tableSize: nat, ghost entries: seq<Cell>)
    requires 1 <= tableSize == |entries| && table + tableSize < mem.Length
    requires Holds(mem[..], table + 1, entries[1..]) && mem[table] == entries[0]
    modifies mem
    ensures Holds(mem[..], table, entries[1..]) && mem[table + tableSize - 1] == entries[0]
    ensures Framed(mem[..], old(mem[..]), table, table + tableSize)
  {
    hide Holds, Framed;
    ghost var m := mem[..];
    var temp := mem[table];
    Memmove(mem, table, table + 1, tableSize - 1, entries[1..]);
    ghost var m1 := mem[..];
    var last := table + tableSize - 1;
    mem[last] := temp;
    FramedFromCells(mem[..], m1, last, last + 1);
    HoldsKept(mem[..], m1, last, last + 1, table, entries[1..]);
    FramedTrans(mem[..], m1, m, table, last, last, last + 1, table, table + tableSize);
  }

  /** Rolls the table past a short object; the result is the table rotated by a whole number of entries. */
  method RollTable(mem: array<Cell>, table: nat, body: nat, objectSize: nat, extraSize: nat, tableSize: nat,
                   ghost entries: seq<Cell>, ghost group: seq<Cell>)
    returns (newTable: nat, ghost turn: nat)
    requires tableSize == |entries| && tableSize % 2 == 0 && 1 <= objectSize == |group| < tableSize
    requires table + tableSize + 2 <= body
    requires body + objectSize + extraSize <= mem.Length
    requires Holds(mem[..], table, entries) && Holds(mem[..], body, group)
    modifies mem
    ensures turn <= tableSize && turn % 2 == 0
    ensures table + objectSize <= newTable
    ensures newTable + tableSize + 2 <= body + objectSize + extraSize
    ensures Holds(mem[..], table, group)
    ensures Holds(mem[..], newTable, Rotate(entries, turn))
    ensures Framed(mem[..], old(mem[..]), table, body + objectSize + extraSize)
  {
    hide Holds, Framed, Rotate;
    ghost var m := mem[..];
    RollObject(mem, table, body, objectSize, tableSize, entries, group);
    newTable := table + objectSize;
    turn := objectSize;
    ghost var m1 := mem[..];
    FramedWiden(m1, m, table, body + objectSize, table, body + objectSize + extraSize);
    if objectSize % 2 == 1 {
      // An odd number of cells splits an entry: one more cell has to be rolled.
      var freeSize := body - (table + tableSize);
      ghost var rolled := Rotate(entries, turn);
      newTable := RollOnce(mem, newTable, tableSize, freeSize + extraSize > 2, rolled);
      HoldsKept(mem[..], m1, table + objectSize, newTable + tableSize, table, group);
      FramedTrans(mem[..], m1, m, table, body + objectSize + extraSize, table + objectSize, newTable + tableSize,
                  table, body + objectSize + extraSize);
      RotateOnceMore(entries, turn);
      turn := turn + 1;
    }
  }

  /** Moves the table to the far end of the free space, then the object into place. */
  method MoveToEnd(mem: array<Cell>, target: nat, body: nat, objectSize: nat, extraSize: nat, table: nat,
                   tableSize: nat,
                   ghost entries: seq<Cell>, ghost group: seq<Cell>)
    returns (newTable: nat)
    requires tableSize == |entries| && objectSize == |group|
    requires target <= table && table + tableSize <= body && tableSize + 2 <= extraSize
    requires body + objectSize + extraSize <= mem.Length
    requires Holds(mem[..], table, entries) && Holds(mem[..], body, group)
    modifies mem
    ensures newTable + tableSize + 2 == body + objectSize + extraSize
    ensures Holds(mem[..], target, group) && Holds(mem[..], newTable, entries)
    ensures Framed(mem[..], old(mem[..]), target, body + objectSize + extraSize)
  {
    hide Holds, Framed, Rotate;
    ghost var m := mem[..];
    newTable := body + objectSize + extraSize - (tableSize + 2);
    Memmove(mem, newTable, table, tableSize, entries);
    ghost var m1 := mem[..];
    HoldsKept(m1, m, newTable, newTable + tableSize, body, group);
    Memmove(mem, target, body, objectSize, group);
    HoldsKept(mem[..], m1, target, target + objectSize, newTable, entries);
    FramedTrans(mem[..], m1, m, newTable, newTable + tableSize, target, target + objectSize,
                target, body + objectSize + extraSize);
  }

  /**
   * With all the free space between the table and the object: swaps, copies or rolls the table.
   * When the table is swapped, `moved` < objectSize cells of the object are in place and the slide goes on.
   */
  method PassTable(mem: array<Cell>, table: nat, body: nat, objectSize: nat, extraSize: nat, tableSize: nat,
                   ghost entries: seq<Cell>, ghost group: seq<Cell>)
    returns (moved: nat, newTable: nat, rolled: bool, ghost turn: nat)
    requires 1 <= tableSize == |entries| && tableSize % 2 == 0 && 1 <= objectSize == |group|
    requires table + tableSize + 2 <= body
    requires body + objectSize + extraSize <= mem.Length
    requires Holds(mem[..], table, entries) && Holds(mem[..], body, group)
    modifies mem
    ensures turn <= tableSize && turn % 2 == 0 && (!rolled ==> turn == 0)
    ensures moved <= objectSize && table + moved <= newTable
    ensures moved == objectSize ==> newTable + tableSize + 2 <= body + objectSize + extraSize
    ensures moved < objectSize ==> 0 < moved <= objectSize - 2 && newTable + tableSize == body + moved && !rolled
    ensures Holds(mem[..], table, group[..moved])
    ensures moved < objectSize ==> Holds(mem[..], body + moved, group[moved..])
    ensures Holds(mem[..], newTable, Rotate(entries, turn))
    ensures Framed(mem[..], old(mem[..]), table, body + objectSize + extraSize)
  {
    hide Holds, Framed, Rotate;
    ghost var m := mem[..];
    ghost var end := body + objectSize + extraSize;
    var fullTableSize := tableSize + 2;
    var freeSize := body - table - tableSize;
    turn := 0;
    rolled := false;
    moved := objectSize;
    if fullTableSize <= objectSize {
      moved, newTable := tableSize, body;
      HoldsSplit(m, body, group, moved);
      SwapTable(mem, table, body, tableSize, entries, group[..moved]);
      HoldsKept(mem[..], m, table, body + tableSize, body + moved, group[moved..]);
      FramedWiden(mem[..], m, table, body + tableSize, table, end);
    } else if fullTableSize <= objectSize + freeSize {
      newTable := body + objectSize - fullTableSize;
      CopyTableAndObject(mem, table, newTable, body, objectSize, tableSize, entries, group);
      FramedWiden(mem[..], m, table, body + objectSize, table, end);
    } else {
      newTable, turn := RollTable(mem, table, body, objectSize, extraSize, tableSize, entries, group);
      rolled := true;
    }
    Whole(group);
    NotRotated(entries);
  }

  /** Fills the space below the table, so that all the free space lies behind it, and then passes the table. */
  method FillAndPass(mem: array<Cell>, target: nat, body: nat, objectSize: nat, extraSize: nat, table: nat,
                     tableSize: nat,
                     ghost entries: seq<Cell>, ghost group: seq<Cell>)
    returns (moved: nat, newTable: nat, rolled: bool, ghost turn: nat)
    requires 1 <= tableSize == |entries| && tableSize % 2 == 0 && objectSize == |group|
    requires target <= table < target + objectSize && table + tableSize <= body && target + tableSize + 2 <= body
    requires body + objectSize + extraSize <= mem.Length
    requires Holds(mem[..], table, entries) && Holds(mem[..], body, group)
    modifies mem
    ensures turn <= tableSize && turn % 2 == 0 && (!rolled ==> turn == 0)
    ensures moved <= objectSize && target + moved <= newTable
    ensures moved == objectSize ==> newTable + tableSize + 2 <= body + objectSize + extraSize
    ensures moved < objectSize ==> 0 < moved <= objectSize - 2 && newTable + tableSize == body + moved && !rolled
    ensures Holds(mem[..], target, group[..moved])
    ensures moved < objectSize ==> Holds(mem[..], body + moved, group[moved..])
    ensures Holds(mem[..], newTable, Rotate(entries, turn))
    ensures Framed(mem[..], old(mem[..]), target, body + objectSize + extraSize)
  {
    hide Holds, Framed, Rotate;
    ghost var m := mem[..];
    ghost var end := body + objectSize + extraSize;
    var freeSize := table - target;
    ghost var front, back := group[..freeSize], group[freeSize..];
    HoldsSplit(m, body, group, freeSize);
    Memmove(mem, target, body, freeSize, front);
    ghost var m1 := mem[..];
    HoldsKept(m1, m, target, table, body + freeSize, back);
    HoldsKept(m1, m, target, table, table, entries);
    moved, newTable, rolled, turn := PassTable(mem, table, body + freeSize, objectSize - freeSize, extraSize, tableSize,
                                               entries, back);
    FilledThenPassed(mem[..], m1, m, target, table, end, group, freeSize, moved);
    moved := freeSize + moved;
  }

  /** The cells moved in the two steps are next to each other. */
  lemma FilledThenPassed(m2: seq<Cell>, m1: seq<Cell>, m: seq<Cell>, target: nat, table: nat, end: nat,
                         group: seq<Cell>, freeSize: nat, moved: nat)
    requires target <= table <= end <= |m2| && table == target + freeSize && freeSize + moved <= |group|
    requires Holds(m1, target, group[..freeSize]) && Framed(m1, m, target, table)
    requires Holds(m2, table, group[freeSize..][..moved]) && Framed(m2, m1, table, end)
    ensures Holds(m2, target, group[..freeSize + moved]) && Framed(m2, m, target, end)
    ensures group[freeSize..][moved..] == group[freeSize + moved..]
  {
    hide Holds, Framed;
    HoldsKept(m2, m1, table, end, target, group[..freeSize]);
    HoldsJoin(m2, target, group[..freeSize], group[freeSize..][..moved]);
    FramedTrans(m2, m1, m, target, table, table, end, target, end);
    TakeOfRest(group, freeSize, moved);
    DropOfRest(group, freeSize, moved);
  }

  /** One round at the label moreFreeSpaceBeforeTable: either the whole object is moved, or a part of it. */
  method SlideRound(mem: array<Cell>, target: nat, body: nat, objectSize: nat, extraSize: nat, table: nat,
                    tableSize: nat,
                    ghost entries: seq<Cell>, ghost group: seq<Cell>)
    returns (moved: nat, newTable: nat, rolled: bool, ghost turn: nat)
    requires 1 <= tableSize == |entries| && tableSize % 2 == 0 && 2 <= objectSize == |group|
    requires target <= table && table + tableSize <= body && target + tableSize + 2 <= body
    requires body + objectSize + extraSize <= mem.Length
    requires Holds(mem[..], table, entries) && Holds(mem[..], body, group)
    modifies mem
    ensures turn <= tableSize && turn % 2 == 0 && (!rolled ==> turn == 0)
    ensures moved <= objectSize && target + moved <= newTable
    ensures moved == objectSize ==> newTable + tableSize + 2 <= body + objectSize + extraSize
    ensures moved < objectSize ==> 0 < moved <= objectSize - 2 && newTable + tableSize == body + moved && !rolled
    ensures Holds(mem[..], target, group[..moved])
    ensures moved < objectSize ==> Holds(mem[..], body + moved, group[moved..])
    ensures Holds(mem[..], newTable, Rotate(entries, turn))
    ensures Framed(mem[..], old(mem[..]), target, body + objectSize + extraSize)
  {
    hide Holds, Framed, Rotate;
    ghost var m := mem[..];
    ghost var end := body + objectSize + extraSize;
    NotRotated(entries);
    Whole(group);
    var freeSize := table - target;
    if objectSize <= freeSize {
      Memmove(mem, target, body, objectSize, group);
      HoldsKept(mem[..], m, target, target + objectSize, table, entries);
      FramedWiden(mem[..], m, target, target + objectSize, target, end);
      moved, newTable, rolled, turn := objectSize, table, false, 0;
    } else if extraSize >= tableSize + 2 {
      newTable := MoveToEnd(mem, target, body, objectSize, extraSize, table, tableSize, entries, group);
      moved, rolled, turn := objectSize, false, 0;
    } else {
      moved, newTable, rolled, turn :=
        FillAndPass(mem, target, body, objectSize, extraSize, table, tableSize, entries, group);
    }
  }

  /**
   * Slides the live group [body, body + objectSize) down to `target`, moving the break table (tableLength entries of
   * two cells) out of its way.  The table keeps its entries, rotated by `turn` of them when it had to be rolled, and
   * keeps room for one more entry below the end of the free space behind the group.
   */
  method SlideObject(mem: array<Cell>, target: nat, body: nat, objectSize: nat, extraSize: nat,
                     table: nat, tableLength: nat, lastRoll: nat, ghost entries: seq<Cell>, ghost group: seq<Cell>)
    returns (newTable: nat, newLastRoll: nat, ghost turn: nat)
    requires 1 <= tableLength && |entries| == 2 * tableLength && 2 <= objectSize == |group|
    requires target <= table && table + 2 * tableLength <= body
    requires target + 2 * tableLength + 2 <= body
    requires body + objectSize + extraSize <= mem.Length
    requires Holds(mem[..], table, entries) && Holds(mem[..], body, group)
    modifies mem
    ensures turn <= tableLength
    ensures (newLastRoll == lastRoll && turn == 0) || newLastRoll == tableLength
    ensures target + objectSize <= newTable
    ensures newTable + 2 * tableLength + 2 <= body + objectSize + extraSize
    ensures Holds(mem[..], target, group)
    ensures Holds(mem[..], newTable, Rotate(entries, 2 * turn))
    ensures Framed(mem[..], old(mem[..]), target, body + objectSize + extraSize)
  {
    hide Holds, Framed, Rotate;
    var tableSize := 2 * tableLength;
    var t, o, s, b := target, body, objectSize, table;
    var moved, rolled;
    ghost var m := mem[..];
    ghost var end := body + objectSize + extraSize;
    ghost var done, rest, cells := [], group, 0;
    HoldsFromCells(m, target, []);
    FramedFromCells(m, m, target, end);
    Whole(group);
    while true
      invariant o - t == body - target && o + s == body + objectSize && body <= o
      invariant t <= b && b + tableSize <= o && t + tableSize + 2 <= o && 2 <= s == |rest|
      invariant |done| == o - body && done + rest == group
      invariant Holds(mem[..], target, done) && Holds(mem[..], o, rest) && Holds(mem[..], b, entries)
      invariant Framed(mem[..], m, target, end)
      decreases s
    {
      ghost var m1 := mem[..];
      moved, newTable, rolled, cells := SlideRound(mem, t, o, s, extraSize, b, tableSize, entries, rest);
      HoldsKept(mem[..], m1, t, end, target, done);
      HoldsJoin(mem[..], target, done, rest[..moved]);
      FramedTrans(mem[..], m1, m, target, end, t, end, target, end);
      if moved == s {
        break;
      }
      t, b, o, s := t + moved, newTable, o + moved, s - moved;
      SplitRest(done, rest, moved);
      done, rest := done + rest[..moved], rest[moved..];
      NotRotated(entries);
    }
    Whole(rest);
    turn := cells / 2;
    newLastRoll := if rolled then tableLength else lastRoll;
  }
}
