/** The circular queue of objects that wait for their children to be marked. */
module DeferredObjects {

  const DEFERRED_OBJECT_TABLE_SIZE := 40

  class DeferredObjectTable {
    const table: array<nat>
    var startDeferred: nat
    var endDeferred: nat
    var count: nat
    var overflow: bool
    ghost var queue: seq<nat>

    /** Position of the k-th element of the queue; the start may stand one past the end of the table. */
    ghost function At(k: nat): nat
      reads this
    {
      if startDeferred + k < DEFERRED_OBJECT_TABLE_SIZE then startDeferred + k
      else startDeferred + k - DEFERRED_OBJECT_TABLE_SIZE
    }

    ghost predicate Valid()
      reads this, table
    {
      && table.Length == DEFERRED_OBJECT_TABLE_SIZE
      && startDeferred <= DEFERRED_OBJECT_TABLE_SIZE && endDeferred <= DEFERRED_OBJECT_TABLE_SIZE
      && count == |queue| <= DEFERRED_OBJECT_TABLE_SIZE
      && (endDeferred == startDeferred + count || endDeferred + DEFERRED_OBJECT_TABLE_SIZE == startDeferred + count)
      && forall k: nat | k < count :: table[At(k)] == queue[k]
    }

    constructor ()
      ensures Valid() && fresh(table) && queue == [] && !overflow
    {
      table := new nat[DEFERRED_OBJECT_TABLE_SIZE];
      startDeferred, endDeferred, count, overflow := 0, 0, 0, false;
      queue := [];
    }

    /** Empties the queue and forgets the overflow. */
    method Initialize()
      requires Valid()
      modifies this
      ensures Valid() && queue == [] && !overflow
    {
      startDeferred, endDeferred, count, overflow := 0, 0, 0, false;
      queue := [];
    }

    /** Adds an object at the end of the queue; a full queue drops it and remembers that. */
    method Put(value: nat)
      requires Valid()
      modifies this, table
      ensures Valid()
      ensures |old(queue)| < DEFERRED_OBJECT_TABLE_SIZE ==> queue == old(queue) + [value] && overflow == old(overflow)
      ensures |old(queue)| >= DEFERRED_OBJECT_TABLE_SIZE ==> queue == old(queue) && overflow
    {
      if count >= DEFERRED_OBJECT_TABLE_SIZE {
        overflow := true;
      } else {
        if endDeferred == DEFERRED_OBJECT_TABLE_SIZE {
          endDeferred := 0;
        }
        table[endDeferred] := value;
        endDeferred := endDeferred + 1;
        count := count + 1;
        queue := queue + [value];
      }
    }

    /** Takes the object at the front of the queue. */
    method Get() returns (value: nat)
      requires Valid() && queue != []
      modifies this
      ensures Valid() && value == old(queue)[0] && queue == old(queue)[1..] && overflow == old(overflow)
    {
      if startDeferred == DEFERRED_OBJECT_TABLE_SIZE {
        startDeferred := 0;
      }
      count := count - 1;
      value := table[startDeferred];
      startDeferred := startDeferred + 1;
      queue := queue[1..];
    }
  }
}
