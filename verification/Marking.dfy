/** markNonRootObjects and markChildren: the depth-bounded, address-limited traversal that marks the heap. */
module Marking {
  import opened Cells
  import opened FreeList
  import opened Objects
  import opened HeapShape
  import opened DeferredObjects

  const MAX_GC_DEPTH := 4

  /** The elements of a queue. */
  ghost function Elements(queue: seq<nat>): set<nat> {
    set h | h in queue
  }

  ghost predicate NoDuplicates(queue: seq<nat>) {
    forall i, j | 0 <= i < j < |queue| :: queue[i] != queue[j]
  }

  /**
   * The books of one pass when all objects up to `limit` have been scanned.  Every marked object up to the limit has
   * been visited, is still being worked on (pending) or waits in the queue, unless the queue has overflowed.
   */
  ghost predicate Balanced(marked: set<nat>, visited: set<nat>, queue: seq<nat>, overflow: bool, limit: nat,
                           pending: set<nat>) {
    && NoDuplicates(queue)
    && visited !! pending && visited !! Elements(queue) && pending !! Elements(queue)
    && visited + pending + Elements(queue) <= marked
    && (forall h | h in visited + pending + Elements(queue) :: h <= limit)
    && (!overflow ==> forall h | h in marked && h <= limit :: h in visited + pending + Elements(queue))
  }

  /** A weak list in memory: `first` is the address of its newest member, each member links to the one before it. */
  ghost predicate Chained(m: seq<Cell>, m0: seq<Cell>, first: Cell, list: seq<nat>)
    decreases |list|
  {
    if list == [] then first == NULL
    else
      var h := list[0];
      && h < |m0| && IsWeak(KindOf(m0[h])) && ReservedCell(KindOf(m0[h]), h) < |m|
      && first == CELL * (h + HEADERSIZE)
      && Chained(m, m0, m[ReservedCell(KindOf(m0[h]), h)], list[1..])
  }

  lemma {:induction false} ChainedKept(m: seq<Cell>, m1: seq<Cell>, m0: seq<Cell>, first: Cell, list: seq<nat>)
    requires Chained(m1, m0, first, list) && |m| == |m1|
    requires forall h | h in list :: h < |m0| && ReservedCell(KindOf(m0[h]), h) < |m|
               && m[ReservedCell(KindOf(m0[h]), h)] == m1[ReservedCell(KindOf(m0[h]), h)]
    ensures Chained(m, m0, first, list)
    decreases |list|
  {
    if list != [] {
      assert list[0] in list;
      ChainedKept(m, m1, m0, m1[ReservedCell(KindOf(m0[list[0]]), list[0])], list[1..]);
    }
  }

  /** An object in the queue or about to be followed is not yet visited and lies below the limit. */
  lemma BalancedQueue(marked: set<nat>, visited: set<nat>, queue: seq<nat>, overflow: bool, limit: nat,
                      pending: set<nat>)
    requires queue != [] && Balanced(marked, visited, queue, overflow, limit, pending)
    ensures queue[0] !in pending && queue[0] !in visited
    ensures Balanced(marked, visited, queue[1..], overflow, limit, pending + {queue[0]})
  {
    var rest := queue[1..];
    assert forall h :: h in queue <==> h == queue[0] || h in rest;
    assert queue[0] !in rest;
    assert Elements(queue) == Elements(rest) + {queue[0]};
  }

  lemma BalancedPut(marked: set<nat>, visited: set<nat>, queue: seq<nat>, overflow: bool, limit: nat,
                    pending: set<nat>, h: nat)
    requires h !in pending && Balanced(marked, visited, queue, overflow, limit, pending + {h})
    ensures Balanced(marked, visited, queue + [h], overflow, limit, pending)
    ensures Balanced(marked, visited, queue, true, limit, pending)
  {
    assert h in pending + {h};
    assert h !in Elements(queue);
    assert Elements(queue + [h]) == Elements(queue) + {h};
  }

  lemma BalancedMark(marked: set<nat>, visited: set<nat>, queue: seq<nat>, overflow: bool, limit: nat,
                     pending: set<nat>, h: nat)
    requires h !in marked && Balanced(marked, visited, queue, overflow, limit, pending)
    ensures h !in pending && h <= limit ==> Balanced(marked + {h}, visited, queue, overflow, limit, pending + {h})
    ensures h > limit ==> Balanced(marked + {h}, visited, queue, overflow, limit, pending)
    ensures h !in pending
  {
  }

  lemma BalancedVisit(marked: set<nat>, visited: set<nat>, queue: seq<nat>, overflow: bool, limit: nat,
                      pending: set<nat>, h: nat)
    requires h !in pending && Balanced(marked, visited, queue, overflow, limit, pending + {h})
    ensures Balanced(marked, visited + {h}, queue, overflow, limit, pending)
  {
    assert h in pending + {h};
  }

  /** The scan may go on to the next header. */
  lemma BalancedScan(marked: set<nat>, visited: set<nat>, queue: seq<nat>, overflow: bool, limit: nat, h: nat)
    requires Balanced(marked, visited, queue, overflow, limit, {}) && limit < h
    requires forall k | k in marked && limit < k :: h <= k
    ensures h in marked ==> Balanced(marked, visited, queue, overflow, h, {h})
    ensures h !in marked ==> Balanced(marked, visited, queue, overflow, h, {})
  {
  }

  /** The heap when marking starts, and a closed set of objects in use that contains the roots. */
  datatype Start = Start(classOf: Cell -> Class, m0: seq<Cell>, lo: nat, hi: nat, reachable: set<nat>)

  /** How far marking has come: visited objects have had their children marked in this pass. */
  datatype State = State(marked: set<nat>, visited: set<nat>,
                         weakPointers: Cell, weakLists: seq<nat>, weakReferences: Cell, weakRefs: seq<nat>)

  /** What is known of an object in use. */
  ghost predicate InUse(g: Start, h: nat) {
    && WellFormed(g.classOf, g.m0, g.lo, g.hi) && h in Headers(g.m0, g.lo, g.hi) && h + 2 <= |g.m0|
    && Fits(g.classOf, g.m0, h) && Sound(g.classOf, g.m0, g.lo, g.hi, h) && KindOf(g.m0[h]) != GCT_FREE
  }

  /** The objects that the object at h leads to: its strong pointers and its monitor. */
  ghost function Leads(g: Start, h: nat): set<int> {
    if InUse(g, h) then Successors(g.classOf, g.m0, g.lo, g.hi, h) else {}
  }

  /** Everything the visited objects lead to is marked. */
  ghost predicate Followed(g: Start, visited: set<nat>, marked: set<nat>) {
    forall h | h in visited :: InUse(g, h) && Leads(g, h) <= marked
  }

  /** The starting point: a well-formed heap and a set that contains everything its members lead to. */
  ghost predicate Startable(g: Start) {
    WellFormed(g.classOf, g.m0, g.lo, g.hi) && Followed(g, g.reachable, g.reachable)
  }

  /** The members of `list` are, once each, the visited objects of type `kind`. */
  ghost predicate Lists(m0: seq<Cell>, kind: nat, list: seq<nat>, visited: set<nat>) {
    && NoDuplicates(list)
    && forall h {:trigger h in list} :: h in list <==> h in visited && h < |m0| && KindOf(m0[h]) == kind
  }

  /** The heap m in the middle of marking: what the mark bits and the two weak lists say. */
  ghost predicate Consistent(g: Start, m: seq<Cell>, s: State) {
    && Startable(g)
    && Mirrors(m, g.m0, g.lo, g.hi, s.marked)
    && s.visited <= s.marked <= g.reachable
    && Followed(g, s.visited, s.marked)
    && Chained(m, g.m0, s.weakPointers, s.weakLists) && Lists(g.m0, GCT_WEAKPOINTERLIST, s.weakLists, s.visited)
    && Chained(m, g.m0, s.weakReferences, s.weakRefs) && Lists(g.m0, GCT_WEAKREFERENCE, s.weakRefs, s.visited)
  }

  lemma Usable(g: Start, h: nat)
    requires Startable(g) && h in g.reachable
    ensures InUse(g, h) && Leads(g, h) <= g.reachable
    ensures h + 2 <= |g.m0| <= MAX_CELLS && 1 <= g.lo <= h < g.hi
  {
    HeaderBounds(g.m0, g.lo, g.hi, h);
  }

  lemma FollowedVisit(g: Start, s: State, h: nat)
    requires Startable(g) && h in g.reachable && Followed(g, s.visited, s.marked)
    ensures InUse(g, h)
    ensures Leads(g, h) <= s.marked ==> Followed(g, s.visited + {h}, s.marked)
    ensures s.visited <= Headers(g.m0, g.lo, g.hi)
  {
    Usable(g, h);
  }

  lemma MirrorsMark(g: Start, m: seq<Cell>, m1: seq<Cell>, marked: set<nat>, h: nat)
    requires Startable(g) && h in Headers(g.m0, g.lo, g.hi) && h < |m1|
    requires Mirrors(m1, g.m0, g.lo, g.hi, marked) && m == m1[h := WithMark(m1[h])]
    ensures Mirrors(m, g.m0, g.lo, g.hi, marked + {h})
  {
    MarkKeepsSizeAndKind(g.m0[h]);
  }

  lemma MirrorsPush(g: Start, m: seq<Cell>, m1: seq<Cell>, marked: set<nat>, h: nat, first: Cell)
    requires Startable(g) && h in Headers(g.m0, g.lo, g.hi) && h < |g.m0| && IsWeak(KindOf(g.m0[h]))
    requires Mirrors(m1, g.m0, g.lo, g.hi, marked)
    requires ReservedCell(KindOf(g.m0[h]), h) < |m1| && m == m1[ReservedCell(KindOf(g.m0[h]), h) := first]
    ensures Mirrors(m, g.m0, g.lo, g.hi, marked)
  {
    var link := ReservedCell(KindOf(g.m0[h]), h);
    ReservedInside(g.classOf, g.m0, g.lo, g.hi, h);
    InsideIsNoHeader(g.m0, g.lo, g.hi, h, link);
    assert link in ReservedCells(g.m0, g.lo, g.hi);
  }

  /** The members of a weak list are objects of the heap. */
  lemma ListMembers(g: Start, kind: nat, list: seq<nat>, visited: set<nat>)
    requires Startable(g) && Lists(g.m0, kind, list, visited) && IsWeak(kind) && visited <= Headers(g.m0, g.lo, g.hi)
    ensures forall h | h in list ::
              h in visited && h in Headers(g.m0, g.lo, g.hi) && h < |g.m0| && KindOf(g.m0[h]) == kind
  {
  }

  /** Setting a mark leaves the lists alone. */
  lemma ChainedMark(g: Start, m: seq<Cell>, m1: seq<Cell>, h: nat, kind: nat, first: Cell, list: seq<nat>,
                    visited: set<nat>)
    requires Startable(g) && h in Headers(g.m0, g.lo, g.hi) && h < |m1| == |g.m0| && m == m1[h := WithMark(m1[h])]
    requires Chained(m1, g.m0, first, list) && Lists(g.m0, kind, list, visited) && IsWeak(kind)
    requires visited <= Headers(g.m0, g.lo, g.hi)
    ensures Chained(m, g.m0, first, list)
  {
    ListMembers(g, kind, list, visited);
    forall k | k in list
      ensures ReservedCell(KindOf(g.m0[k]), k) < |m|
      ensures m[ReservedCell(KindOf(g.m0[k]), k)] == m1[ReservedCell(KindOf(g.m0[k]), k)]
    {
      ReservedInside(g.classOf, g.m0, g.lo, g.hi, k);
      InsideIsNoHeader(g.m0, g.lo, g.hi, k, ReservedCell(KindOf(g.m0[k]), k));
    }
    ChainedKept(m, m1, g.m0, first, list);
  }

  /** Writing the link of an object leaves a list it is not in alone, and extends a list it is put in front of. */
  lemma ChainedPush(g: Start, m: seq<Cell>, m1: seq<Cell>, h: nat, next: Cell, kind: nat, first: Cell, list: seq<nat>,
                    visited: set<nat>)
    requires Startable(g) && h in Headers(g.m0, g.lo, g.hi) && h < |g.m0| == |m1| && IsWeak(KindOf(g.m0[h]))
    requires h !in visited
    requires ReservedCell(KindOf(g.m0[h]), h) < |m1| && m == m1[ReservedCell(KindOf(g.m0[h]), h) := next]
    requires Chained(m1, g.m0, first, list) && Lists(g.m0, kind, list, visited) && IsWeak(kind)
    requires visited <= Headers(g.m0, g.lo, g.hi)
    ensures h < MAX_CELLS && Chained(m, g.m0, first, list)
    ensures next == first ==> Chained(m, g.m0, CELL * (h + HEADERSIZE), [h] + list)
  {
    ListMembers(g, kind, list, visited);
    var link := ReservedCell(KindOf(g.m0[h]), h);
    ReservedInside(g.classOf, g.m0, g.lo, g.hi, h);
    assert ([h] + list)[1..] == list;
    forall k | k in list
      ensures ReservedCell(KindOf(g.m0[k]), k) < |m|
      ensures m[ReservedCell(KindOf(g.m0[k]), k)] == m1[ReservedCell(KindOf(g.m0[k]), k)]
    {
      ReservedInside(g.classOf, g.m0, g.lo, g.hi, k);
      if ReservedCell(KindOf(g.m0[k]), k) == link {
        if k < h {
          HeadersApart(g.m0, g.lo, g.hi, k, h);
        } else {
          HeadersApart(g.m0, g.lo, g.hi, h, k);
        }
      }
    }
    ChainedKept(m, m1, g.m0, first, list);
  }

  lemma ListsPush(m0: seq<Cell>, kind: nat, list: seq<nat>, visited: set<nat>, h: nat)
    requires Lists(m0, kind, list, visited) && h !in visited && h < |m0|
    ensures KindOf(m0[h]) == kind ==> Lists(m0, kind, [h] + list, visited + {h})
    ensures KindOf(m0[h]) != kind ==> Lists(m0, kind, list, visited + {h})
  {
    var longer := [h] + list;
    forall i, j | 0 <= i < j < |longer|
      ensures longer[i] != longer[j]
    {
      assert longer[j] == list[j - 1] && list[j - 1] in list;
    }
  }

  /** Setting a mark bit. */
  lemma ConsistentMark(g: Start, m: seq<Cell>, s: State, h: nat)
    requires Consistent(g, m, s) && h in g.reachable
    ensures h < |m| && (IsMarked(m[h]) <==> h in s.marked)
    ensures Consistent(g, m[h := WithMark(m[h])], s.(marked := s.marked + {h}))
  {
    Usable(g, h);
    MarkKeepsSizeAndKind(g.m0[h]);
    assert m[h] == Stamped(g.m0[h], h in s.marked);
    assert s.visited <= Headers(g.m0, g.lo, g.hi);
    hide Startable, Mirrors, Chained, Lists, InUse, Headers, KindOf, SizeOf, Leads;
    var m1 := m[h := WithMark(m[h])];
    MirrorsMark(g, m1, m, s.marked, h);
    ChainedMark(g, m1, m, h, GCT_WEAKPOINTERLIST, s.weakPointers, s.weakLists, s.visited);
    ChainedMark(g, m1, m, h, GCT_WEAKREFERENCE, s.weakReferences, s.weakRefs, s.visited);
  }

  /** Visiting an object all of whose successors are marked. */
  lemma ConsistentVisit(g: Start, m: seq<Cell>, s: State, h: nat)
    requires Consistent(g, m, s) && h in s.marked && h !in s.visited
    requires InUse(g, h) && Leads(g, h) <= s.marked && !IsWeak(KindOf(g.m0[h]))
    ensures Consistent(g, m, s.(visited := s.visited + {h}))
  {
    FollowedVisit(g, s, h);
    hide Startable, Mirrors, Chained, Lists, Followed, KindOf, SizeOf, Leads;
    ListsPush(g.m0, GCT_WEAKPOINTERLIST, s.weakLists, s.visited, h);
    ListsPush(g.m0, GCT_WEAKREFERENCE, s.weakRefs, s.visited, h);
  }

  /** Visiting a weak object: it is linked into the list of its type. */
  lemma ConsistentPush(g: Start, m: seq<Cell>, s: State, h: nat)
    requires Consistent(g, m, s) && h in s.marked && h !in s.visited
    requires InUse(g, h) && Leads(g, h) <= s.marked && IsWeak(KindOf(g.m0[h]))
    ensures h < MAX_CELLS && ReservedCell(KindOf(g.m0[h]), h) < |m|
    ensures KindOf(g.m0[h]) == GCT_WEAKPOINTERLIST ==>
              Consistent(g, m[ReservedCell(KindOf(g.m0[h]), h) := s.weakPointers],
                         s.(visited := s.visited + {h}, weakPointers := CELL * (h + HEADERSIZE),
                            weakLists := [h] + s.weakLists))
    ensures KindOf(g.m0[h]) == GCT_WEAKREFERENCE ==>
              Consistent(g, m[ReservedCell(KindOf(g.m0[h]), h) := s.weakReferences],
                         s.(visited := s.visited + {h}, weakReferences := CELL * (h + HEADERSIZE),
                            weakRefs := [h] + s.weakRefs))
  {
    FollowedVisit(g, s, h);
    ReservedInside(g.classOf, g.m0, g.lo, g.hi, h);
    hide Startable, Mirrors, Chained, Lists, Followed, WellFormed, Fits, Sound, Headers, KindOf, SizeOf, Leads;
    var kind := KindOf(g.m0[h]);
    var next := if kind == GCT_WEAKPOINTERLIST then s.weakPointers else s.weakReferences;
    var m1 := m[ReservedCell(kind, h) := next];
    MirrorsPush(g, m1, m, s.marked, h, next);
    ChainedPush(g, m1, m, h, next, GCT_WEAKPOINTERLIST, s.weakPointers, s.weakLists, s.visited);
    ChainedPush(g, m1, m, h, next, GCT_WEAKREFERENCE, s.weakReferences, s.weakRefs, s.visited);
    ListsPush(g.m0, GCT_WEAKPOINTERLIST, s.weakLists, s.visited, h);
    ListsPush(g.m0, GCT_WEAKREFERENCE, s.weakRefs, s.visited, h);
  }

  /** Cells inside objects, other than the links of weak objects, are what they were when marking started. */
  lemma CellUnchanged(g: Start, m: seq<Cell>, s: State, h: nat, k: nat)
    requires Consistent(g, m, s) && InUse(g, h) && h < k < Next(g.m0, h)
    requires IsWeak(KindOf(g.m0[h])) ==> k != ReservedCell(KindOf(g.m0[h]), h)
    ensures k < |m| && m[k] == g.m0[k]
  {
    HeaderBounds(g.m0, g.lo, g.hi, h);
    InsideIsNoHeader(g.m0, g.lo, g.hi, h, k);
    if k in ReservedCells(g.m0, g.lo, g.hi) {
      ReservedByOwner(g.classOf, g.m0, g.lo, g.hi, h, k);
    }
  }

  /** What the marker reads in an object: its type and the cells that say where its pointers are. */
  lemma ObjectUnchanged(g: Start, m: seq<Cell>, s: State, h: nat)
    requires Consistent(g, m, s) && InUse(g, h)
    ensures h + 1 < |m| == |g.m0| && KindOf(m[h]) == KindOf(g.m0[h]) && m[h + 1] == g.m0[h + 1]
    ensures KindOf(m[h]) == GCT_OBJECTARRAY ==> h + 3 < |m| && m[h + 3] == g.m0[h + 3]
    ensures HasMonitorCell(KindOf(m[h])) ==> h + 2 < |m| && m[h + 2] == g.m0[h + 2]
    ensures StrongSlots(g.classOf, m, h) == StrongSlots(g.classOf, g.m0, h)
  {
    HeaderUnchanged(g, m, s, h);
    hide Consistent, InUse, WellFormed, Fits, KindOf, SizeOf, Headers;
    CellUnchanged(g, m, s, h, h + 1);
    if KindOf(g.m0[h]) == GCT_OBJECTARRAY {
      CellUnchanged(g, m, s, h, h + 3);
    }
    if HasMonitorCell(KindOf(g.m0[h])) {
      CellUnchanged(g, m, s, h, h + 2);
    }
  }

  lemma HeaderUnchanged(g: Start, m: seq<Cell>, s: State, h: nat)
    requires Consistent(g, m, s) && InUse(g, h)
    ensures h + 2 <= Next(g.m0, h) <= |g.m0| == |m| && KindOf(m[h]) == KindOf(g.m0[h])
    ensures KindOf(g.m0[h]) == GCT_OBJECTARRAY ==> h + 3 < Next(g.m0, h)
    ensures HasMonitorCell(KindOf(g.m0[h])) ==> h + 2 < Next(g.m0, h)
  {
    HeaderBounds(g.m0, g.lo, g.hi, h);
    MarkKeepsSizeAndKind(g.m0[h]);
    assert m[h] == Stamped(g.m0[h], h in s.marked);
  }

  /** A strong pointer that leads into the heap leads to a successor. */
  lemma SlotUnchanged(g: Start, m: seq<Cell>, s: State, h: nat, slot: nat)
    requires Consistent(g, m, s) && InUse(g, h) && slot in StrongSlots(g.classOf, g.m0, h)
    ensures slot < |m| && m[slot] == g.m0[slot]
    ensures InHeap(g.lo, g.hi, m[slot]) ==> HeaderAt(m[slot]) in Leads(g, h)
  {
    CellUnchanged(g, m, s, h, slot);
  }

  /** A monitor is a successor, and leads nowhere itself. */
  lemma MonitorLeads(g: Start, m: seq<Cell>, s: State, h: nat)
    requires Consistent(g, m, s) && h in g.reachable && HasMonitorCell(KindOf(g.m0[h]))
    ensures h + 2 < |m| && m[h + 2] == g.m0[h + 2]
    ensures m[h + 2] % 4 == MHC_MONITOR && InHeap(g.lo, g.hi, m[h + 2] - MHC_MONITOR) ==>
              var monitor := HeaderAt(m[h + 2] - MHC_MONITOR);
              && monitor in Leads(g, h) && monitor in g.reachable && InUse(g, monitor)
              && Leads(g, monitor) == {} && !IsWeak(KindOf(g.m0[monitor]))
  {
    hide Consistent, StrongSlots, KindOf, Sound, Fits, WellFormed, Startable;
    ReachableInUse(g, m, s, h);
    ObjectUnchanged(g, m, s, h);
    if m[h + 2] % 4 == MHC_MONITOR && InHeap(g.lo, g.hi, m[h + 2] - MHC_MONITOR) {
      var monitor := HeaderAt(m[h + 2] - MHC_MONITOR);
      MonitorInUse(g, h);
      ReachableInUse(g, m, s, monitor);
      MonitorIsLeaf(g, monitor);
    }
  }

  lemma ReachableInUse(g: Start, m: seq<Cell>, s: State, h: nat)
    requires Consistent(g, m, s) && h in g.reachable
    ensures InUse(g, h) && Leads(g, h) <= g.reachable && |m| == |g.m0|
  {
    Usable(g, h);
  }

  lemma MonitorInUse(g: Start, h: nat)
    requires InUse(g, h) && h + 2 < |g.m0| && HasRealMonitor(g.m0, h) && InHeap(g.lo, g.hi, MonitorOf(g.m0, h))
    ensures var monitor := HeaderAt(MonitorOf(g.m0, h));
            && monitor in Leads(g, h) && 0 <= monitor < |g.m0| && KindOf(g.m0[monitor]) == GCT_MONITOR
  {
    assert PointsWell(g.m0, g.lo, g.hi, MonitorOf(g.m0, h));
    HeaderBounds(g.m0, g.lo, g.hi, HeaderAt(MonitorOf(g.m0, h)));
  }

  lemma MonitorIsLeaf(g: Start, h: nat)
    requires InUse(g, h) && KindOf(g.m0[h]) == GCT_MONITOR
    ensures Leads(g, h) == {} && !IsWeak(KindOf(g.m0[h]))
  {
  }

  lemma VisitedAreMarked(g: Start, m: seq<Cell>, s: State)
    requires Consistent(g, m, s)
    ensures s.visited <= s.marked <= g.reachable && |m| == |g.m0| && Startable(g)
  {
  }

  /** The number of objects that may still be marked. */
  ghost function Unmarked(reachable: set<nat>, marked: set<nat>): nat {
    |reachable - marked|
  }

  lemma OneLess(reachable: set<nat>, marked: set<nat>, h: nat)
    requires h in reachable && h !in marked
    ensures Unmarked(reachable, marked + {h}) == Unmarked(reachable, marked) - 1
  {
    assert reachable - (marked + {h}) == (reachable - marked) - {h};
  }

  /** A strong pointer into the heap leads to an object that may be marked. */
  lemma StrongChild(g: Start, m: seq<Cell>, s: State, h: nat, slot: nat)
    requires Consistent(g, m, s) && h in g.reachable && slot in StrongSlotsOf(g, h)
    ensures slot < |m| == |g.m0| && m[slot] == g.m0[slot]
    ensures InHeap(g.lo, g.hi, m[slot]) ==> HeaderAt(m[slot]) in g.reachable && 1 <= HeaderAt(m[slot])
  {
    Usable(g, h);
    SlotUnchanged(g, m, s, h, slot);
    if InHeap(g.lo, g.hi, m[slot]) {
      Usable(g, HeaderAt(m[slot]));
    }
  }

  lemma SlotStaysMarked(g: Start, slot: nat, before: set<nat>, marked: set<nat>)
    requires SlotMarked(g, slot, before) && before <= marked
    ensures SlotMarked(g, slot, marked)
  {
  }

  lemma SlotsRead(g: Start, m: seq<Cell>, s: State, h: nat)
    requires Consistent(g, m, s) && h in g.reachable
    ensures h + 1 < |m| && (KindOf(m[h]) == GCT_OBJECTARRAY ==> h + 3 < |m|)
    ensures StrongSlots(g.classOf, m, h) == StrongSlotsOf(g, h)
  {
    Usable(g, h);
    ObjectUnchanged(g, m, s, h);
  }

  /** Once its monitor and all its slots are marked, an object has been followed. */
  lemma AllFollowed(g: Start, h: nat, marked: set<nat>)
    requires InUse(g, h) && (HasMonitorCell(KindOf(g.m0[h])) ==> MonitorMarked(g, h, marked))
    requires forall slot | slot in StrongSlotsOf(g, h) :: SlotMarked(g, slot, marked)
    ensures Leads(g, h) <= marked
  {
    forall c | c in Leads(g, h)
      ensures c in marked
    {
      if !(HasRealMonitor(g.m0, h) && InHeap(g.lo, g.hi, MonitorOf(g.m0, h)) && c == HeaderAt(MonitorOf(g.m0, h))) {
        var slot :| slot in StrongSlots(g.classOf, g.m0, h) && InHeap(g.lo, g.hi, g.m0[slot])
          && c == HeaderAt(g.m0[slot]);
        assert SlotMarked(g, slot, marked);
      }
    }
  }

  /** An object that is being worked on is marked, not yet visited, and can be read. */
  lemma PendingFacts(g: Start, m: seq<Cell>, s: State, queue: seq<nat>, overflow: bool, limit: nat, pending: set<nat>,
                     h: nat)
    requires Consistent(g, m, s) && Balanced(s.marked, s.visited, queue, overflow, limit, pending + {h})
    ensures h in s.marked && h !in s.visited && h in g.reachable && h != 0 && InUse(g, h)
    ensures h + 2 <= |m| == |g.m0| && KindOf(m[h]) == KindOf(g.m0[h])
    ensures HasMonitorCell(KindOf(m[h])) ==> h + 2 < |m|
  {
    assert h in pending + {h};
    Usable(g, h);
    ObjectUnchanged(g, m, s, h);
  }

  lemma VisitFacts(g: Start, m: seq<Cell>, s: State, queue: seq<nat>, overflow: bool, limit: nat, pending: set<nat>,
                   h: nat,
                   before: set<nat>)
    requires Consistent(g, m, s) && Balanced(s.marked, s.visited, queue, overflow, limit, pending + {h})
    requires before <= s.marked
    requires h < |g.m0| && (HasMonitorCell(KindOf(g.m0[h])) ==> MonitorMarked(g, h, before))
    requires forall slot | slot in StrongSlotsOf(g, h) :: IsWeak(KindOf(g.m0[h])) || SlotMarked(g, slot, s.marked)
    ensures h in s.marked && h !in s.visited && InUse(g, h) && Leads(g, h) <= s.marked
    ensures s.visited + {h} - {h} == s.visited
  {
    PendingFacts(g, m, s, queue, overflow, limit, pending, h);
    AllFollowed(g, h, s.marked);
  }

  class Marker {
    const mem: array<Cell>
    const currentHeap: nat
    const currentHeapEnd: nat
    const classOf: Cell -> Class
    const deferred: DeferredObjectTable
    var weakPointers: Cell
    var weakReferences: Cell
    ghost const start: Start
    ghost var marked: set<nat>
    ghost var visited: set<nat>
    ghost var weakLists: seq<nat>
    ghost var weakRefs: seq<nat>

    ghost function Now(): State
      reads this
    {
      State(marked, visited, weakPointers, weakLists, weakReferences, weakRefs)
    }

    ghost predicate Valid()
      reads this, mem, deferred, deferred.table
    {
      && start.classOf == classOf && start.lo == currentHeap && start.hi == currentHeapEnd
      && deferred.Valid() && Consistent(start, mem[..], Now())
    }

    /** What is still to be done: two for every object that may yet be marked, one for every queued one. */
    ghost function Work(): nat
      reads this, deferred
    {
      2 * Unmarked(start.reachable, marked) + |deferred.queue|
    }

    ghost predicate InBalance(limit: nat, pending: set<nat>)
      reads this, deferred
    {
      Balanced(marked, visited, deferred.queue, deferred.overflow, limit, pending)
    }

    /** Marks and visits are only added. */
    twostate predicate Grown()
      reads this, deferred
    {
      old(marked) <= marked && old(visited) <= visited && (old(deferred.overflow) ==> deferred.overflow)
    }

    /** An overflow always comes with a new mark. */
    twostate predicate Progress()
      reads this, deferred
    {
      Grown() && (deferred.overflow && !old(deferred.overflow) ==> old(marked) != marked)
    }

    /** Marking starts with the objects in `roots` marked. */
    constructor (mem: array<Cell>, currentHeap: nat, currentHeapEnd: nat, classOf: Cell -> Class,
                 ghost roots: set<nat>, ghost reachable: set<nat>)
      requires Startable(Start(classOf, mem[..], currentHeap, currentHeapEnd, reachable)) && roots <= reachable
      requires forall h | h in Headers(mem[..], currentHeap, currentHeapEnd) ::
                 h < mem.Length && (IsMarked(mem[h]) <==> h in roots)
      ensures Valid() && fresh(deferred) && fresh(deferred.table)
      ensures this.mem == mem && marked == roots
      ensures start == Start(classOf, mem[..], currentHeap, currentHeapEnd, reachable)
    {
      this.mem, this.currentHeap, this.currentHeapEnd, this.classOf := mem, currentHeap, currentHeapEnd, classOf;
      this.start := Start(classOf, mem[..], currentHeap, currentHeapEnd, reachable);
      this.marked, this.visited := roots, {};
      this.weakPointers, this.weakReferences, this.weakLists, this.weakRefs := NULL, NULL, [], [];
      this.deferred := new DeferredObjectTable();
    }

    /** Sets the mark bit of an object. */
    method SetMark(h: nat)
      requires Valid() && h in start.reachable
      modifies this`marked, mem
      ensures Valid() && marked == old(marked) + {h}
    {
      hide Consistent;
      ConsistentMark(start, mem[..], Now(), h);
      mem[h] := WithMark(mem[h]);
      marked := marked + {h};
    }

    /** Links a weak object into the list of its type; that is all that is done when it is visited. */
    method PushWeak(h: nat, kind: nat)
      requires Valid() && h in marked && h !in visited && InUse(start, h) && IsWeak(kind) && kind == KindOf(start.m0[h])
      requires Leads(start, h) <= marked
      modifies this`weakPointers, this`weakReferences, this`weakLists, this`weakRefs, this`visited, mem
      ensures Valid() && visited == old(visited) + {h}
    {
      hide Consistent, InUse, WellFormed, Leads, DeferredObjectTable.Valid, KindOf, SizeOf;
      ConsistentPush(start, mem[..], Now(), h);
      var link := ReservedCell(kind, h);
      visited := visited + {h};
      if kind == GCT_WEAKPOINTERLIST {
        mem[link] := weakPointers;
        weakPointers := CELL * (h + HEADERSIZE);
        weakLists := [h] + weakLists;
      } else {
        mem[link] := weakReferences;
        weakReferences := CELL * (h + HEADERSIZE);
        weakRefs := [h] + weakRefs;
      }
    }

    /** MARK_OBJECT on an object that leads nowhere: there is no need to visit it. */
    method MarkLeaf(h: nat, ghost limit: nat, ghost pending: set<nat>)
      requires Valid() && h in start.reachable && InUse(start, h) && Leads(start, h) == {}
      requires !IsWeak(KindOf(start.m0[h]))
      requires InBalance(limit, pending)
      modifies this`marked, this`visited, mem
      ensures Valid() && InBalance(limit, pending) && Progress() && Work() <= old(Work()) && marked == old(marked) + {h}
      ensures visited == old(visited) || (visited == old(visited) + {h} && h !in old(marked))
    {
      hide Consistent, Balanced, Leads, InUse, Unmarked, DeferredObjectTable.Valid, KindOf, IsWeak;
      VisitedAreMarked(start, mem[..], Now());
      SetMark(h);
      if h in old(marked) {
        assert old(marked) + {h} == old(marked);
      } else {
        OneLess(start.reachable, old(marked), h);
        BalancedMark(old(marked), visited, deferred.queue, deferred.overflow, limit, pending, h);
        if h <= limit {
          BalancedVisit(marked, visited, deferred.queue, deferred.overflow, limit, pending, h);
          ConsistentVisit(start, mem[..], Now(), h);
          visited := visited + {h};
        }
      }
    }

    /** checkMonitorAndMark: a monitor is marked but not followed, it leads to nothing that is not marked elsewhere. */
    method CheckMonitorAndMark(h: nat, ghost limit: nat, ghost pending: set<nat>)
      requires Valid() && h in start.reachable && h < |start.m0| && HasMonitorCell(KindOf(start.m0[h]))
      requires InBalance(limit, pending)
      modifies this`marked, this`visited, mem
      ensures Valid() && InBalance(limit, pending) && Progress() && Work() <= old(Work())
      ensures visited - old(visited) <= marked - old(marked)
      ensures MonitorMarked(start, h, marked)
    {
      hide Consistent, Balanced, Leads, InUse, Unmarked, DeferredObjectTable.Valid, KindOf, HasMonitorCell, IsWeak;
      MonitorLeads(start, mem[..], Now(), h);
      var mhc := mem[h + 2];
      if mhc % 4 == MHC_MONITOR && InHeap(currentHeap, currentHeapEnd, mhc - MHC_MONITOR) {
        MarkLeaf(HeaderAt(mhc - MHC_MONITOR), limit, pending);
      }
    }

    /** RECURSE: follows a child at once, or defers it when the recursion is already deep enough. */
    method Recurse(child: nat, limit: nat, remainingDepth: int, ghost pending: set<nat>)
      requires Valid() && child !in pending && 0 !in pending && -1 <= remainingDepth < MAX_GC_DEPTH && limit in marked
      requires InBalance(limit, pending + {child})
      modifies this`marked, this`visited, this`weakPointers, this`weakLists, this`weakReferences, this`weakRefs,
               mem, deferred, deferred.table
      ensures Valid() && InBalance(limit, pending) && Grown() && Work() <= old(Work()) + 1
      decreases remainingDepth + 1, 6
    {
      hide Consistent, Balanced, Unmarked;
      if remainingDepth < 0 {
        BalancedPut(marked, visited, deferred.queue, deferred.overflow, limit, pending, child);
        deferred.Put(child);
      } else {
        MarkChildren(child, limit, remainingDepth, pending);
      }
    }

    /** MARK_AND_TAIL_RECURSE on one pointer: `next` is the child, if any, chosen for the tail recursion so far. */
    method MarkAndTailRecurse(h: nat, slot: nat, next: nat, limit: nat, remainingDepth: int, ghost pending: set<nat>)
      returns (newNext: nat)
      requires Valid() && h in start.reachable && slot in StrongSlotsOf(start, h) && -1 <= remainingDepth < MAX_GC_DEPTH
      requires h in pending && InBalance(limit, pending + Chosen(next)) && next !in pending && limit in marked
      requires 0 !in pending
      modifies this`marked, this`visited, this`weakPointers, this`weakLists, this`weakReferences, this`weakRefs,
               mem, deferred, deferred.table
      ensures Valid() && newNext !in pending && InBalance(limit, pending + Chosen(newNext)) && Grown()
      ensures Work() + |Chosen(newNext)| <= old(Work()) + |Chosen(next)|
      ensures old(marked) == marked ==> newNext == next && deferred.overflow == old(deferred.overflow)
      ensures SlotMarked(start, slot, marked)
      decreases remainingDepth + 1, 7
    {
      hide Consistent, Balanced, Unmarked, InUse, Leads, StrongSlotsOf, DeferredObjectTable.Valid;
      StrongChild(start, mem[..], Now(), h, slot);
      newNext := next;
      var child := mem[slot];
      if InHeap(currentHeap, currentHeapEnd, child) {
        var c := HeaderAt(child);
        ConsistentMark(start, mem[..], Now(), c);
        if !IsMarked(mem[c]) {
          SetMark(c);
          OneLess(start.reachable, old(marked), c);
          BalancedMark(old(marked), visited, deferred.queue, deferred.overflow, limit, pending + Chosen(next), c);
          if c < limit {
            assert pending + Chosen(next) + {c} == (pending + Chosen(c)) + Chosen(next);
            if next != 0 {
              Recurse(next, limit, remainingDepth, pending + {c});
            } else {
              assert pending + Chosen(c) + Chosen(next) == pending + Chosen(c);
            }
            newNext := c;
          }
        }
      }
    }

    /** Marks the objects that the slots of h point to. */
    method MarkSlots(h: nat, limit: nat, remainingDepth: int, ghost pending: set<nat>) returns (next: nat)
      requires Valid() && h in start.reachable && -1 <= remainingDepth < MAX_GC_DEPTH && limit in marked
      requires h in pending && InBalance(limit, pending) && 0 !in pending
      modifies this`marked, this`visited, this`weakPointers, this`weakLists, this`weakReferences, this`weakRefs,
               mem, deferred, deferred.table
      ensures Valid() && next !in pending && InBalance(limit, pending + Chosen(next)) && Progress()
      ensures Work() + |Chosen(next)| <= old(Work())
      ensures forall slot | slot in StrongSlotsOf(start, h) :: SlotMarked(start, slot, marked)
      decreases remainingDepth + 1, 8
    {
      hide Consistent, Balanced, Unmarked, InUse, Leads, SlotMarked, DeferredObjectTable.Valid, InstanceOffsets,
        SlotsAt, Range, KindOf;
      SlotsRead(start, mem[..], Now(), h);
      var slots := StrongSlots(classOf, mem[..], h);
      assert pending + Chosen(0) == pending;
      next := 0;
      var i := 0;
      while i < |slots|
        invariant 0 <= i <= |slots| && Valid() && slots == StrongSlotsOf(start, h)
        invariant next !in pending && InBalance(limit, pending + Chosen(next)) && Grown() && limit in marked
        invariant Work() + |Chosen(next)| <= old(Work())
        invariant old(marked) == marked ==> next == 0 && deferred.overflow == old(deferred.overflow)
        invariant forall k | 0 <= k < i :: SlotMarked(start, slots[k], marked)
      {
        ghost var before := marked;
        next := MarkAndTailRecurse(h, slots[i], next, limit, remainingDepth, pending);
        forall k | 0 <= k < i
          ensures SlotMarked(start, slots[k], marked)
        {
          SlotStaysMarked(start, slots[k], before, marked);
        }
        i := i + 1;
      }
    }

    /** A weak object is only linked into the list of its type. */
    method VisitWeak(h: nat, kind: nat, ghost limit: nat, ghost pending: set<nat>)
      requires Valid() && h !in pending && InBalance(limit, pending + {h})
      requires h < |start.m0| && kind == KindOf(start.m0[h]) && IsWeak(kind)
      requires HasMonitorCell(kind) ==> MonitorMarked(start, h, marked)
      modifies this`visited, this`weakPointers, this`weakLists, this`weakReferences, this`weakRefs, mem
      ensures Valid() && InBalance(limit, pending) && visited == old(visited) + {h}
    {
      hide Consistent, Balanced, Leads, InUse, SlotMarked, MonitorMarked, DeferredObjectTable.Valid, KindOf,
        StrongSlotsOf;
      VisitFacts(start, mem[..], Now(), deferred.queue, deferred.overflow, limit, pending, h, marked);
      BalancedVisit(marked, visited, deferred.queue, deferred.overflow, limit, pending, h);
      PushWeak(h, kind);
    }

    /** Everything that any other object leads to is marked. */
    method VisitStrong(h: nat, limit: nat, remainingDepth: int, ghost pending: set<nat>) returns (next: nat)
      requires Valid() && h !in pending && h != 0 && 0 !in pending && -1 <= remainingDepth < MAX_GC_DEPTH
      requires limit in marked
      requires h in start.reachable && InBalance(limit, pending + {h})
      requires h < |start.m0| && !IsWeak(KindOf(start.m0[h]))
      requires HasMonitorCell(KindOf(start.m0[h])) ==> MonitorMarked(start, h, marked)
      modifies this`marked, this`visited, this`weakPointers, this`weakLists, this`weakReferences, this`weakRefs,
               mem, deferred, deferred.table
      ensures Valid() && next !in pending && InBalance(limit, pending + Chosen(next)) && Progress()
      ensures Work() + |Chosen(next)| <= old(Work()) && h in visited
      decreases remainingDepth + 1, 9
    {
      hide Consistent, Balanced, Unmarked, Leads, InUse, SlotMarked, MonitorMarked, DeferredObjectTable.Valid, KindOf,
        StrongSlotsOf;
      next := MarkSlots(h, limit, remainingDepth, pending + {h});
      assert pending + {h} + Chosen(next) == pending + Chosen(next) + {h};
      VisitFacts(start, mem[..], Now(), deferred.queue, deferred.overflow, limit, pending + Chosen(next), h,
                 old(marked));
      ConsistentVisit(start, mem[..], Now(), h);
      BalancedVisit(marked, visited, deferred.queue, deferred.overflow, limit, pending + Chosen(next), h);
      visited := visited + {h};
    }

    /**
     * One turn of the loop in markChildren: everything the object leads to is marked, or it is linked into its weak
     * list.
     */
    method Visit(h: nat, limit: nat, remainingDepth: int, ghost pending: set<nat>) returns (next: nat)
      requires Valid() && h !in pending && 0 !in pending && -1 <= remainingDepth < MAX_GC_DEPTH && limit in marked
      requires InBalance(limit, pending + {h})
      modifies this`marked, this`visited, this`weakPointers, this`weakLists, this`weakReferences, this`weakRefs,
               mem, deferred, deferred.table
      ensures Valid() && next !in pending && InBalance(limit, pending + Chosen(next)) && Progress()
      ensures Work() + |Chosen(next)| <= old(Work()) && h in visited
      decreases remainingDepth + 1, 10
    {
      hide Consistent, Balanced, Unmarked, Leads, InUse, MonitorMarked, DeferredObjectTable.Valid, KindOf,
        HasMonitorCell, IsWeak;
      PendingFacts(start, mem[..], Now(), deferred.queue, deferred.overflow, limit, pending, h);
      var kind := KindOf(mem[h]);
      if HasMonitorCell(kind) {
        CheckMonitorAndMark(h, limit, pending + {h});
      }
      if IsWeak(kind) {
        VisitWeak(h, kind, limit, pending);
        next := 0;
        assert pending + Chosen(next) == pending;
      } else {
        next := VisitStrong(h, limit, remainingDepth, pending);
      }
    }

    /**
     * Marks everything that can be reached from an object through objects below the limit, within the given depth;
     * at the outermost level the deferred objects are worked off as well.
     */
    method MarkChildren(header: nat, limit: nat, depth: int, ghost pending: set<nat>)
      requires Valid() && header !in pending && 0 !in pending && 0 <= depth <= MAX_GC_DEPTH && limit in marked
      requires InBalance(limit, pending + {header})
      modifies this`marked, this`visited, this`weakPointers, this`weakLists, this`weakReferences, this`weakRefs,
               mem, deferred, deferred.table
      ensures Valid() && InBalance(limit, pending) && Progress() && Work() <= old(Work())
      ensures depth == MAX_GC_DEPTH ==> deferred.queue == []
      decreases depth, 11
    {
      hide Consistent, Balanced, Unmarked;
      var remainingDepth := depth - 1;
      var object' := header;
      while true
        invariant Valid() && object' !in pending && InBalance(limit, pending + {object'}) && Progress()
        invariant limit in marked
        invariant Work() <= old(Work())
        decreases Work()
      {
        var next := Visit(object', limit, remainingDepth, pending);
        if next != 0 {
          object' := next;
        } else {
          assert pending + Chosen(next) == pending;
          if remainingDepth == MAX_GC_DEPTH - 1 && deferred.count > 0 {
            BalancedQueue(marked, visited, deferred.queue, deferred.overflow, limit, pending);
            object' := deferred.Get();
          } else {
            break;
          }
        }
      }
    }

    /** Forgets the visits and the lists of a pass, but not its marks. */
    method StartPass()
      requires Valid()
      modifies this`visited, this`weakPointers, this`weakLists, this`weakReferences, this`weakRefs, deferred
      ensures Valid() && visited == {} && deferred.queue == [] && !deferred.overflow && InBalance(currentHeap - 1, {})
    {
      hide Consistent, Balanced;
      ConsistentReset(start, mem[..], Now());
      BalancedReset(marked, currentHeap);
      weakPointers, weakReferences, weakLists, weakRefs, visited := NULL, NULL, [], [], {};
      deferred.Initialize();
    }

    /** One pass over the heap, from the bottom to the top. */
    method ScanHeap()
      requires Valid() && visited == {} && deferred.queue == [] && !deferred.overflow && InBalance(currentHeap - 1, {})
      modifies this`marked, this`visited, this`weakPointers, this`weakLists, this`weakReferences, this`weakRefs,
               mem, deferred, deferred.table
      ensures Valid() && Progress() && deferred.queue == []
      ensures !deferred.overflow ==> visited == marked
    {
      hide Consistent, Balanced, Unmarked, DeferredObjectTable.Valid;
      ScanStart(start, mem[..], Now());
      var scanner := currentHeap;
      ghost var last: nat := currentHeap - 1;     // the header scanned before
      while scanner < currentHeapEnd
        invariant Valid() && Progress() && deferred.queue == [] && InBalance(last, {})
        invariant ScanAt(start, scanner, last)
        decreases currentHeapEnd - scanner
      {
        ScanFacts(start, mem[..], Now(), scanner, last);
        BalancedScan(marked, visited, deferred.queue, deferred.overflow, last, scanner);
        if IsMarked(mem[scanner]) {
          assert {} + {scanner} == {scanner};
          MarkChildren(scanner, scanner, MAX_GC_DEPTH, {});
          ScanFacts(start, mem[..], Now(), scanner, last);
        }
        last := scanner;
        scanner := scanner + SizeOf(mem[scanner]) + HEADERSIZE;
      }
      ScanEnd(start, mem[..], Now(), deferred.queue, deferred.overflow, scanner, last);
    }

    /** Passes over the heap until the queue does not overflow any more. */
    method MarkNonRootObjects()
      requires Valid()
      modifies this`marked, this`visited, this`weakPointers, this`weakLists, this`weakReferences, this`weakRefs,
               mem, deferred, deferred.table
      ensures Valid() && old(marked) <= marked && visited == marked
    {
      hide Consistent, Balanced, DeferredObjectTable.Valid;
      var again := true;
      while again
        invariant Valid() && old(marked) <= marked
        invariant !again ==> visited == marked
        decreases Unmarked(start.reachable, marked), again
      {
        ghost var before := marked;
        StartPass();
        ScanHeap();
        again := deferred.overflow;
        VisitedAreMarked(start, mem[..], Now());
        FewerUnmarked(start.reachable, before, marked);
      }
    }
  }

  lemma FewerUnmarked(reachable: set<nat>, before: set<nat>, marked: set<nat>)
    requires before <= marked <= reachable
    ensures Unmarked(reachable, marked) <= Unmarked(reachable, before)
    ensures before != marked ==> Unmarked(reachable, marked) < Unmarked(reachable, before)
  {
    var a, b := reachable - marked, reachable - before;
    assert b == a + (marked - before);
    assert a !! (marked - before);
    assert |b| == |a| + |marked - before|;
  }

  lemma ConsistentReset(g: Start, m: seq<Cell>, s: State)
    requires Consistent(g, m, s)
    ensures Consistent(g, m, State(s.marked, {}, NULL, [], NULL, []))
    ensures 1 <= g.lo && forall h | h in s.marked :: g.lo <= h < g.hi
  {
    forall h | h in s.marked
      ensures g.lo <= h < g.hi
    {
      Usable(g, h);
    }
  }

  /** The scan stands at a header, or at the end of the heap, and `last` is the header before it. */
  ghost predicate ScanAt(g: Start, scanner: nat, last: nat) {
    && Startable(g) && g.lo - 1 <= last < scanner <= g.hi
    && (scanner == g.hi || scanner in Headers(g.m0, g.lo, g.hi))
    && (forall h | h in Headers(g.m0, g.lo, g.hi) :: h <= last || scanner <= h)
  }

  lemma ScanStart(g: Start, m: seq<Cell>, s: State)
    requires Consistent(g, m, s)
    ensures 1 <= g.lo && ScanAt(g, g.lo, g.lo - 1)
  {
    forall h | h in Headers(g.m0, g.lo, g.hi)
      ensures g.lo <= h
    {
      HeaderBounds(g.m0, g.lo, g.hi, h);
    }
  }

  lemma ScanFacts(g: Start, m: seq<Cell>, s: State, scanner: nat, last: nat)
    requires Consistent(g, m, s) && ScanAt(g, scanner, last) && scanner < g.hi
    ensures 1 <= scanner < |m| && (IsMarked(m[scanner]) <==> scanner in s.marked)
    ensures forall h | h in s.marked && last < h :: scanner <= h
    ensures ScanAt(g, scanner + SizeOf(m[scanner]) + HEADERSIZE, scanner)
  {
    HeaderBounds(g.m0, g.lo, g.hi, scanner);
    MarkKeepsSizeAndKind(g.m0[scanner]);
    assert m[scanner] == Stamped(g.m0[scanner], scanner in s.marked);
    assert SizeOf(m[scanner]) == SizeOf(g.m0[scanner]);
    forall h | h in s.marked && last < h
      ensures scanner <= h
    {
      Usable(g, h);
    }
    ScanNext(g, scanner, last);
  }

  lemma ScanNext(g: Start, scanner: nat, last: nat)
    requires ScanAt(g, scanner, last) && scanner < g.hi
    ensures scanner < |g.m0| && ScanAt(g, Next(g.m0, scanner), scanner)
  {
    NextHeader(g.m0, g.lo, g.hi, scanner);
    HeaderBounds(g.m0, g.lo, g.hi, scanner);
    forall h | h in Headers(g.m0, g.lo, g.hi)
      ensures h <= scanner || Next(g.m0, scanner) <= h
    {
      if scanner < h {
        HeadersApart(g.m0, g.lo, g.hi, scanner, h);
      }
    }
  }

  lemma BalancedReset(marked: set<nat>, lo: nat)
    requires 1 <= lo && forall h | h in marked :: lo <= h
    ensures Balanced(marked, {}, [], false, lo - 1, {})
  {
  }

  lemma ScanEnd(g: Start, m: seq<Cell>, s: State, queue: seq<nat>, overflow: bool, scanner: nat, last: nat)
    requires Consistent(g, m, s) && ScanAt(g, scanner, last) && scanner == g.hi
    requires Balanced(s.marked, s.visited, queue, overflow, last, {}) && queue == []
    ensures !overflow ==> s.visited == s.marked
  {
    if !overflow {
      forall h | h in s.marked
        ensures h in s.visited
      {
        Usable(g, h);
      }
    }
  }

  /** The object chosen for tail recursion, if any: 0 stands for NULL. */
  ghost function Chosen(next: nat): set<nat> {
    if next == 0 then {} else {next}
  }

  ghost function StrongSlotsOf(g: Start, h: nat): seq<nat> {
    if InUse(g, h) then StrongSlots(g.classOf, g.m0, h) else []
  }

  /** The object that a strong pointer leads to is marked. */
  ghost predicate SlotMarked(g: Start, slot: nat, marked: set<nat>) {
    slot < |g.m0| && (InHeap(g.lo, g.hi, g.m0[slot]) ==> HeaderAt(g.m0[slot]) in marked)
  }

  /** The monitor of the object at h, if it has one, is marked. */
  ghost predicate MonitorMarked(g: Start, h: nat, marked: set<nat>)
    requires h < |g.m0|
  {
    HasRealMonitor(g.m0, h) && InHeap(g.lo, g.hi, MonitorOf(g.m0, h)) ==> HeaderAt(MonitorOf(g.m0, h)) in marked
  }
}
