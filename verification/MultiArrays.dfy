/**
 * instantiateMultiArray (class.c): arrays of arrays are built level by level, with a work list threaded through slot 0.
 */
module MultiArrays {

  import opened ClassTables
  import opened Options

  /** An array object; slots that are not references to arrays are NULL. */
  datatype ArrayObject = ArrayObject(clazz: nat, data: seq<Option<nat>>)

  const MAXIMAL_LENGTH := 0x100_0000

  /** The class of the arrays `depth` levels below. */
  function ClassAt(w: World, c: nat, depth: nat): nat
    decreases depth
  {
    if depth == 0 || c >= |w| || w[c].element.None? || !w[c].element.value.ClassElement? then c
    else ClassAt(w, w[c].element.value.c, depth - 1)
  }

  ghost predicate IsBlank(a: ArrayObject) {
    forall i | 0 <= i < |a.data| :: a.data[i] == None
  }

  /** Array r has the requested lengths; below a last or empty level there is nothing. */
  ghost predicate IsMultiArray(arrays: seq<ArrayObject>, w: World, c: nat, lengths: seq<int>, r: nat)
    decreases |lengths|
  {
    && |lengths| > 0 && r < |arrays| && arrays[r].clazz == c && |arrays[r].data| == lengths[0]
    && if |lengths| == 1 || lengths[0] == 0 then IsBlank(arrays[r])
       else
         forall i | 0 <= i < |arrays[r].data| ::
           arrays[r].data[i].Some? && IsMultiArray(arrays, w, ClassAt(w, c, 1), lengths[1..], arrays[r].data[i].value)
  }

  /** Each array is referred to by one slot at most, and only by arrays created before it. */
  ghost predicate IsForest(arrays: seq<ArrayObject>, s: nat) {
    && (forall x, i | s <= x < |arrays| && 0 <= i < |arrays[x].data| && arrays[x].data[i].Some? ::
          x < arrays[x].data[i].value < |arrays|)
    && (forall x, y, i, j | s <= x < |arrays| && s <= y < |arrays| && 0 <= i < |arrays[x].data|
        && 0 <= j < |arrays[y].data|
                            && arrays[x].data[i].Some? && arrays[x].data[i] == arrays[y].data[j] :: x == y && i == j)
  }

  /** Arrays s to e - 1 have the class and length of their level. */
  ghost predicate IsLevel(arrays: seq<ArrayObject>, s: nat, e: nat, clazz: nat, width: nat) {
    e <= |arrays| && forall x | s <= x < e :: arrays[x].clazz == clazz && |arrays[x].data| == width
  }

  /** Arrays s to x - 1 are linked in slot 0, from the last one to the first. */
  ghost predicate IsLinked(arrays: seq<ArrayObject>, s: nat, x: nat) {
    x <= |arrays|
    && forall y | s <= y < x ::
         && |arrays[y].data| > 0 && arrays[y].data[0] == LinkTo(s, y)
         && forall i | 1 <= i < |arrays[y].data| :: arrays[y].data[i] == None
  }

  function LinkTo(s: nat, y: int): Option<nat> {
    if y > s then Some(y - 1) else None
  }

  ghost predicate AreBlank(arrays: seq<ArrayObject>, s: nat, e: nat) {
    e <= |arrays| && forall x | s <= x < e :: IsBlank(arrays[x])
  }

  /** All slots of arrays s to e - 1 refer to arrays lo to hi - 1. */
  ghost predicate IsFilled(arrays: seq<ArrayObject>, s: nat, e: nat, lo: nat, hi: nat) {
    e <= |arrays| && forall x, i | s <= x < e && 0 <= i < |arrays[x].data| ::
        arrays[x].data[i].Some? && lo <= arrays[x].data[i].value < hi
  }

  /** No two slots of arrays s to e - 1 refer to the same array. */
  ghost predicate IsInjective(arrays: seq<ArrayObject>, s: nat, e: nat) {
    e <= |arrays|
    && forall x, y, i, j | s <= x < e && s <= y < e && 0 <= i < |arrays[x].data| && 0 <= j < |arrays[y].data|
                           && arrays[x].data[i] == arrays[y].data[j] :: x == y && i == j
  }

  /** The slots of one more array refer to new arrays. */
  lemma InjectiveWithOneMore(arrays: seq<ArrayObject>, arrays': seq<ArrayObject>, p: nat, e: nat, n: nat)
    requires p < e <= n == |arrays| <= |arrays'|
    requires IsFilled(arrays, p + 1, e, e, n) && IsInjective(arrays, p + 1, e) && arrays'[p + 1..e] == arrays[p + 1..e]
    requires |arrays'| == n + |arrays'[p].data| && forall i | 0 <= i < |arrays'[p].data| ::
               arrays'[p].data[i] == Some(n + i)
    ensures IsFilled(arrays', p, e, e, |arrays'|) && IsInjective(arrays', p, e)
  {
    assert forall x | p + 1 <= x < e :: arrays'[x] == arrays'[p + 1..e][x - p - 1] == arrays[x];
  }

  /** The level that the new arrays of a level belong to, and whether they are linked. */
  ghost predicate IsNewLevel(arrays: seq<ArrayObject>, e: nat, clazz: nat, length: nat, last: bool, head: Option<nat>) {
    && e <= |arrays| && IsLevel(arrays, e, |arrays|, clazz, length)
    && if last then AreBlank(arrays, e, |arrays|) else IsLinked(arrays, e, |arrays|) && head == LinkTo(e, |arrays|)
  }

  /** Arrays x to e - 1 of the previous level have been filled. */
  ghost predicate IsFilledFrom(arrays: seq<ArrayObject>, before: seq<ArrayObject>, s: nat, x: nat, e: nat, c: nat,
                               width: nat) {
    && s <= x <= e == |before| <= |arrays| && arrays[..x] == before[..x] && |arrays| == e + (e - x) * width
    && IsLevel(arrays, s, e, c, width) && IsFilled(arrays, x, e, e, |arrays|) && IsInjective(arrays, x, e)
  }

  lemma FilledOneMore(arrays: seq<ArrayObject>, arrays': seq<ArrayObject>, before: seq<ArrayObject>, s: nat, p: nat,
                      e: nat, c: nat, width: nat)
    requires s <= p && IsFilledFrom(arrays, before, s, p + 1, e, c, width) && p < e
    requires |arrays'| == |arrays| + width && arrays'[..p] == arrays[..p] && arrays'[p + 1..e] == arrays[p + 1..e]
    requires arrays'[p].clazz == arrays[p].clazz && |arrays'[p].data| == width
    requires forall i | 0 <= i < width :: arrays'[p].data[i] == Some(|arrays| + i)
    ensures IsFilledFrom(arrays', before, s, p, e, c, width)
  {
    hide IsFilled, IsInjective;
    InjectiveWithOneMore(arrays, arrays', p, e, |arrays|);
    assert (e - p) * width == (e - p - 1) * width + width;
    assert arrays'[..p] == arrays[..p + 1][..p] == before[..p];
    forall x | s <= x < e
      ensures arrays'[x].clazz == c && |arrays'[x].data| == width
    {
      if x < p {
        assert arrays'[x] == arrays'[..p][x] == arrays[x];
      } else if x > p {
        assert arrays'[x] == arrays'[p + 1..e][x - p - 1] == arrays[x];
      }
    }
  }

  lemma NothingFilled(arrays: seq<ArrayObject>, s: nat, c: nat, width: nat, clazz: nat, length: nat, last: bool)
    requires s <= |arrays| && IsLevel(arrays, s, |arrays|, c, width)
    ensures IsFilledFrom(arrays, arrays, s, |arrays|, |arrays|, c, width)
    ensures IsNewLevel(arrays, |arrays|, clazz, length, last, None)
  {
  }

  lemma LevelAt(arrays: seq<ArrayObject>, s: nat, e: nat, c: nat, width: nat, x: nat)
    requires IsLevel(arrays, s, e, c, width) && s <= x < e
    ensures arrays[x].clazz == c && |arrays[x].data| == width
  {
  }

  function ClassOfLevel(w: World, rootClass: nat, c: nat, j: nat): nat {
    if j == 0 then rootClass else ClassAt(w, c, j - 1)
  }

  function WidthOfLevel(lengths: seq<int>, j: nat): int {
    if j == 0 || j > |lengths| then 1 else lengths[j - 1]
  }

  /** Level j consists of arrays starts[j] to starts[j + 1] - 1. */
  ghost predicate IsLevelAt(arrays: seq<ArrayObject>, starts: seq<nat>, j: nat, clazz: nat, width: int) {
    && j + 1 < |starts| && starts[j] <= starts[j + 1] && width >= 0
       && IsLevel(arrays, starts[j], starts[j + 1], clazz, width)
  }

  /** The slots of level j refer to the arrays of the next level. */
  ghost predicate IsLevelDone(arrays: seq<ArrayObject>, starts: seq<nat>, j: nat) {
    && j + 2 < |starts| && starts[j] <= starts[j + 1] <= starts[j + 2]
    && IsFilled(arrays, starts[j], starts[j + 1], starts[j + 1], starts[j + 2])
       && IsInjective(arrays, starts[j], starts[j + 1])
  }

  /** Level 0 is the root; there are levels up to d, and those below d are done. */
  ghost predicate AreLevels(arrays: seq<ArrayObject>, starts: seq<nat>, d: nat, w: World, rootClass: nat, c: nat,
                            lengths: seq<int>) {
    && d <= |lengths| && |starts| == d + 2 && starts[d + 1] == |arrays|
    && (forall j: nat | j <= d ::
          IsLevelAt(arrays, starts, j, ClassOfLevel(w, rootClass, c, j), WidthOfLevel(lengths, j)))
    && (forall j: nat | j < d :: IsLevelDone(arrays, starts, j))
  }

  lemma StartsAscend(arrays: seq<ArrayObject>, starts: seq<nat>, d: nat, w: World, rootClass: nat, c: nat,
                     lengths: seq<int>, i: nat, j: nat)
    requires AreLevels(arrays, starts, d, w, rootClass, c, lengths) && i <= j <= d + 1
    ensures starts[i] <= starts[j]
    decreases j - i
  {
    hide IsLevel, ClassOfLevel, WidthOfLevel, IsLevelDone;
    if i < j {
      StartsAscend(arrays, starts, d, w, rootClass, c, lengths, i, j - 1);
      assert IsLevelAt(arrays, starts, j - 1, ClassOfLevel(w, rootClass, c, j - 1), WidthOfLevel(lengths, j - 1));
    }
  }

  /** What concerns arrays before `limit` stays when those arrays stay. */
  lemma LevelStays(arrays: seq<ArrayObject>, arrays': seq<ArrayObject>, starts: seq<nat>, starts': seq<nat>, j: nat,
                   clazz: nat, width: int, limit: nat)
    requires limit <= |arrays| && limit <= |arrays'| && arrays'[..limit] == arrays[..limit] && starts <= starts'
    requires IsLevelAt(arrays, starts, j, clazz, width) && starts[j + 1] <= limit
    ensures IsLevelAt(arrays', starts', j, clazz, width)
    ensures IsLevelDone(arrays, starts, j) ==> IsLevelDone(arrays', starts', j)
  {
    assert forall x | 0 <= x < limit :: arrays'[x] == arrays'[..limit][x] == arrays[x];
  }

  lemma LevelAdded(arrays: seq<ArrayObject>, arrays': seq<ArrayObject>, starts: seq<nat>, d: nat, w: World,
                   rootClass: nat, c: nat, lengths: seq<int>)
    requires AreLevels(arrays, starts, d, w, rootClass, c, lengths) && d < |lengths| && lengths[d] >= 0
    requires starts[d] <= |arrays| <= |arrays'| && arrays'[..starts[d]] == arrays[..starts[d]]
    requires IsFilledFrom(arrays', arrays, starts[d], starts[d], |arrays|, ClassOfLevel(w, rootClass, c, d),
                          WidthOfLevel(lengths, d))
    requires IsLevel(arrays', |arrays|, |arrays'|, ClassAt(w, c, d), lengths[d])
    ensures AreLevels(arrays', starts + [|arrays'|], d + 1, w, rootClass, c, lengths)
  {
    hide IsLevel, IsFilled, IsInjective, ClassAt;
    var starts' := starts + [|arrays'|];
    forall j: nat | j <= d + 1
      ensures IsLevelAt(arrays', starts', j, ClassOfLevel(w, rootClass, c, j), WidthOfLevel(lengths, j))
      ensures j < d ==> IsLevelDone(arrays', starts', j)
    {
      if j < d {
        assert IsLevelDone(arrays, starts, j);
        StartsAscend(arrays, starts, d, w, rootClass, c, lengths, j + 1, d);
        LevelStays(arrays, arrays', starts, starts', j, ClassOfLevel(w, rootClass, c, j), WidthOfLevel(lengths, j),
                   starts[d]);
      } else if j == d {
        assert IsLevelAt(arrays, starts, d, ClassOfLevel(w, rootClass, c, d), WidthOfLevel(lengths, d));
      }
    }
    assert IsLevelDone(arrays', starts', d);
  }

  lemma {:induction false} ClassAtAdds(w: World, c: nat, d: nat)
    ensures ClassAt(w, c, d + 1) == ClassAt(w, ClassAt(w, c, d), 1)
    decreases d
  {
    if d > 0 && c < |w| && w[c].element.Some? && w[c].element.value.ClassElement? {
      ClassAtAdds(w, w[c].element.value.c, d - 1);
    }
  }

  /** The last level is blank, so the arrays of level j + 1 are as requested from there on. */
  lemma {:induction false} BuiltFrom(arrays: seq<ArrayObject>, starts: seq<nat>, d: nat, w: World, rootClass: nat,
                                     c: nat, lengths: seq<int>, j: nat, x: nat)
    requires AreLevels(arrays, starts, d, w, rootClass, c, lengths) && 0 < d
    requires AreBlank(arrays, starts[d], starts[d + 1])
    requires forall i | 0 <= i < d - 1 :: lengths[i] > 0
    requires d == |lengths| || lengths[d - 1] == 0
    requires j < d && starts[j + 1] <= x < starts[j + 2]
    ensures IsMultiArray(arrays, w, ClassAt(w, c, j), lengths[j..], x)
    decreases d - j
  {
    hide IsInjective, ClassAt;
    assert IsLevelAt(arrays, starts, j + 1, ClassOfLevel(w, rootClass, c, j + 1), WidthOfLevel(lengths, j + 1));
    assert arrays[x].clazz == ClassAt(w, c, j) && |arrays[x].data| == lengths[j];
    if j < d - 1 {
      assert IsLevelDone(arrays, starts, j + 1);
      ClassAtAdds(w, c, j);
      assert lengths[j..][1..] == lengths[j + 1..];
      forall i | 0 <= i < |arrays[x].data|
        ensures arrays[x].data[i].Some?
        ensures IsMultiArray(arrays, w, ClassAt(w, ClassAt(w, c, j), 1), lengths[j..][1..], arrays[x].data[i].value)
      {
        BuiltFrom(arrays, starts, d, w, rootClass, c, lengths, j + 1, arrays[x].data[i].value);
      }
    }
  }

  lemma LevelOf(arrays: seq<ArrayObject>, starts: seq<nat>, d: nat, w: World, rootClass: nat, c: nat,
                lengths: seq<int>, x: nat, n: nat) returns (j: nat)
    requires AreLevels(arrays, starts, d, w, rootClass, c, lengths) && n <= d + 1 && starts[0] <= x < starts[n]
    ensures j < n && starts[j] <= x < starts[j + 1]
    decreases n
  {
    if n > 0 && starts[n - 1] <= x {
      j := n - 1;
    } else {
      j := LevelOf(arrays, starts, d, w, rootClass, c, lengths, x, n - 1);
    }
  }

  /** Where a slot of an array of a level leads. */
  lemma SlotLeads(arrays: seq<ArrayObject>, starts: seq<nat>, d: nat, w: World, rootClass: nat, c: nat,
                  lengths: seq<int>, j: nat, x: nat, i: nat)
    requires AreLevels(arrays, starts, d, w, rootClass, c, lengths) && AreBlank(arrays, starts[d], starts[d + 1])
    requires j <= d && starts[j] <= x < starts[j + 1] && x < |arrays| && i < |arrays[x].data| && arrays[x].data[i].Some?
    ensures j < d && starts[j + 1] <= arrays[x].data[i].value < starts[j + 2] <= |arrays|
  {
    hide ClassOfLevel, WidthOfLevel, IsInjective;
    assert j < d;
    assert IsLevelDone(arrays, starts, j);
    StartsAscend(arrays, starts, d, w, rootClass, c, lengths, j + 2, d + 1);
  }

  /** The arrays of all levels form a forest. */
  lemma LevelsAreForest(arrays: seq<ArrayObject>, starts: seq<nat>, d: nat, w: World, rootClass: nat, c: nat,
                        lengths: seq<int>)
    requires AreLevels(arrays, starts, d, w, rootClass, c, lengths) && AreBlank(arrays, starts[d], starts[d + 1])
    ensures IsForest(arrays, starts[0])
  {
    hide AreLevels, AreBlank;
    LevelsEnd(arrays, starts, d, w, rootClass, c, lengths);
    forall x, i | starts[0] <= x < |arrays| && 0 <= i < |arrays[x].data| && arrays[x].data[i].Some?
      ensures x < arrays[x].data[i].value < |arrays|
    {
      var j := LevelOf(arrays, starts, d, w, rootClass, c, lengths, x, d + 1);
      SlotLeads(arrays, starts, d, w, rootClass, c, lengths, j, x, i);
    }
    forall x, y, i, j | starts[0] <= x < |arrays| && starts[0] <= y < |arrays| && 0 <= i < |arrays[x].data|
      && 0 <= j < |arrays[y].data|
                        && arrays[x].data[i].Some? && arrays[x].data[i] == arrays[y].data[j]
      ensures x == y && i == j
    {
      NotShared(arrays, starts, d, w, rootClass, c, lengths, x, y, i, j);
    }
  }

  lemma LevelsEnd(arrays: seq<ArrayObject>, starts: seq<nat>, d: nat, w: World, rootClass: nat, c: nat,
                  lengths: seq<int>)
    requires AreLevels(arrays, starts, d, w, rootClass, c, lengths)
    ensures |starts| == d + 2 && starts[d + 1] == |arrays|
  {
  }

  lemma NotShared(arrays: seq<ArrayObject>, starts: seq<nat>, d: nat, w: World, rootClass: nat, c: nat,
                  lengths: seq<int>, x: nat, y: nat, i: nat, j: nat)
    requires AreLevels(arrays, starts, d, w, rootClass, c, lengths) && AreBlank(arrays, starts[d], starts[d + 1])
    requires starts[0] <= x < |arrays| && starts[0] <= y < |arrays| && i < |arrays[x].data| && j < |arrays[y].data|
    requires arrays[x].data[i].Some? && arrays[x].data[i] == arrays[y].data[j]
    ensures x == y && i == j
  {
    hide AreBlank, IsFilled, IsLevelAt;
    LevelsEnd(arrays, starts, d, w, rootClass, c, lengths);
    var k := LevelOf(arrays, starts, d, w, rootClass, c, lengths, x, d + 1);
    var l := LevelOf(arrays, starts, d, w, rootClass, c, lengths, y, d + 1);
    SlotLeads(arrays, starts, d, w, rootClass, c, lengths, k, x, i);
    SlotLeads(arrays, starts, d, w, rootClass, c, lengths, l, y, j);
    if k < l {
      StartsAscend(arrays, starts, d, w, rootClass, c, lengths, k + 2, l + 1);
    } else if l < k {
      StartsAscend(arrays, starts, d, w, rootClass, c, lengths, l + 2, k + 1);
    }
    assert IsLevelDone(arrays, starts, k);
  }

  lemma RootLevel(arrays: seq<ArrayObject>, starts: seq<nat>, w: World, rootClass: nat, c: nat, lengths: seq<int>)
    requires |arrays| > 0 && starts == [|arrays| - 1, |arrays|]
    requires arrays[|arrays| - 1] == ArrayObject(rootClass, [None])
    ensures AreLevels(arrays, starts, 0, w, rootClass, c, lengths) && IsLinked(arrays, |arrays| - 1, |arrays|)
  {
    assert IsLevelAt(arrays, starts, 0, ClassOfLevel(w, rootClass, c, 0), WidthOfLevel(lengths, 0));
  }

  lemma LevelOfStarts(arrays: seq<ArrayObject>, starts: seq<nat>, d: nat, w: World, rootClass: nat, c: nat,
                      lengths: seq<int>)
    requires AreLevels(arrays, starts, d, w, rootClass, c, lengths)
    ensures WidthOfLevel(lengths, d) >= 0
    ensures IsLevel(arrays, starts[d], |arrays|, ClassOfLevel(w, rootClass, c, d), WidthOfLevel(lengths, d))
  {
    assert IsLevelAt(arrays, starts, d, ClassOfLevel(w, rootClass, c, d), WidthOfLevel(lengths, d));
  }

  lemma NewLevelFacts(arrays: seq<ArrayObject>, e: nat, clazz: nat, length: nat, last: bool, head: Option<nat>)
    requires IsNewLevel(arrays, e, clazz, length, last, head)
    ensures e <= |arrays| && IsLevel(arrays, e, |arrays|, clazz, length)
    ensures last ==> AreBlank(arrays, e, |arrays|)
    ensures !last ==> IsLinked(arrays, e, |arrays|) && head == LinkTo(e, |arrays|)
  {
  }

  /** A level below a level of arrays with slots has arrays. */
  lemma LevelGrows(arrays: seq<ArrayObject>, before: seq<ArrayObject>, s: nat, e: nat, c: nat, width: nat)
    requires IsFilledFrom(arrays, before, s, s, e, c, width) && s < e && width > 0
    ensures |arrays| > e
  {
    Positive(e - s, width);
  }

  lemma Positive(a: nat, b: nat)
    requires a > 0 && b > 0
    ensures a * b > 0
  {
  }

  /** The only slot of the root refers to the only array of the level below. */
  lemma RootLeads(arrays: seq<ArrayObject>, starts: seq<nat>, d: nat, w: World, rootClass: nat, c: nat,
                  lengths: seq<int>)
    requires AreLevels(arrays, starts, d, w, rootClass, c, lengths) && d > 0 && starts[1] == starts[0] + 1
    ensures starts[0] < |arrays| && |arrays[starts[0]].data| == 1 && arrays[starts[0]].data[0].Some?
    ensures starts[1] <= arrays[starts[0]].data[0].value < starts[2]
  {
    assert IsLevelAt(arrays, starts, 0, ClassOfLevel(w, rootClass, c, 0), WidthOfLevel(lengths, 0));
    assert IsLevelDone(arrays, starts, 0);
  }

  class ArrayHeap {
    const world: World
    /** The number of arrays that there is space for. */
    const capacity: nat
    var arrays: seq<ArrayObject>

    constructor (world: World, capacity: nat)
      ensures this.world == world && this.capacity == capacity && arrays == []
    {
      this.world, this.capacity, arrays := world, capacity, [];
    }

    method InstantiateArray(clazz: nat, length: nat) returns (r: Option<nat>)
      modifies this
      ensures r.Some? ==>
                r.value == |old(arrays)| && arrays == old(arrays) + [ArrayObject(clazz, seq(length, _ => None))]
      ensures r.None? ==> arrays == old(arrays) && (|arrays| >= capacity || length > MAXIMAL_LENGTH)
    {
      if length > MAXIMAL_LENGTH || |arrays| >= capacity {
        return None;
      }
      r := Some(|arrays|);
      arrays := arrays + [ArrayObject(clazz, seq(length, _ => None))];
    }

    method SetSlot(x: nat, i: nat, v: Option<nat>)
      requires x < |arrays| && i < |arrays[x].data|
      modifies this
      ensures arrays == old(arrays)[x := old(arrays)[x].(data := old(arrays)[x].data[i := v])]
    {
      arrays := arrays[x := arrays[x].(data := arrays[x].data[i := v])];
    }

    /**
     * Creates an array for each slot of array p, and links the new arrays into the list unless they are on the last
     * level.
     */
    method FillArray(p: nat, width: nat, clazz: nat, length: nat, last: bool, ghost e: nat, head: Option<nat>)
        returns (ok: bool, currArraySet: Option<nat>)
      requires p < e <= |arrays| && |arrays[p].data| == width && (last || length > 0)
      requires IsNewLevel(arrays, e, clazz, length, last, head)
      modifies this
      ensures |arrays| >= |old(arrays)| && arrays[..p] == old(arrays)[..p] && arrays[p + 1..e] == old(arrays)[p + 1..e]
      ensures !ok ==> |arrays| >= capacity || length > MAXIMAL_LENGTH
      ensures ok ==>
                && |arrays| == |old(arrays)| + width && arrays[p].clazz == old(arrays[p].clazz)
                   && |arrays[p].data| == width
                && (forall i | 0 <= i < width :: arrays[p].data[i] == Some(|old(arrays)| + i))
                && IsNewLevel(arrays, e, clazz, length, last, currArraySet)
    {
      currArraySet := head;
      ghost var n := |arrays|;
      for index := 0 to width
        invariant |arrays| == n + index && arrays[..p] == old(arrays)[..p] && arrays[p + 1..e] == old(arrays)[p + 1..e]
        invariant arrays[p].clazz == old(arrays[p].clazz) && |arrays[p].data| == width
        invariant forall i | 0 <= i < index :: arrays[p].data[i] == Some(n + i)
        invariant IsNewLevel(arrays, e, clazz, length, last, currArraySet)
      {
        var currArray := InstantiateArray(clazz, length);
        if currArray.None? {
          return false, None;
        }
        SetSlot(p, index, currArray);
        if !last {
          SetSlot(currArray.value, 0, currArraySet);
          currArraySet := currArray;
        }
      }
      ok := true;
    }
  
    /** Fills the slots of all arrays of the previous level, which are s to e - 1. */
    method BuildLevel(ghost s: nat, ghost c: nat, width: nat, clazz: nat, length: nat, last: bool, head: Option<nat>)
        returns (ok: bool, currArraySet: Option<nat>)
      requires s < |arrays| && width > 0 && (last || length > 0)
      requires IsLevel(arrays, s, |arrays|, c, width) && IsLinked(arrays, s, |arrays|) && head == LinkTo(s, |arrays|)
      modifies this
      ensures |arrays| >= |old(arrays)| && arrays[..s] == old(arrays)[..s]
      ensures !ok ==> |arrays| >= capacity || length > MAXIMAL_LENGTH
      ensures ok ==> IsFilledFrom(arrays, old(arrays), s, s, |old(arrays)|, c, width)
                     && IsNewLevel(arrays, |old(arrays)|, clazz, length, last, currArraySet)
    {
      hide IsFilled, IsInjective, IsNewLevel, IsLevel;
      ghost var before, e, x := arrays, |arrays|, |arrays|;
      var prevArraySet := head;
      currArraySet := None;
      NothingFilled(arrays, s, c, width, clazz, length, last);
      while prevArraySet != None
        invariant s <= x <= e && prevArraySet == LinkTo(s, x)
        invariant IsFilledFrom(arrays, before, s, x, e, c, width)
        invariant IsNewLevel(arrays, e, clazz, length, last, currArraySet)
        decreases x
      {
        var prevArray := prevArraySet.value;
        assert arrays[prevArray] == arrays[..x][prevArray] == before[prevArray];
        LevelAt(arrays, s, e, c, width, prevArray);
        prevArraySet := arrays[prevArray].data[0];
        ghost var previous := arrays;
        ok, currArraySet := FillArray(prevArray, width, clazz, length, last, e, currArraySet);
        assert arrays[..s] == arrays[..prevArray][..s] == before[..s];
        if !ok {
          return false, None;
        }
        FilledOneMore(previous, arrays, before, s, prevArray, e, c, width);
        x := x - 1;
      }
      ok := true;
    }
  
    /**
     * Creates an array of arrays with the given lengths. The result is NULL if a length is negative (and nothing has
     * been created) or if there is no space for an array.
     */
    method InstantiateMultiArray(objectArrayClass: nat, arrayClass: nat,
                                 lengths: seq<int>) returns (result: Option<nat>, negative: bool)
      requires |lengths| > 0
      modifies this
      ensures negative <==> exists i :: 0 <= i < |lengths| && lengths[i] < 0
      ensures negative ==> result == None && arrays == old(arrays)
      ensures |arrays| >= |old(arrays)| && arrays[..|old(arrays)|] == old(arrays)
      ensures result.None? ==> negative || |arrays| >= capacity || exists i ::
                0 <= i < |lengths| && lengths[i] > MAXIMAL_LENGTH
      ensures result.Some? ==>
                IsMultiArray(arrays, world, arrayClass, lengths, result.value) && IsForest(arrays, |old(arrays)|)
    {
      hide IsFilled, IsInjective, IsForest, IsMultiArray, AreLevels, IsNewLevel, AreBlank, IsFilledFrom;
      negative := false;
      for i := 0 to |lengths|
        invariant forall k | 0 <= k < i :: lengths[k] >= 0
      {
        if lengths[i] < 0 {
          return None, true;
        }
      }
      var rootArray := InstantiateArray(objectArrayClass, 1);
      if rootArray.None? {
        return None, false;
      }
      ghost var b, w := rootArray.value, world;
      ghost var starts: seq<nat> := [b, b + 1];
      RootLevel(arrays, starts, w, objectArrayClass, arrayClass, lengths);
      var currArraySet, currArrayWidth: nat, currClass, currDepth := rootArray, 1, arrayClass, 0;
      while true
        invariant currDepth < |lengths|
        invariant AreLevels(arrays, starts, currDepth, w, objectArrayClass, arrayClass, lengths)
        invariant |starts| == currDepth + 2 && starts[0] == b && starts[1] == b + 1
        invariant b <= starts[currDepth] < starts[currDepth + 1] == |arrays|
        invariant IsLinked(arrays, starts[currDepth], |arrays|) && currArraySet == LinkTo(starts[currDepth], |arrays|)
        invariant currArrayWidth == WidthOfLevel(lengths, currDepth) > 0
        invariant currClass == ClassAt(w, arrayClass, currDepth)
        invariant arrays[..b] == old(arrays) && forall i | 0 <= i < currDepth :: lengths[i] > 0
        decreases |lengths| - currDepth
      {
        var prevArrayWidth := currArrayWidth;
        currArrayWidth := lengths[currDepth];
        var lastIteration := currDepth == |lengths| - 1 || currArrayWidth == 0;
        ghost var before := arrays;
        LevelOfStarts(arrays, starts, currDepth, w, objectArrayClass, arrayClass, lengths);
        var ok;
        ok, currArraySet :=
          BuildLevel(starts[currDepth], ClassOfLevel(w, objectArrayClass, arrayClass, currDepth), prevArrayWidth,
                     currClass,
                                       currArrayWidth, lastIteration, currArraySet);
        assert arrays[..b] == arrays[..starts[currDepth]][..b] == old(arrays);
        if !ok {
          return None, false;
        }
        LevelGrows(arrays, before, starts[currDepth], |before|,
                   ClassOfLevel(w, objectArrayClass, arrayClass, currDepth), prevArrayWidth);
        NewLevelFacts(arrays, |before|, currClass, currArrayWidth, lastIteration, currArraySet);
        LevelAdded(before, arrays, starts, currDepth, w, objectArrayClass, arrayClass, lengths);
        starts := starts + [|arrays|];
        currDepth := currDepth + 1;
        if lastIteration {
          break;
        }
        ClassAtAdds(w, arrayClass, currDepth - 1);
        currClass := ClassAt(world, currClass, 1);
      }
      RootLeads(arrays, starts, currDepth, w, objectArrayClass, arrayClass, lengths);
      result := arrays[rootArray.value].data[0];
      BuiltFrom(arrays, starts, currDepth, w, objectArrayClass, arrayClass, lengths, 0, result.value);
      assert lengths[0..] == lengths;
      LevelsAreForest(arrays, starts, currDepth, w, objectArrayClass, arrayClass, lengths);
    }
  }
}
