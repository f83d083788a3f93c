/** The inline cache (cache.c): method call sites are patched to refer to cache entries, and can always be restored. */
module InlineCaching {

  import opened ClassTables

  const INLINECACHESIZE := 128

  type Byte = x: int | 0 <= x < 256
  type Short = x: int | -0x8000 <= x < 0x8000

  const INVOKEVIRTUAL: Byte := 0xB6
  const INVOKEINTERFACE: Byte := 0xB9
  const ANEWARRAY: Byte := 0xBD
  const INVOKEVIRTUAL_FAST: Byte := 0xD6
  const INVOKEINTERFACE_FAST: Byte := 0xD9
  const ANEWARRAY_FAST: Byte := 0xDB

  /** Instructions that get a cache entry when they are executed for the first time. */
  predicate IsSlow(opcode: Byte) {
    opcode == INVOKEVIRTUAL || opcode == INVOKEINTERFACE || opcode == ANEWARRAY
  }

  predicate IsFast(opcode: Byte) {
    opcode == INVOKEVIRTUAL_FAST || opcode == INVOKEINTERFACE_FAST || opcode == ANEWARRAY_FAST
  }

  function FastOf(opcode: Byte): (fast: Byte)
    requires IsSlow(opcode)
    ensures IsFast(fast) && !IsSlow(fast)
  {
    if opcode == INVOKEVIRTUAL then INVOKEVIRTUAL_FAST
    else if opcode == INVOKEINTERFACE then INVOKEINTERFACE_FAST
    else ANEWARRAY_FAST
  }

  function GetUShort(high: Byte, low: Byte): nat {
    256 * high + low
  }

  function GetShort(high: Byte, low: Byte): Short {
    if GetUShort(high, low) < 0x8000 then GetUShort(high, low) else GetUShort(high, low) - 0x1_0000
  }

  function HighByte(value: int): Byte {
    (value % 0x1_0000) / 256
  }

  function LowByte(value: int): Byte {
    value % 256
  }

  /** What getShort has read, putShort writes back. */
  lemma ShortRoundTrip(high: Byte, low: Byte)
    ensures HighByte(GetShort(high, low)) == high && LowByte(GetShort(high, low)) == low
  {
    var v: int := GetShort(high, low);
    assert v % 0x1_0000 == GetUShort(high, low);
    assert v == 256 * (if GetUShort(high, low) < 0x8000 then high else high - 256) + low;
  }

  lemma IndexRoundTrip(index: nat)
    requires index < 0x1_0000
    ensures GetUShort(HighByte(index), LowByte(index)) == index
  {
  }

  /** What a cache entry holds: a method, an array class, or NULL. */
  datatype Contents = Null | MethodPointer(m: Method) | ClassPointer(c: nat)

  /** One cache entry: its contents, the code location that uses it, and the three bytes that were there before. */
  datatype Entry = Entry(contents: Contents, codeLoc: nat, origParam: Short, origInst: Byte)

  /** Instructions start at the sites and do not overlap. */
  ghost predicate Apart(sites: set<nat>, length: nat) {
    && (forall s | s in sites :: s + 3 <= length)
    && (forall s, r | s in sites && r in sites && s < r :: s + 3 <= r)
  }

  /** The entry is in use: its site holds the fast instruction, with the index of the entry as its operand. */
  ghost predicate InUse(code: seq<Byte>, original: seq<Byte>, sites: set<nat>, e: Entry, index: nat) {
    && e.codeLoc in sites && e.codeLoc + 3 <= |code| == |original| && IsSlow(e.origInst)
    && code[e.codeLoc] == FastOf(e.origInst) && GetUShort(code[e.codeLoc + 1], code[e.codeLoc + 2]) == index
    && original[e.codeLoc] == e.origInst && GetShort(original[e.codeLoc + 1], original[e.codeLoc + 2]) == e.origParam
  }

  /** Byte k belongs to the site of one of the entries in use. */
  ghost predicate Covered(entries: seq<Entry>, live: set<nat>, k: int) {
    exists i | i in live :: i < |entries| && entries[i].codeLoc <= k < entries[i].codeLoc + 3
  }

  ghost predicate HasSite(entries: seq<Entry>, live: set<nat>, s: nat) {
    exists i | i in live :: i < |entries| && entries[i].codeLoc == s
  }

  /**
   * The code differs from the original code in the sites of the entries in use, and nowhere else; different entries
   * have different sites, and every fast instruction has an entry.
   */
  ghost predicate Consistent(code: seq<Byte>, original: seq<Byte>, sites: set<nat>, entries: seq<Entry>,
                             live: set<nat>) {
    && |code| == |original| && Apart(sites, |code|)
    && (forall i | i in live :: i < |entries| && InUse(code, original, sites, entries[i], i))
    && (forall i, j | i in live && j in live && i != j ::
          i < |entries| && j < |entries| && entries[i].codeLoc != entries[j].codeLoc)
    && (forall k {:trigger code[k]} | 0 <= k < |code| && !Covered(entries, live, k) :: code[k] == original[k])
    && (forall s | s in sites && s < |code| && IsFast(code[s]) :: HasSite(entries, live, s))
    && (forall s | s in sites && s < |code| :: !IsFast(original[s]))
  }

  /** Putting the saved instruction back restores the original code of the site. */
  function Restored(code: seq<Byte>, e: Entry): seq<Byte>
    requires e.codeLoc + 3 <= |code|
  {
    code[e.codeLoc := e.origInst][e.codeLoc + 1 := HighByte(e.origParam)][e.codeLoc + 2 := LowByte(e.origParam)]
  }

  lemma RestoredIsOriginal(code: seq<Byte>, original: seq<Byte>, sites: set<nat>, e: Entry, index: nat)
    requires InUse(code, original, sites, e, index)
    ensures |Restored(code, e)| == |code| == |original|
    ensures forall k | e.codeLoc <= k < e.codeLoc + 3 :: Restored(code, e)[k] == original[k]
    ensures forall k | 0 <= k < |code| && !(e.codeLoc <= k < e.codeLoc + 3) :: Restored(code, e)[k] == code[k]
  {
    hide GetShort, HighByte, LowByte;
    ShortRoundTrip(original[e.codeLoc + 1], original[e.codeLoc + 2]);
  }

  /** Entry e stays away from the instruction at `site`. */
  predicate Elsewhere(e: Entry, site: nat) {
    e.codeLoc + 3 <= site || site + 3 <= e.codeLoc
  }

  /** The entries that stay in use are not affected. */
  lemma ReleasedStays(code: seq<Byte>, original: seq<Byte>, sites: set<nat>, e: Entry, i: nat, f: Entry, j: nat)
    requires Apart(sites, |code|) && InUse(code, original, sites, e, i) && InUse(code, original, sites, f, j)
    requires e.codeLoc != f.codeLoc
    ensures InUse(Restored(code, e), original, sites, f, j)
  {
    RestoredIsOriginal(code, original, sites, e, i);
    hide Restored, IsSlow, FastOf, GetShort, GetUShort;
    assert Elsewhere(f, e.codeLoc);
  }

  lemma UncoveredStill(entries: seq<Entry>, live: set<nat>, i: nat, k: nat)
    requires i in live && i < |entries| && !(entries[i].codeLoc <= k < entries[i].codeLoc + 3)
    requires !Covered(entries, live - {i}, k)
    ensures !Covered(entries, live, k)
  {
  }

  lemma OtherSiteStill(entries: seq<Entry>, live: set<nat>, i: nat, s: nat)
    requires i in live && i < |entries| && s != entries[i].codeLoc && HasSite(entries, live, s)
    ensures HasSite(entries, live - {i}, s)
  {
  }

  lemma InUseSite(code: seq<Byte>, original: seq<Byte>, sites: set<nat>, e: Entry, i: nat)
    requires InUse(code, original, sites, e, i)
    ensures e.codeLoc in sites && e.codeLoc + 3 <= |code| == |original| && original[e.codeLoc] == e.origInst
  {
  }

  /** Bytes of other instructions stay. */
  lemma RestoredElsewhere(code: seq<Byte>, original: seq<Byte>, sites: set<nat>, e: Entry, i: nat, s: nat)
    requires Apart(sites, |code|) && InUse(code, original, sites, e, i) && s in sites && s < |code| && s != e.codeLoc
    ensures Restored(code, e)[s] == code[s]
  {
    RestoredIsOriginal(code, original, sites, e, i);
  }

  lemma ReleaseKeeps(code: seq<Byte>, original: seq<Byte>, sites: set<nat>, entries: seq<Entry>, live: set<nat>, i: nat)
    requires Consistent(code, original, sites, entries, live) && i in live && i < |entries|
    requires entries[i].codeLoc + 3 <= |code|
    ensures Consistent(Restored(code, entries[i]), original, sites, entries, live - {i})
    ensures Restored(code, entries[i])[entries[i].codeLoc] == entries[i].origInst
  {
    hide Restored, IsFast, IsSlow, FastOf, GetShort, GetUShort, InUse, Covered, HasSite, Apart;
    var code', live', site := Restored(code, entries[i]), live - {i}, entries[i].codeLoc;
    assert InUse(code, original, sites, entries[i], i);
    InUseSite(code, original, sites, entries[i], i);
    RestoredIsOriginal(code, original, sites, entries[i], i);
    forall j | j in live'
      ensures j < |entries| && InUse(code', original, sites, entries[j], j)
    {
      ReleasedStays(code, original, sites, entries[i], i, entries[j], j);
    }
    forall k | 0 <= k < |code'| && !Covered(entries, live', k)
      ensures code'[k] == original[k]
    {
      if !(site <= k < site + 3) {
        UncoveredStill(entries, live, i, k);
      }
    }
    forall s | s in sites && s < |code'| && IsFast(code'[s])
      ensures HasSite(entries, live', s)
    {
      assert s != site;
      RestoredElsewhere(code, original, sites, entries[i], i, s);
      OtherSiteStill(entries, live, i, s);
    }
  }

  /** The code after the slow instruction at `site` has been replaced by its fast form with operand `index`. */
  function Patched(code: seq<Byte>, site: nat, index: nat): seq<Byte>
    requires site + 3 <= |code| && IsSlow(code[site])
  {
    code[site := FastOf(code[site])][site + 1 := HighByte(index)][site + 2 := LowByte(index)]
  }

  /** The entry that createInlineCacheEntry fills in. */
  function NewEntry(code: seq<Byte>, site: nat, contents: Contents): Entry
    requires site + 3 <= |code|
  {
    Entry(contents, site, GetShort(code[site + 1], code[site + 2]), code[site])
  }

  lemma SlowSiteIsUnused(code: seq<Byte>, original: seq<Byte>, sites: set<nat>, entries: seq<Entry>, live: set<nat>,
                         site: nat)
    requires Consistent(code, original, sites, entries, live) && site in sites && site < |code| && !IsFast(code[site])
    ensures forall i | i in live :: i < |entries| && Elsewhere(entries[i], site)
    ensures forall k | site <= k < site + 3 :: k < |code| && code[k] == original[k]
  {
    hide GetShort, GetUShort;
    forall i | i in live
      ensures i < |entries| && Elsewhere(entries[i], site)
    {
      assert InUse(code, original, sites, entries[i], i);
    }
    forall k | site <= k < site + 3
      ensures code[k] == original[k]
    {
      assert !Covered(entries, live, k);
    }
  }

  /** An entry that stays away from the patched instruction is in use as before. */
  lemma InUseElsewhere(code: seq<Byte>, original: seq<Byte>, sites: set<nat>, e: Entry, i: nat, site: nat, index: nat)
    requires InUse(code, original, sites, e, i) && site + 3 <= |code| && IsSlow(code[site]) && Elsewhere(e, site)
    ensures InUse(Patched(code, site, index), original, sites, e, i)
  {
    hide IsFast, IsSlow, FastOf, GetShort, GetUShort, HighByte, LowByte;
  }

  /** The new entry is in use at the patched instruction. */
  lemma NewEntryInUse(code: seq<Byte>, original: seq<Byte>, sites: set<nat>, site: nat, i: nat, contents: Contents)
    requires site in sites && site + 3 <= |code| == |original| && IsSlow(code[site]) && i < 0x1_0000
    requires forall k | site <= k < site + 3 :: code[k] == original[k]
    ensures InUse(Patched(code, site, i), original, sites, NewEntry(code, site, contents), i)
  {
    hide GetShort, HighByte, LowByte;
    IndexRoundTrip(i);
  }

  lemma PatchedOutside(code: seq<Byte>, site: nat, i: nat)
    requires site + 3 <= |code| && IsSlow(code[site])
    ensures |Patched(code, site, i)| == |code|
    ensures forall k | 0 <= k < |code| && !(site <= k < site + 3) :: Patched(code, site, i)[k] == code[k]
  {
  }

  /** Installing an entry that is not in use at a slow instruction keeps the invariant. */
  lemma AddKeeps(code: seq<Byte>, original: seq<Byte>, sites: set<nat>, entries: seq<Entry>, live: set<nat>, site: nat,
                 i: nat, contents: Contents)
    requires Consistent(code, original, sites, entries, live) && i !in live && i < |entries| <= 0x1_0000
    requires site in sites && site + 3 <= |code| && IsSlow(code[site])
    ensures Consistent(Patched(code, site, i), original, sites, entries[i := NewEntry(code, site, contents)],
                       live + {i})
  {
    hide Patched, FastOf, GetShort, GetUShort, HighByte, LowByte, InUse;
    var code', live', entries' := Patched(code, site, i), live + {i}, entries[i := NewEntry(code, site, contents)];
    SlowSiteIsUnused(code, original, sites, entries, live, site);
    PatchedOutside(code, site, i);
    NewEntryInUse(code, original, sites, site, i, contents);
    forall j | j in live
      ensures j < |entries'| && entries'[j] == entries[j] && InUse(code', original, sites, entries'[j], j)
    {
      InUseElsewhere(code, original, sites, entries[j], j, site, i);
    }
    forall k | 0 <= k < |code'| && !Covered(entries', live', k)
      ensures code'[k] == original[k]
    {
      assert i in live' && entries'[i].codeLoc == site;
      assert Covered(entries, live, k) ==> Covered(entries', live', k);
    }
    forall s | s in sites && s < |code'| && IsFast(code'[s])
      ensures HasSite(entries', live', s)
    {
      assert i in live' && entries'[i].codeLoc == site;
      assert s != site ==> HasSite(entries, live, s);
      assert HasSite(entries, live, s) ==> HasSite(entries', live', s);
    }
  }

  /** With no entry in use the code is the original code. */
  lemma NoEntriesLeft(code: seq<Byte>, original: seq<Byte>, sites: set<nat>, entries: seq<Entry>)
    requires Consistent(code, original, sites, entries, {})
    ensures code == original
  {
    forall k | 0 <= k < |code|
      ensures code[k] == original[k]
    {
      assert !Covered(entries, {}, k);
    }
  }

  predicate IsLive(i: nat, pointer: nat, full: bool) {
    i < if full then INLINECACHESIZE else pointer
  }

  /** The entries in use: all of them once the area has been full, else those below the pointer. */
  function LiveEntries(pointer: nat, full: bool): (live: set<nat>)
    ensures forall i: nat :: i in live <==> i < if full then INLINECACHESIZE else pointer
  {
    set i: nat | i < pointer + INLINECACHESIZE && IsLive(i, pointer, full)
  }

  /** Where the window of the last INLINECACHESIZE elements of a history of this length starts. */
  function WindowStart(length: nat): nat {
    if length < INLINECACHESIZE then 0 else length - INLINECACHESIZE
  }

  /** The entries hold the most recently cached sites: the j-th site cached is in entry j modulo INLINECACHESIZE. */
  ghost predicate Recent(history: seq<nat>, entries: seq<Entry>, pointer: nat, full: bool) {
    && |entries| == INLINECACHESIZE && pointer == |history| % INLINECACHESIZE && full == (|history| >= INLINECACHESIZE)
    && (forall j {:trigger history[j]} | WindowStart(|history|) <= j < |history| ::
          entries[j % INLINECACHESIZE].codeLoc == history[j])
  }

  lemma RecentGrows(history: seq<nat>, entries: seq<Entry>, pointer: nat, full: bool, e: Entry)
    requires Recent(history, entries, pointer, full)
    ensures Recent(history + [e.codeLoc], entries[pointer := e], (pointer + 1) % INLINECACHESIZE, full
                   || pointer + 1 == INLINECACHESIZE)
  {
    var history', entries' := history + [e.codeLoc], entries[pointer := e];
    forall j | WindowStart(|history'|) <= j < |history'|
      ensures entries'[j % INLINECACHESIZE].codeLoc == history'[j]
    {
      if j < |history| {
        assert 0 < |history| - j < INLINECACHESIZE;
        assert j % INLINECACHESIZE != |history| % INLINECACHESIZE;
        assert history'[j] == history[j];
      }
    }
  }

  lemma SameIndex(q: int, i: nat)
    requires i < INLINECACHESIZE
    ensures (INLINECACHESIZE * q + i) % INLINECACHESIZE == i
  {
  }

  /** The position in the window of the entry with index i. */
  function WhenCached(length: nat, i: nat): (j: nat)
    requires i < (if length >= INLINECACHESIZE then INLINECACHESIZE else length % INLINECACHESIZE)
    ensures WindowStart(length) <= j < length && j % INLINECACHESIZE == i
  {
    var q := length / INLINECACHESIZE;
    SameIndex(q, i);
    SameIndex(q - 1, i);
    var last := INLINECACHESIZE * q + i;
    if last < length then last else last - INLINECACHESIZE
  }

  /** Site s is one of the last INLINECACHESIZE sites cached. */
  ghost predicate IsRecent(history: seq<nat>, s: nat) {
    exists j :: WindowStart(|history|) <= j < |history| && history[j] == s
  }

  lemma RecentSiteIsFast(code: seq<Byte>, original: seq<Byte>, sites: set<nat>, entries: seq<Entry>, history: seq<nat>,
                         pointer: nat, full: bool, j: nat)
    requires Recent(history, entries, pointer, full)
    requires Consistent(code, original, sites, entries, LiveEntries(pointer, full))
    requires WindowStart(|history|) <= j < |history|
    ensures history[j] < |code| && IsFast(code[history[j]])
  {
    hide GetShort, GetUShort;
    var i := j % INLINECACHESIZE;
    assert i in LiveEntries(pointer, full);
    assert InUse(code, original, sites, entries[i], i) && entries[i].codeLoc == history[j];
  }

  lemma FastSiteIsRecent(code: seq<Byte>, original: seq<Byte>, sites: set<nat>, entries: seq<Entry>, history: seq<nat>,
                         pointer: nat, full: bool, s: nat)
    requires Recent(history, entries, pointer, full)
    requires Consistent(code, original, sites, entries, LiveEntries(pointer, full))
    requires s in sites && s < |code| && IsFast(code[s])
    ensures IsRecent(history, s)
  {
    hide IsFast, InUse;
    assert HasSite(entries, LiveEntries(pointer, full), s);
    var i :| i in LiveEntries(pointer, full) && i < |entries| && entries[i].codeLoc == s;
    var j := WhenCached(|history|, i);
    assert history[j] == entries[j % INLINECACHESIZE].codeLoc;
  }

  lemma RecentSitesDiffer(entries: seq<Entry>, history: seq<nat>, pointer: nat, full: bool, j: nat, k: nat)
    requires Recent(history, entries, pointer, full) && WindowStart(|history|) <= j < k < |history|
    requires forall i, l | i in LiveEntries(pointer, full) && l in LiveEntries(pointer, full) && i != l ::
               i < |entries| && l < |entries| && entries[i].codeLoc != entries[l].codeLoc
    ensures history[j] != history[k]
  {
    assert 0 < k - j < INLINECACHESIZE;
    assert j % INLINECACHESIZE != k % INLINECACHESIZE;
    assert j % INLINECACHESIZE in LiveEntries(pointer, full) && k % INLINECACHESIZE in LiveEntries(pointer, full);
  }

  /**
   * The instructions in fast form are those of the last INLINECACHESIZE calls of Install, and these are all different.
   */
  lemma FastSitesAreTheRecentOnes(code: seq<Byte>, original: seq<Byte>, sites: set<nat>, entries: seq<Entry>,
                                  history: seq<nat>, pointer: nat, full: bool)
    requires Recent(history, entries, pointer, full)
    requires Consistent(code, original, sites, entries, LiveEntries(pointer, full))
    ensures forall s | s in sites && s < |code| :: IsFast(code[s]) <==> IsRecent(history, s)
    ensures forall j, k | WindowStart(|history|) <= j < k < |history| :: history[j] != history[k]
  {
    hide IsFast, Recent, InUse, HasSite, Covered;
    forall s | s in sites && s < |code|
      ensures IsFast(code[s]) <==> IsRecent(history, s)
    {
      if IsFast(code[s]) {
        FastSiteIsRecent(code, original, sites, entries, history, pointer, full, s);
      }
      if IsRecent(history, s) {
        var j :| WindowStart(|history|) <= j < |history| && history[j] == s;
        RecentSiteIsFast(code, original, sites, entries, history, pointer, full, j);
      }
    }
    forall j, k | WindowStart(|history|) <= j < k < |history|
      ensures history[j] != history[k]
    {
      RecentSitesDiffer(entries, history, pointer, full, j, k);
    }
  }

  /** The entries differ at most in their contents. */
  ghost predicate SamePlaces(entries: seq<Entry>, entries': seq<Entry>) {
    && |entries'| == |entries|
    && forall i {:trigger entries'[i]} | 0 <= i < |entries| ::
         entries'[i] == entries[i].(contents := entries'[i].contents)
  }

  lemma SameSites(entries: seq<Entry>, entries': seq<Entry>, live: set<nat>, s: nat)
    requires SamePlaces(entries, entries') && HasSite(entries, live, s)
    ensures HasSite(entries', live, s)
  {
    var i :| i in live && i < |entries| && entries[i].codeLoc == s;
    assert entries'[i].codeLoc == s;
  }

  lemma SameCover(entries: seq<Entry>, entries': seq<Entry>, live: set<nat>, k: int)
    requires SamePlaces(entries, entries') && Covered(entries, live, k)
    ensures Covered(entries', live, k)
  {
    var i :| i in live && i < |entries| && entries[i].codeLoc <= k < entries[i].codeLoc + 3;
    assert entries'[i].codeLoc == entries[i].codeLoc;
  }

  /** The invariant does not depend on what the entries contain. */
  lemma UpdateKeeps(code: seq<Byte>, original: seq<Byte>, sites: set<nat>, entries: seq<Entry>, entries': seq<Entry>,
                    live: set<nat>)
    requires Consistent(code, original, sites, entries, live) && SamePlaces(entries, entries')
    ensures Consistent(code, original, sites, entries', live)
  {
    hide IsFast, IsSlow, FastOf, GetShort, GetUShort, HasSite, Covered, Apart;
    forall j | j in live
      ensures j < |entries'| && InUse(code, original, sites, entries'[j], j)
      ensures entries'[j].codeLoc == entries[j].codeLoc
    {
      assert InUse(code, original, sites, entries[j], j);
    }
    forall k | 0 <= k < |code| && !Covered(entries', live, k)
      ensures code[k] == original[k]
    {
      if Covered(entries, live, k) {
        SameCover(entries, entries', live, k);
      }
    }
    forall s | s in sites && s < |code| && IsFast(code[s])
      ensures HasSite(entries', live, s)
    {
      SameSites(entries, entries', live, s);
    }
  }

  /** Three bytes at a site replaced by others. */
  function Overwritten(code: seq<Byte>, site: nat, opcode: Byte, high: Byte, low: Byte): seq<Byte>
    requires site + 3 <= |code|
  {
    code[site := opcode][site + 1 := high][site + 2 := low]
  }

  lemma OverwrittenBytes(code: seq<Byte>, site: nat, opcode: Byte, high: Byte, low: Byte)
    requires site + 3 <= |code|
    ensures var code' := Overwritten(code, site, opcode, high, low);
            && |code'| == |code| && code'[site] == opcode && code'[site + 1] == high && code'[site + 2] == low
            && forall k | 0 <= k < |code| && !(site <= k < site + 3) :: code'[k] == code[k]
  {
  }

  /** Entries elsewhere stay in use. */
  lemma QuickenedElsewhere(code: seq<Byte>, original: seq<Byte>, sites: set<nat>, e: Entry, i: nat,
                           site: nat, opcode: Byte, high: Byte, low: Byte)
    requires InUse(code, original, sites, e, i) && site + 3 <= |code| == |original| && Elsewhere(e, site)
    ensures InUse(Overwritten(code, site, opcode, high, low),
                  Overwritten(original, site, opcode, high, low), sites, e, i)
  {
    hide Overwritten, IsSlow, FastOf, GetShort, GetUShort;
    OverwrittenBytes(code, site, opcode, high, low);
    OverwrittenBytes(original, site, opcode, high, low);
  }

  lemma OverwrittenSite(code: seq<Byte>, sites: set<nat>, s: nat, site: nat, opcode: Byte, high: Byte, low: Byte)
    requires Apart(sites, |code|) && site + 3 <= |code| && s in sites && s < |code| && site in sites
    ensures Overwritten(code, site, opcode, high, low)[s] == if s == site then opcode else code[s]
  {
    OverwrittenBytes(code, site, opcode, high, low);
  }

  /** Replacing an instruction for good, without an entry, changes the original code and keeps the invariant. */
  lemma QuickenKeeps(code: seq<Byte>, original: seq<Byte>, sites: set<nat>, entries: seq<Entry>, live: set<nat>,
                     site: nat, opcode: Byte, high: Byte, low: Byte)
    requires Consistent(code, original, sites, entries, live) && site in sites && site + 3 <= |code| == |original|
    requires !IsFast(code[site]) && !IsFast(opcode)
    ensures Consistent(Overwritten(code, site, opcode, high, low), Overwritten(original, site, opcode, high, low),
                       sites, entries, live)
  {
    hide Overwritten, IsFast, IsSlow, FastOf, GetShort, GetUShort, InUse, Covered, HasSite, Elsewhere, Apart;
    var code', original' := Overwritten(code, site, opcode, high, low), Overwritten(original, site, opcode, high, low);
    SlowSiteIsUnused(code, original, sites, entries, live, site);
    OverwrittenBytes(code, site, opcode, high, low);
    OverwrittenBytes(original, site, opcode, high, low);
    forall i | i in live
      ensures i < |entries| && InUse(code', original', sites, entries[i], i)
    {
      QuickenedElsewhere(code, original, sites, entries[i], i, site, opcode, high, low);
    }
    forall k | 0 <= k < |code'| && !Covered(entries, live, k)
      ensures code'[k] == original'[k]
    {
      assert site <= k < site + 3 ==> k == site || k == site + 1 || k == site + 2;
    }
    forall s | s in sites && s < |code'|
      ensures !IsFast(original'[s]) && (IsFast(code'[s]) ==> HasSite(entries, live, s))
    {
      OverwrittenSite(code, sites, s, site, opcode, high, low);
      OverwrittenSite(original, sites, s, site, opcode, high, low);
    }
  }

  /** Releasing an entry does not change an instruction that is not in fast form. */
  lemma ReleaseLeavesSlowSites(code: seq<Byte>, original: seq<Byte>, sites: set<nat>, entries: seq<Entry>,
                               live: set<nat>, i: nat, site: nat)
    requires Consistent(code, original, sites, entries, live) && site in sites && site < |code| && !IsFast(code[site])
    ensures site + 3 <= |code|
    ensures i in live ==>
              i < |entries| && entries[i].codeLoc + 3 <= |code| && Restored(code, entries[i])[site] == code[site]
  {
    SlowSiteIsUnused(code, original, sites, entries, live, site);
    if i in live {
      assert InUse(code, original, sites, entries[i], i);
    }
  }

  /** The live entries after the next one has been filled in. */
  lemma OneMoreLive(index: nat, full: bool)
    requires index < INLINECACHESIZE
    ensures var nowFull := full || index + 1 == INLINECACHESIZE;
            && LiveEntries(index, full) - {index} + {index} == LiveEntries((index + 1) % INLINECACHESIZE, nowFull)
            && LiveEntries((index + 1) % INLINECACHESIZE, nowFull) == LiveEntries(index, full) + {index}
  {
    if index + 1 == INLINECACHESIZE {
      assert (index + 1) % INLINECACHESIZE == 0;
    } else {
      assert (index + 1) % INLINECACHESIZE == index + 1;
    }
  }

  /** The master inline cache, together with the code that it patches. */
  class InlineCache {
    const code: array<Byte>
    const entries: array<Entry>
    var inlineCachePointer: nat
    var inlineCacheAreaFull: bool
    /** The code as it would be without the cache. */
    ghost var original: seq<Byte>
    /** Where the instructions start that can be cached. */
    ghost var sites: set<nat>
    /** The sites cached since initialization, in order. */
    ghost var history: seq<nat>

    ghost predicate Valid()
      reads this, code, entries
    {
      && entries.Length == INLINECACHESIZE && inlineCachePointer < INLINECACHESIZE
      && Consistent(code[..], original, sites, entries[..], LiveEntries(inlineCachePointer, inlineCacheAreaFull))
      && Recent(history, entries[..], inlineCachePointer, inlineCacheAreaFull)
    }

    /** InitializeInlineCaching */
    constructor (code: array<Byte>, ghost sites: set<nat>)
      requires Apart(sites, code.Length) && forall s | s in sites && s < code.Length :: !IsFast(code[s])
      ensures Valid() && fresh(entries) && this.code == code && original == code[..] && this.sites == sites
      ensures history == []
    {
      this.code := code;
      this.sites := sites;
      entries := new Entry[INLINECACHESIZE](_ => Entry(Null, 0, 0, 0));
      inlineCachePointer := 0;
      inlineCacheAreaFull := false;
      original := code[..];
      history := [];
    }

    /** Puts back the instruction that the entry has replaced. */
    method ReleaseInlineCacheEntry(index: nat, ghost live: set<nat>)
      requires index in live && index < entries.Length && Consistent(code[..], original, sites, entries[..], live)
      modifies code
      ensures Consistent(code[..], original, sites, entries[..], live - {index})
      ensures code[..] == Restored(old(code[..]), entries[index])
    {
      assert InUse(code[..], original, sites, entries[..][index], index);
      ReleaseKeeps(code[..], original, sites, entries[..], live, index);
      var codeLoc := entries[index].codeLoc;
      code[codeLoc] := entries[index].origInst;
      code[codeLoc + 1] := HighByte(entries[index].origParam);
      code[codeLoc + 2] := LowByte(entries[index].origParam);
      assert code[..] == Restored(old(code[..]), entries[index]);
    }

    /** Makes an entry for the instruction at `site`, releasing the oldest one if there is no unused entry. */
    method CreateInlineCacheEntry(contents: Contents, site: nat) returns (index: nat)
      requires Valid() && site in sites && site < code.Length && IsSlow(code[site])
      modifies this`inlineCachePointer, this`inlineCacheAreaFull, code, entries
      ensures index == old(inlineCachePointer) && site + 3 <= code.Length && code[site] == old(code[site])
      ensures entries[..] == old(entries[..])[index := NewEntry(code[..], site, contents)]
      ensures inlineCachePointer == (index + 1) % INLINECACHESIZE
      ensures inlineCacheAreaFull == (old(inlineCacheAreaFull) || index + 1 == INLINECACHESIZE)
      ensures Consistent(code[..], original, sites, old(entries[..]),
                         LiveEntries(index, old(inlineCacheAreaFull)) - {index})
    {
      hide Consistent, Recent, GetShort;
      ghost var live := LiveEntries(inlineCachePointer, inlineCacheAreaFull);
      ReleaseLeavesSlowSites(code[..], original, sites, entries[..], live, inlineCachePointer, site);
      if inlineCacheAreaFull {
        ReleaseInlineCacheEntry(inlineCachePointer, live);
      } else {
        assert live - {inlineCachePointer} == live;
      }
      index := inlineCachePointer;
      inlineCachePointer := inlineCachePointer + 1;
      if inlineCachePointer == INLINECACHESIZE {
        inlineCacheAreaFull := true;
        inlineCachePointer := 0;
      }
      entries[index] := Entry(contents, site, GetShort(code[site + 1], code[site + 2]), code[site]);
    }

    /** CREATE_CACHE_ENTRY, REPLACE_BYTECODE and putShort: from now on the instruction at `site` uses the cache. */
    method Install(contents: Contents, site: nat) returns (index: nat)
      requires Valid() && site in sites && site < code.Length && IsSlow(code[site])
      modifies this`inlineCachePointer, this`inlineCacheAreaFull, this`history, code, entries
      ensures Valid() && index < entries.Length && history == old(history) + [site]
      ensures LiveEntries(inlineCachePointer,
                          inlineCacheAreaFull) == old(LiveEntries(inlineCachePointer, inlineCacheAreaFull)) + {index}
      ensures site + 3 <= code.Length && code[site] == FastOf(old(code[site]))
      ensures GetUShort(code[site + 1], code[site + 2]) == index
      ensures entries[..] == old(entries[..])[index := Entry(contents, site, entries[index].origParam, old(code[site]))]
    {
      hide Consistent, GetShort, IsFast, LiveEntries;
      ghost var full := inlineCacheAreaFull;
      index := CreateInlineCacheEntry(contents, site);
      ghost var created := code[..];
      AddKeeps(created, original, sites, old(entries[..]), LiveEntries(index, full) - {index}, site, index, contents);
      RecentGrows(history, old(entries[..]), index, full, entries[index]);
      IndexRoundTrip(index);
      code[site] := FastOf(code[site]);
      code[site + 1] := HighByte(index);
      code[site + 2] := LowByte(index);
      history := history + [site];
      assert code[..] == Patched(created, site, index);
      OneMoreLive(index, full);
    }

    /** A fast instruction stores what it has looked up in its entry. */
    method UpdateContents(index: nat, contents: Contents)
      requires Valid() && index < entries.Length
      modifies entries
      ensures Valid() && entries[..] == old(entries[..])[index := old(entries[index]).(contents := contents)]
    {
      hide Consistent;
      UpdateKeeps(code[..], original, sites, entries[..], entries[..][index := entries[index].(contents := contents)],
                  LiveEntries(inlineCachePointer, inlineCacheAreaFull));
      entries[index] := entries[index].(contents := contents);
      assert entries[..] == old(entries[..])[index := old(entries[index]).(contents := contents)];
    }

    /** An instruction is replaced without an entry, as GETFIELD is by GETFIELD_FAST. */
    method QuickenInPlace(site: nat, opcode: Byte, high: Byte, low: Byte)
      requires Valid() && site in sites && site + 3 <= code.Length && |original| == code.Length
      requires !IsFast(code[site]) && !IsFast(opcode)
      modifies this`original, code
      ensures Valid() && code[..] == Overwritten(old(code[..]), site, opcode, high, low)
      ensures |old(original)| == code.Length && original == Overwritten(old(original), site, opcode, high, low)
    {
      hide Consistent;
      QuickenKeeps(code[..], original, sites, entries[..], LiveEntries(inlineCachePointer, inlineCacheAreaFull), site,
                   opcode, high, low);
      code[site] := opcode;
      code[site + 1] := high;
      code[site + 2] := low;
      original := Overwritten(original, site, opcode, high, low);
      assert code[..] == Overwritten(old(code[..]), site, opcode, high, low);
    }

    /** Puts back all saved instructions: the code is the original code again. */
    method FinalizeInlineCaching()
      requires Valid()
      modifies this`inlineCachePointer, this`inlineCacheAreaFull, this`history, code
      ensures Valid() && code[..] == original && inlineCachePointer == 0 && !inlineCacheAreaFull && history == []
    {
      hide Consistent;
      var last := if inlineCacheAreaFull then INLINECACHESIZE else inlineCachePointer;
      assert LiveEntries(inlineCachePointer, inlineCacheAreaFull) == LiveEntries(last, false);
      while last > 0
        invariant 0 <= last <= INLINECACHESIZE
        invariant Consistent(code[..], original, sites, entries[..], LiveEntries(last, false))
      {
        last := last - 1;
        assert LiveEntries(last + 1, false) - {last} == LiveEntries(last, false);
        ReleaseInlineCacheEntry(last, LiveEntries(last + 1, false));
      }
      inlineCachePointer := 0;
      inlineCacheAreaFull := false;
      history := [];
      assert LiveEntries(0, false) == {};
      NoEntriesLeft(code[..], original, sites, entries[..]);
    }
  }
}
