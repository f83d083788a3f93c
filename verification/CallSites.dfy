/** Call instructions and the inline cache: which method a call executes does not depend on what is cached. */
module CallSites {

  import opened ClassTables
  import opened DynamicDispatch
  import opened InlineCaching
  import opened Options

  const INVOKESPECIAL_FAST: Byte := 0xD7

  /** A resolved constant pool entry: a method, or (for ANEWARRAY) the class of the arrays to create. */
  datatype Reference = MethodReference(m: Method) | ArrayReference(c: nat)

  /**
   * The classes, the class of each instruction that can be cached, the resolved constant pool entries of each class,
   * and the code as it was loaded.
   */
  datatype Program = Program(world: World, caller: map<nat, nat>, pool: map<(nat, nat), Reference>,
                             ghost loaded: seq<Byte>)

  function Resolve(pool: map<(nat, nat), Reference>, caller: nat, high: Byte, low: Byte): Option<Reference> {
    var index := GetUShort(high, low);
    if (caller, index) in pool then Some(pool[(caller, index)]) else None
  }

  datatype Outcome = Called(m: Method) | ArrayCreated(c: nat) | NullPointer | Fatal

  predicate IsCallable(m: Method) {
    m.access.Public? && !m.isStatic
  }

  /** An interface call that looks the method up. */
  ghost function InterfaceOutcome(w: World, caller: nat, reference: Option<Reference>, receiver: Option<nat>): Outcome
    requires WellFormed(w) && (receiver.Some? ==> receiver.value < |w|)
  {
    match reference
    case Some(MethodReference(declared)) =>
      if receiver.None? then NullPointer
      else
        var r := LookupMethod(w, receiver.value, declared.key, Some(caller));
        if r.Some? && IsCallable(r.value) then Called(r.value) else Fatal
    case _ => Fatal
  }

  /** A virtual call that looks the method up. */
  ghost function VirtualOutcome(w: World, reference: Option<Reference>, receiver: Option<nat>): Outcome
    requires WellFormed(w) && (receiver.Some? ==> receiver.value < |w|)
  {
    match reference
    case Some(MethodReference(declared)) =>
      if receiver.None? then NullPointer
      else if declared.ofClass >= |w| then Fatal
      else
        var r := LookupDynamicMethod(w, receiver.value, declared);
        if r.Some? then Called(r.value) else Fatal
    case _ => Fatal
  }

  ghost function ArrayOutcome(reference: Option<Reference>): Outcome {
    match reference
    case Some(ArrayReference(c)) => ArrayCreated(c)
    case _ => Fatal
  }

  /** The reference of the instruction at s, before any change of the code. */
  ghost function Declared(p: Program, s: nat): Option<Reference>
    requires s in p.caller && s + 3 <= |p.loaded|
  {
    Resolve(p.pool, p.caller[s], p.loaded[s + 1], p.loaded[s + 2])
  }

  /** Expected of the instruction at s: what happens without inline caching. */
  ghost function PlainOutcome(p: Program, s: nat, receiver: Option<nat>): Outcome
    requires s in p.caller && s + 3 <= |p.loaded| && WellFormed(p.world)
    requires (receiver.Some? ==> receiver.value < |p.world|)
  {
    if p.loaded[s] == INVOKEINTERFACE then InterfaceOutcome(p.world, p.caller[s], Declared(p, s), receiver)
    else if p.loaded[s] == INVOKEVIRTUAL then VirtualOutcome(p.world, Declared(p, s), receiver)
    else ArrayOutcome(Declared(p, s))
  }

  /**
   * What the instruction at s has to do. An interface call calls the method that is found for the class of the receiver
   * if it is a public instance method; a virtual call calls the method that is dispatched to.
   */
  ghost predicate IsExpected(p: Program, s: nat, receiver: Option<nat>, outcome: Outcome)
    requires s in p.caller && s + 3 <= |p.loaded| && WellFormed(p.world)
    requires (receiver.Some? ==> receiver.value < |p.world|)
  {
    var w, entry := p.world, (p.caller[s], 256 * p.loaded[s + 1] as nat + p.loaded[s + 2] as nat);
    var reference := if entry in p.pool then Some(p.pool[entry]) else None;
    if p.loaded[s] != INVOKEINTERFACE && p.loaded[s] != INVOKEVIRTUAL then
      && (outcome.ArrayCreated? || outcome.Fatal?)
      && forall c :: outcome == ArrayCreated(c) <==> reference == Some(ArrayReference(c))
    else if reference.None? || !reference.value.MethodReference? then outcome == Fatal
    else if receiver.None? then outcome == NullPointer
    else
      && (outcome.Called? || outcome.Fatal?)
      && forall m ::
           outcome == Called(m) <==>
           if p.loaded[s] == INVOKEINTERFACE then
             IsFound(w, receiver.value, reference.value.m.key, Some(p.caller[s]), m) && m.access.Public? && !m.isStatic
           else reference.value.m.ofClass < |w| && IsDispatched(w, receiver.value, reference.value.m, m)
  }

  lemma InterfaceCallsFound(w: World, caller: nat, declared: Method, d: nat, m: Method)
    requires WellFormed(w) && d < |w|
    ensures InterfaceOutcome(w, caller, Some(MethodReference(declared)), Some(d)) == Called(m)
            <==> IsFound(w, d, declared.key, Some(caller), m) && m.access.Public? && !m.isStatic
  {
    hide LookupMethod, IsFound, IsSearched, WellFormed;
    LookupFinds(w, d, declared.key, Some(caller));
    if IsFound(w, d, declared.key, Some(caller), m) {
      FoundIsSearched(w, d, declared.key, Some(caller), m);
      FoundOnce(w, d, declared.key, Some(caller), LookupMethod(w, d, declared.key, Some(caller)).value, m);
    }
  }

  lemma VirtualCallsDispatched(w: World, declared: Method, d: nat, m: Method)
    requires WellFormed(w) && d < |w|
    ensures VirtualOutcome(w, Some(MethodReference(declared)), Some(d)) == Called(m)
            <==> declared.ofClass < |w| && IsDispatched(w, d, declared, m)
  {
    hide LookupDynamicMethod, HasOverriding, WellFormed;
    if declared.ofClass < |w| {
      DispatchFinds(w, d, declared);
      if IsDispatched(w, d, declared, m) {
        DispatchedOnce(w, d, declared, LookupDynamicMethod(w, d, declared).value, m);
      }
    }
  }

  /** The operand of an instruction is an index into the constant pool, its high byte first. */
  lemma DeclaredIs(p: Program, s: nat)
    requires s in p.caller && s + 3 <= |p.loaded|
    ensures var entry := (p.caller[s], 256 * p.loaded[s + 1] as nat + p.loaded[s + 2] as nat);
            Declared(p, s) == if entry in p.pool then Some(p.pool[entry]) else None
  {
  }

  lemma PlainIsExpected(p: Program, s: nat, receiver: Option<nat>)
    requires s in p.caller && s + 3 <= |p.loaded| && WellFormed(p.world)
    requires (receiver.Some? ==> receiver.value < |p.world|)
    ensures IsExpected(p, s, receiver, PlainOutcome(p, s, receiver))
  {
    hide WellFormed, IsFound, IsDispatched, LookupMethod, LookupDynamicMethod, Declared;
    DeclaredIs(p, s);
    var reference, outcome := Declared(p, s), PlainOutcome(p, s, receiver);
    if reference.Some? && reference.value.MethodReference? && receiver.Some? {
      var declared, d := reference.value.m, receiver.value;
      if p.loaded[s] == INVOKEINTERFACE {
        forall m
          ensures outcome == Called(m)
                  <==> IsFound(p.world, d, declared.key, Some(p.caller[s]), m) && m.access.Public? && !m.isStatic
        {
          InterfaceCallsFound(p.world, p.caller[s], declared, d, m);
        }
      } else if p.loaded[s] == INVOKEVIRTUAL {
        forall m
          ensures outcome == Called(m) <==> declared.ofClass < |p.world| && IsDispatched(p.world, d, declared, m)
        {
          VirtualCallsDispatched(p.world, declared, d, m);
        }
      }
    }
  }

  /** An interface call of a method that the class of the receiver has, or inherits, as a public one calls it. */
  lemma InheritedMethodIsCalled(p: Program, s: nat, d: nat, outcome: Outcome, declared: Method, m: Method)
    requires s in p.caller && s + 3 <= |p.loaded| && WellFormed(p.world) && d < |p.world|
    requires p.loaded[s] == INVOKEINTERFACE && Declared(p, s) == Some(MethodReference(declared))
    requires IsExpected(p, s, Some(d), outcome)
    requires m.ofClass < |p.world| && m in p.world[m.ofClass].methods
    requires IsSuperclass(p.world, m.ofClass, Start(p.world, d))
    requires m.key == declared.key && m.access.Public? && !m.isStatic
    requires forall a: nat, o | a < |p.world| && IsSuperclass(p.world, a, Start(p.world, d)) && o in p.world[a].methods
               && o.key == declared.key :: IsSuperclass(p.world, a, m.ofClass)
    ensures outcome == Called(m)
  {
    hide WellFormed, IsSuperclass, Declared;
    DeclaredIs(p, s);
    assert IsLowest(p.world, Start(p.world, d), declared.key, Some(p.caller[s]), m);
  }

  /** The declared method of a virtual call is an instance method that may be cached. */
  ghost predicate GoodVirtual(w: World, reference: Option<Reference>)
    requires WellFormed(w)
  {
    reference.Some? && reference.value.MethodReference? ==>
      IsMethod(w, reference.value.m) && !reference.value.m.isStatic && Stable(w, reference.value.m)
  }

  /** What is assumed of the classes and the code. */
  ghost predicate Good(p: Program, sites: set<nat>) {
    && WellFormed(p.world) && NoWeakening(p.world) && FinalIsFinal(p.world)
    && (forall s | s in sites :: s + 3 <= |p.loaded| && s in p.caller)
    && (forall s | s in sites && p.loaded[s] == INVOKEVIRTUAL :: GoodVirtual(p.world, Declared(p, s)))
  }

  /** The verifier has checked that the receivers of a virtual call have the declared method. */
  ghost predicate GoodReceiver(p: Program, s: nat, receiver: Option<nat>)
    requires s in p.caller && s + 3 <= |p.loaded| && WellFormed(p.world)
  {
    receiver.Some? ==>
      && receiver.value < |p.world|
      && (p.loaded[s] == INVOKEVIRTUAL && Declared(p, s).Some? && Declared(p, s).value.MethodReference? ==>
            IsReceiver(p.world, receiver.value, Declared(p, s).value.m))
  }

  /** An interface call may have stored method m: it is found for the receivers of its own class. */
  ghost predicate InterfaceContents(w: World, caller: nat, reference: Option<Reference>, m: Method)
    requires WellFormed(w)
  {
    && reference.Some? && reference.value.MethodReference? && m.key == reference.value.m.key && IsCallable(m)
       && IsMethod(w, m)
    && LookupMethod(w, m.ofClass, m.key, Some(caller)) == Some(m)
  }

  /** A virtual call may have stored method m: it overrides the declared method. */
  ghost predicate VirtualContents(w: World, reference: Option<Reference>, m: Method)
    requires WellFormed(w)
  {
    && reference.Some? && reference.value.MethodReference? && IsMethod(w, reference.value.m)
    && !reference.value.m.access.Private? && Redeclares(w, m, reference.value.m) && MayRun(w, m, reference.value.m)
  }

  /** The contents that an entry for the instruction at s may have. */
  ghost predicate ContentsOk(p: Program, s: nat, contents: Contents)
    requires s in p.caller && s + 3 <= |p.loaded| && WellFormed(p.world)
  {
    if p.loaded[s] == INVOKEINTERFACE then contents.MethodPointer?
      && InterfaceContents(p.world, p.caller[s], Declared(p, s), contents.m)
    else if p.loaded[s] == INVOKEVIRTUAL then contents.MethodPointer?
      && VirtualContents(p.world, Declared(p, s), contents.m)
    else contents.ClassPointer? && Declared(p, s) == Some(ArrayReference(contents.c))
  }

  ghost predicate EntriesOk(p: Program, sites: set<nat>, entries: seq<Entry>, live: set<nat>)
    requires Good(p, sites)
  {
    forall i | i in live ::
        i < |entries| && entries[i].codeLoc in sites && ContentsOk(p, entries[i].codeLoc, entries[i].contents)
  }

  /** The call instruction at s is as loaded, or has become INVOKESPECIAL_FAST because it needs no lookup. */
  ghost predicate CallOk(p: Program, original: seq<Byte>, s: nat)
    requires s in p.caller && s + 3 <= |p.loaded| == |original| && WellFormed(p.world)
  {
    && original[s + 1] == p.loaded[s + 1] && original[s + 2] == p.loaded[s + 2]
    && (|| original[s] == p.loaded[s]
        || (original[s] == INVOKESPECIAL_FAST && p.loaded[s] == INVOKEVIRTUAL && Declared(p, s).Some?
            && Declared(p, s).value.MethodReference? && IsMethod(p.world, Declared(p, s).value.m)
            && IsSpecial(p.world, Declared(p, s).value.m)))
  }

  ghost predicate CodeOk(p: Program, sites: set<nat>, original: seq<Byte>)
    requires Good(p, sites)
  {
    && |original| == |p.loaded|
    && (forall s | s in sites && IsSlow(p.loaded[s]) :: CallOk(p, original, s))
    && (forall s | s in sites && !IsSlow(p.loaded[s]) :: !IsSlow(original[s]))
  }

  /** A slow instruction still has its operand. */
  lemma SlowInstruction(p: Program, code: seq<Byte>, original: seq<Byte>, sites: set<nat>, entries: seq<Entry>,
                        live: set<nat>, s: nat)
    requires Good(p, sites) && CodeOk(p, sites, original) && Consistent(code, original, sites, entries, live)
    requires s in sites && (IsSlow(code[s]) || code[s] == INVOKESPECIAL_FAST) && IsSlow(p.loaded[s])
    ensures s + 3 <= |code| && code[s] == original[s] && CallOk(p, original, s)
    ensures code[s + 1] == p.loaded[s + 1] && code[s + 2] == p.loaded[s + 2]
  {
    SlowSiteIsUnused(code, original, sites, entries, live, s);
  }

  /** A fast instruction refers to its own entry. */
  lemma FastInstruction(p: Program, code: seq<Byte>, original: seq<Byte>, sites: set<nat>, entries: seq<Entry>,
                        live: set<nat>, s: nat)
    requires Good(p, sites) && CodeOk(p, sites, original) && Consistent(code, original, sites, entries, live)
    requires EntriesOk(p, sites, entries, live)
    requires s in sites && IsFast(code[s])
    ensures s + 3 <= |code| && GetUShort(code[s + 1], code[s + 2]) in live
    ensures GetUShort(code[s + 1], code[s + 2]) < |entries|
    ensures entries[GetUShort(code[s + 1], code[s + 2])].codeLoc == s
    ensures ContentsOk(p, s, entries[GetUShort(code[s + 1], code[s + 2])].contents)
    ensures IsSlow(p.loaded[s]) && code[s] == FastOf(p.loaded[s])
  {
    hide ContentsOk, Covered, GetUShort, GetShort, Apart, GoodVirtual, Resolve;
    assert HasSite(entries, live, s);
    var i :| i in live && i < |entries| && entries[i].codeLoc == s;
    assert InUse(code, original, sites, entries[i], i);
    assert CallOk(p, original, s);
  }

  /** Contents stored in one entry, in use from now on, leave the others as they are. */
  lemma StoreKeeps(p: Program, sites: set<nat>, entries: seq<Entry>, live: set<nat>, i: nat, e: Entry, live': set<nat>)
    requires Good(p, sites) && EntriesOk(p, sites, entries, live) && i < |entries| && live' <= live + {i}
    requires e.codeLoc in sites && ContentsOk(p, e.codeLoc, e.contents)
    ensures EntriesOk(p, sites, entries[i := e], live')
  {
  }

  /** Turning a virtual call into INVOKESPECIAL_FAST keeps the code in order. */
  lemma SpecialKeeps(p: Program, sites: set<nat>, original: seq<Byte>, s: nat, opcode: Byte, high: Byte, low: Byte)
    requires Good(p, sites) && CodeOk(p, sites, original) && Apart(sites, |original|) && s in sites
    requires IsSlow(p.loaded[s])
    requires CallOk(p, Overwritten(original, s, opcode, high, low), s)
    ensures CodeOk(p, sites, Overwritten(original, s, opcode, high, low))
  {
    var original' := Overwritten(original, s, opcode, high, low);
    assert forall k | 0 <= k < |original| && !(s <= k < s + 3) :: original'[k] == original[k];
    hide Overwritten, IsSlow;
    forall r | r in sites && IsSlow(p.loaded[r])
      ensures CallOk(p, original', r)
    {
      assert CallOk(p, original, r);
      if r != s {
        assert r + 3 <= s || s + 3 <= r;
      }
    }
    forall r | r in sites && !IsSlow(p.loaded[r])
      ensures original'[r] == original[r]
    {
      assert r + 3 <= s || s + 3 <= r;
    }
  }

  /** Contents of an interface call: whether the cached method is used or not, the outcome is that of a lookup. */
  lemma InterfaceContentsAgree(w: World, caller: nat, reference: Option<Reference>, m: Method, d: nat)
    requires WellFormed(w) && InterfaceContents(w, caller, reference, m) && d < |w|
    ensures d == m.ofClass ==> InterfaceOutcome(w, caller, reference, Some(d)) == Called(m)
    ensures InterfaceOutcome(w, caller, reference, Some(d)).Called? ==>
              InterfaceContents(w, caller, reference, InterfaceOutcome(w, caller, reference, Some(d)).m)
  {
    if InterfaceOutcome(w, caller, reference, Some(d)).Called? {
      InterfaceOutcomeIsContents(w, caller, reference, d);
    }
  }

  lemma InterfaceOutcomeIsContents(w: World, caller: nat, reference: Option<Reference>, d: nat)
    requires WellFormed(w) && d < |w| && InterfaceOutcome(w, caller, reference, Some(d)).Called?
    ensures InterfaceContents(w, caller, reference, InterfaceOutcome(w, caller, reference, Some(d)).m)
  {
    InterfaceHit(w, d, reference.value.m.key, Some(caller), InterfaceOutcome(w, caller, reference, Some(d)).m);
  }

  /** A virtual call that is not special always finds a method, which may be stored. */
  lemma VirtualOutcomeIsContents(w: World, reference: Option<Reference>, d: nat)
    requires WellFormed(w) && GoodVirtual(w, reference) && reference.Some? && reference.value.MethodReference?
    requires IsReceiver(w, d, reference.value.m) && !IsSpecial(w, reference.value.m)
    ensures VirtualOutcome(w, reference, Some(d)).Called?
    ensures VirtualContents(w, reference, VirtualOutcome(w, reference, Some(d)).m)
  {
    var m := DynamicLookupSucceeds(w, reference.value.m, d);
  }

  /** Contents of a virtual call: whether the cached method is used or not, the outcome is that of a lookup. */
  lemma VirtualContentsAgree(w: World, reference: Option<Reference>, m: Method, d: nat)
    requires WellFormed(w) && NoWeakening(w) && GoodVirtual(w, reference) && VirtualContents(w, reference, m)
    requires IsReceiver(w, d, reference.value.m)
    ensures VirtualOutcome(w, reference, Some(d)).Called?
    ensures VirtualContents(w, reference, VirtualOutcome(w, reference, Some(d)).m)
    ensures CachedLookup(w, d, m) == Some(VirtualOutcome(w, reference, Some(d)).m)
  {
    hide LookupDynamicMethod, CachedLookup, NoWeakening, Stable;
    CachedMethodAgrees(w, reference.value.m, m, d);
    var r := DynamicLookupSucceeds(w, reference.value.m, d);
  }

  /** What the opcode of an instruction can have become. */
  lemma OpcodesAt(p: Program, code: seq<Byte>, original: seq<Byte>, sites: set<nat>, entries: seq<Entry>,
                  live: set<nat>, s: nat)
    requires Good(p, sites) && CodeOk(p, sites, original) && Consistent(code, original, sites, entries, live)
    requires EntriesOk(p, sites, entries, live)
    requires s in sites && IsSlow(p.loaded[s])
    ensures s < |code|
    ensures || code[s] == p.loaded[s] || code[s] == FastOf(p.loaded[s])
            || (code[s] == INVOKESPECIAL_FAST && p.loaded[s] == INVOKEVIRTUAL)
  {
    assert CallOk(p, original, s);
    if IsFast(code[s]) {
      FastInstruction(p, code, original, sites, entries, live, s);
    } else {
      SlowSiteIsUnused(code, original, sites, entries, live, s);
    }
  }

  lemma InterfaceContentsFacts(w: World, caller: nat, reference: Option<Reference>, m: Method)
    requires WellFormed(w) && InterfaceContents(w, caller, reference, m)
    ensures reference.Some? && reference.value.MethodReference? && m.key == reference.value.m.key && IsMethod(w, m)
  {
  }

  lemma VirtualContentsFacts(w: World, reference: Option<Reference>, m: Method)
    requires WellFormed(w) && VirtualContents(w, reference, m)
    ensures reference.Some? && reference.value.MethodReference? && IsMethod(w, m)
  {
  }

  lemma ContentsAreOk(p: Program, s: nat, m: Method)
    requires s in p.caller && s + 3 <= |p.loaded| && WellFormed(p.world)
    requires p.loaded[s] == INVOKEINTERFACE || p.loaded[s] == INVOKEVIRTUAL
    requires if p.loaded[s] == INVOKEINTERFACE then InterfaceContents(p.world, p.caller[s], Declared(p, s), m)
             else VirtualContents(p.world, Declared(p, s), m)
    ensures ContentsOk(p, s, MethodPointer(m))
  {
  }

  lemma SitesAreApart(code: seq<Byte>, original: seq<Byte>, sites: set<nat>, entries: seq<Entry>, live: set<nat>)
    requires Consistent(code, original, sites, entries, live)
    ensures Apart(sites, |original|)
  {
  }

  /**
   * The interpreter of the three instructions that use the inline cache, and of INVOKESPECIAL_FAST in place of a
   * virtual call.
   */
  class Interpreter {
    const program: Program
    const cache: InlineCache

    ghost predicate Valid()
      reads this, cache, cache.code, cache.entries
    {
      && cache.Valid() && cache.code.Length == |program.loaded| && Good(program, cache.sites)
         && CodeOk(program, cache.sites, cache.original)
      && EntriesOk(program, cache.sites, cache.entries[..],
                   LiveEntries(cache.inlineCachePointer, cache.inlineCacheAreaFull))
    }

    /** The instruction at s is one of those modelled here, and the receiver has been checked. */
    ghost predicate CanExecute(s: nat, receiver: Option<nat>)
      requires Valid()
      reads this, cache, cache.code, cache.entries
    {
      s in cache.sites && IsSlow(program.loaded[s]) && GoodReceiver(program, s, receiver)
    }

    constructor (program: Program, cache: InlineCache)
      requires cache.Valid() && Good(program, cache.sites) && cache.original == program.loaded && cache.history == []
      ensures Valid() && this.program == program && this.cache == cache
    {
      this.program := program;
      this.cache := cache;
      new;
      assert LiveEntries(cache.inlineCachePointer, cache.inlineCacheAreaFull) == {};
    }

    /** INVOKEINTERFACE */
    method InvokeInterface(s: nat, receiver: Option<nat>) returns (outcome: Outcome)
      requires Valid() && CanExecute(s, receiver) && cache.code[s] == INVOKEINTERFACE
      modifies cache`inlineCachePointer, cache`inlineCacheAreaFull, cache`history, cache.code, cache.entries
      ensures outcome == PlainOutcome(program, s, receiver)
      ensures Valid()
    {
      hide Consistent, Recent, ContentsOk, LookupMethod, InterfaceContents, WellFormed, NoWeakening, FinalIsFinal,
        GoodVirtual, Stable;
      ghost var live := LiveEntries(cache.inlineCachePointer, cache.inlineCacheAreaFull);
      assert cache.code[..][s] == cache.code[s];
      SlowInstruction(program, cache.code[..], cache.original, cache.sites, cache.entries[..], live, s);
      var reference := Resolve(program.pool, program.caller[s], cache.code[s + 1], cache.code[s + 2]);
      if reference.None? || !reference.value.MethodReference? {
        return Fatal;
      }
      if receiver.None? {
        return NullPointer;
      }
      var r := FindMethod(program.world, receiver.value, reference.value.m.key, Some(program.caller[s]));
      if r.Some? && IsCallable(r.value) {
        InterfaceOutcomeIsContents(program.world, program.caller[s], reference, receiver.value);
        ContentsAreOk(program, s, r.value);
        var index := cache.Install(MethodPointer(r.value), s);
        StoreKeeps(program, cache.sites, old(cache.entries[..]), live, index, cache.entries[index],
                   LiveEntries(cache.inlineCachePointer, cache.inlineCacheAreaFull));
        return Called(r.value);
      }
      return Fatal;
    }
  
    /** INVOKEINTERFACE_FAST */
    method InvokeInterfaceFast(s: nat, receiver: Option<nat>) returns (outcome: Outcome)
      requires Valid() && CanExecute(s, receiver) && cache.code[s] == INVOKEINTERFACE_FAST
      modifies cache.entries
      ensures outcome == PlainOutcome(program, s, receiver)
      ensures outcome.Fatal? || Valid()
    {
      hide Consistent, Recent, LookupMethod, WellFormed, NoWeakening, FinalIsFinal, GoodVirtual, Stable,
        InterfaceContents, VirtualContents;
      ghost var live := LiveEntries(cache.inlineCachePointer, cache.inlineCacheAreaFull);
      assert cache.code[..][s] == cache.code[s];
      FastInstruction(program, cache.code[..], cache.original, cache.sites, cache.entries[..], live, s);
      var iCacheIndex := GetUShort(cache.code[s + 1], cache.code[s + 2]);
      var m := cache.entries[iCacheIndex].contents.m;
      ghost var reference := Declared(program, s);
      InterfaceContentsFacts(program.world, program.caller[s], reference, m);
      if receiver.None? {
        return NullPointer;
      }
      InterfaceContentsAgree(program.world, program.caller[s], reference, m, receiver.value);
      if receiver.value == m.ofClass {
        return Called(m);
      }
      var r := FindMethod(program.world, receiver.value, m.key, Some(program.caller[s]));
      cache.UpdateContents(iCacheIndex, if r.Some? then MethodPointer(r.value) else Null);
      if r.None? || !IsCallable(r.value) {
        return Fatal;
      }
      StoreKeeps(program, cache.sites, old(cache.entries[..]), live, iCacheIndex, cache.entries[iCacheIndex], live);
      return Called(r.value);
    }
  
    /** INVOKEVIRTUAL: private and final methods are called directly from now on, other methods through the cache. */
    method InvokeVirtual(s: nat, receiver: Option<nat>) returns (outcome: Outcome)
      requires Valid() && CanExecute(s, receiver) && cache.code[s] == INVOKEVIRTUAL
      modifies cache`inlineCachePointer, cache`inlineCacheAreaFull, cache`history, cache`original, cache.code,
               cache.entries
      ensures outcome == PlainOutcome(program, s, receiver)
      ensures Valid()
    {
      hide Consistent, Recent, ContentsOk, LookupDynamicMethod, VirtualContents, NoWeakening, FinalIsFinal, Stable,
        IsReceiver;
      ghost var live := LiveEntries(cache.inlineCachePointer, cache.inlineCacheAreaFull);
      assert cache.code[..][s] == cache.code[s];
      SlowInstruction(program, cache.code[..], cache.original, cache.sites, cache.entries[..], live, s);
      var reference := Resolve(program.pool, program.caller[s], cache.code[s + 1], cache.code[s + 2]);
      if reference.None? || !reference.value.MethodReference? {
        return Fatal;
      }
      var declared := reference.value.m;
      if receiver.None? {
        return NullPointer;
      }
      var r := FindDynamicMethod(program.world, receiver.value, declared);
      if r.None? {
        return Fatal;
      }
      if IsSpecial(program.world, declared) {
        ghost var original' := Overwritten(cache.original, s, INVOKESPECIAL_FAST, cache.code[s + 1], cache.code[s + 2]);
        assert CallOk(program, original', s);
        SitesAreApart(cache.code[..], cache.original, cache.sites, cache.entries[..], live);
        SpecialKeeps(program, cache.sites, cache.original, s, INVOKESPECIAL_FAST, cache.code[s + 1], cache.code[s + 2]);
        cache.QuickenInPlace(s, INVOKESPECIAL_FAST, cache.code[s + 1], cache.code[s + 2]);
      } else {
        VirtualOutcomeIsContents(program.world, reference, receiver.value);
        ContentsAreOk(program, s, r.value);
        var index := cache.Install(MethodPointer(r.value), s);
        StoreKeeps(program, cache.sites, old(cache.entries[..]), live, index, cache.entries[index],
                   LiveEntries(cache.inlineCachePointer, cache.inlineCacheAreaFull));
      }
      return Called(r.value);
    }

    /** INVOKEVIRTUAL_FAST */
    method InvokeVirtualFast(s: nat, receiver: Option<nat>) returns (outcome: Outcome)
      requires Valid() && CanExecute(s, receiver) && cache.code[s] == INVOKEVIRTUAL_FAST
      modifies cache.entries
      ensures outcome == PlainOutcome(program, s, receiver)
      ensures Valid()
    {
      hide Consistent, Recent, LookupDynamicMethod, VirtualContents, InterfaceContents, WellFormed, NoWeakening,
        FinalIsFinal, Stable, IsReceiver;
      ghost var live := LiveEntries(cache.inlineCachePointer, cache.inlineCacheAreaFull);
      assert cache.code[..][s] == cache.code[s];
      FastInstruction(program, cache.code[..], cache.original, cache.sites, cache.entries[..], live, s);
      var iCacheIndex := GetUShort(cache.code[s + 1], cache.code[s + 2]);
      var m := cache.entries[iCacheIndex].contents.m;
      ghost var reference := Declared(program, s);
      VirtualContentsFacts(program.world, reference, m);
      if receiver.None? {
        return NullPointer;
      }
      VirtualContentsAgree(program.world, reference, m, receiver.value);
      if receiver.value == m.ofClass {
        return Called(m);
      }
      var r := FindDynamicMethod(program.world, receiver.value, m);
      cache.UpdateContents(iCacheIndex, if r.Some? then MethodPointer(r.value) else Null);
      if r.None? {
        return Fatal;
      }
      StoreKeeps(program, cache.sites, old(cache.entries[..]), live, iCacheIndex, cache.entries[iCacheIndex], live);
      return Called(r.value);
    }

    /** INVOKESPECIAL_FAST, where it has replaced INVOKEVIRTUAL */
    method InvokeSpecialFast(s: nat, receiver: Option<nat>) returns (outcome: Outcome)
      requires Valid() && CanExecute(s, receiver) && cache.code[s] == INVOKESPECIAL_FAST
      ensures outcome == PlainOutcome(program, s, receiver)
    {
      hide Consistent, Recent, ContentsOk, LookupDynamicMethod, NoWeakening, FinalIsFinal, Stable, IsReceiver;
      assert cache.code[..][s] == cache.code[s];
      SlowInstruction(program, cache.code[..], cache.original, cache.sites, cache.entries[..],
                      LiveEntries(cache.inlineCachePointer, cache.inlineCacheAreaFull), s);
      var reference := Resolve(program.pool, program.caller[s], cache.code[s + 1], cache.code[s + 2]);
      var m := reference.value.m;
      if receiver.None? {
        return NullPointer;
      }
      SpecialIsVirtual(program.world, m, receiver.value);
      return Called(m);
    }

    /** ANEWARRAY */
    method ANewArray(s: nat) returns (outcome: Outcome)
      requires Valid() && CanExecute(s, None) && cache.code[s] == ANEWARRAY
      modifies cache`inlineCachePointer, cache`inlineCacheAreaFull, cache`history, cache.code, cache.entries
      ensures outcome == PlainOutcome(program, s, None)
      ensures Valid()
    {
      hide Consistent, Recent, WellFormed, NoWeakening, FinalIsFinal, GoodVirtual;
      ghost var live := LiveEntries(cache.inlineCachePointer, cache.inlineCacheAreaFull);
      assert cache.code[..][s] == cache.code[s];
      SlowInstruction(program, cache.code[..], cache.original, cache.sites, cache.entries[..], live, s);
      var reference := Resolve(program.pool, program.caller[s], cache.code[s + 1], cache.code[s + 2]);
      if reference.None? || !reference.value.ArrayReference? {
        return Fatal;
      }
      var index := cache.Install(ClassPointer(reference.value.c), s);
      StoreKeeps(program, cache.sites, old(cache.entries[..]), live, index, cache.entries[index],
                 LiveEntries(cache.inlineCachePointer, cache.inlineCacheAreaFull));
      return ArrayCreated(reference.value.c);
    }

    /** ANEWARRAY_FAST */
    method ANewArrayFast(s: nat) returns (outcome: Outcome)
      requires Valid() && CanExecute(s, None) && cache.code[s] == ANEWARRAY_FAST
      ensures outcome == PlainOutcome(program, s, None)
    {
      hide Consistent, Recent, WellFormed, NoWeakening, FinalIsFinal, GoodVirtual;
      assert cache.code[..][s] == cache.code[s];
      FastInstruction(program, cache.code[..], cache.original, cache.sites, cache.entries[..],
                      LiveEntries(cache.inlineCachePointer, cache.inlineCacheAreaFull), s);
      return ArrayCreated(cache.entries[GetUShort(cache.code[s + 1], cache.code[s + 2])].contents.c);
    }

    /** Whatever has been executed before, the outcome is that of an interpreter without inline cache. */
    method Execute(s: nat, receiver: Option<nat>) returns (outcome: Outcome)
      requires Valid() && CanExecute(s, receiver)
      modifies cache`inlineCachePointer, cache`inlineCacheAreaFull, cache`history, cache`original, cache.code,
               cache.entries
      ensures outcome == PlainOutcome(program, s, receiver)
      ensures IsExpected(program, s, receiver, outcome)
      ensures outcome.Fatal? || Valid()
    {
      hide Consistent, Recent, ContentsOk, LookupDynamicMethod, NoWeakening, FinalIsFinal, Stable, IsReceiver,
        EntriesOk, IsExpected;
      PlainIsExpected(program, s, receiver);
      OpcodesAt(program, cache.code[..], cache.original, cache.sites, cache.entries[..],
                LiveEntries(cache.inlineCachePointer, cache.inlineCacheAreaFull), s);
      assert cache.code[..][s] == cache.code[s];
      if cache.code[s] == INVOKEINTERFACE {
        outcome := InvokeInterface(s, receiver);
      } else if cache.code[s] == INVOKEINTERFACE_FAST {
        outcome := InvokeInterfaceFast(s, receiver);
      } else if cache.code[s] == INVOKEVIRTUAL {
        outcome := InvokeVirtual(s, receiver);
      } else if cache.code[s] == INVOKEVIRTUAL_FAST {
        outcome := InvokeVirtualFast(s, receiver);
      } else if cache.code[s] == INVOKESPECIAL_FAST {
        outcome := InvokeSpecialFast(s, receiver);
      } else if cache.code[s] == ANEWARRAY {
        outcome := ANewArray(s);
      } else {
        outcome := ANewArrayFast(s);
      }
    }
  }
}
