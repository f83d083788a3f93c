/** When a lookup that starts from the method called last finds the same method as a lookup from the declared method. */
module DynamicDispatch {

  import opened ClassTables
  import opened Options

  /** A method that was found for some receiver is found for receivers of its own class. */
  lemma InterfaceHit(w: World, d: nat, key: int, current: Option<nat>, m: Method)
    requires WellFormed(w) && d < |w| && LookupMethod(w, d, key, current) == Some(m)
    ensures m.ofClass < |w| && LookupMethod(w, m.ofClass, key, current) == Some(m)
  {
    assert WellFormedClass(w, m.ofClass);
    assert FirstAccessible(w, m.ofClass, key, current, 0) == Some(m);
  }

  /** A method that redeclares a public or protected method of a superclass is public or protected itself. */
  ghost predicate NoWeakening(w: World)
    requires WellFormed(w)
  {
    forall m, o | IsMethod(w, m) && IsMethod(w, o) && IsSuperclass(w, m.ofClass, o.ofClass)
      && IsPublicDeclaration(m, m.key)
                  && o.key == m.key && !o.isStatic :: o.IsExported()
  }

  /** An instance method with the name and type of the declared method, in its class or a subclass. */
  ghost predicate Redeclares(w: World, m: Method, declared: Method)
    requires WellFormed(w)
  {
    IsMethod(w, m) && m.key == declared.key && !m.isStatic && IsSuperclass(w, declared.ofClass, m.ofClass)
  }

  ghost predicate MayRun(w: World, m: Method, declared: Method)
    requires WellFormed(w) && IsMethod(w, declared) && Redeclares(w, m, declared)
  {
    assert WellFormedClass(w, m.ofClass);
    Overrides(w, m.ofClass, m, declared)
  }

  /** A redeclaration that a call of the declared method must not execute, although it is not private. */
  ghost predicate Stray(w: World, m: Method, declared: Method)
    requires WellFormed(w) && IsMethod(w, declared)
  {
    Redeclares(w, m, declared) && !m.access.Private? && !MayRun(w, m, declared)
  }

  /** An overriding method that is public or protected, while the declared method is neither. */
  ghost predicate Widening(w: World, m: Method, declared: Method)
    requires WellFormed(w) && IsMethod(w, declared)
  {
    Redeclares(w, m, declared) && m.IsExported() && !declared.IsExported() && MayRun(w, m, declared)
  }

  /** No method widens the access of the declared method, or no method with its name and type is unrelated to it. */
  ghost predicate Stable(w: World, declared: Method)
    requires WellFormed(w) && IsMethod(w, declared)
  {
    || declared.access.Private?
    || (forall m :: !Widening(w, m, declared))
    || (forall m :: !Stray(w, m, declared))
  }

  /** Methods of one class with the same name and type are equal. */
  lemma SameMethod(w: World, m: Method, o: Method)
    requires WellFormed(w) && IsMethod(w, m) && IsMethod(w, o) && m.ofClass == o.ofClass && m.key == o.key
    ensures m == o
  {
    assert WellFormedClass(w, m.ofClass);
  }

  lemma SuperclassTransitive(w: World, a: nat, b: nat, c: nat)
    requires WellFormed(w) && c < |w| && b < |w| && IsSuperclass(w, a, b) && IsSuperclass(w, b, c)
    ensures IsSuperclass(w, a, c)
    decreases c
  {
    if b != c {
      assert WellFormedClass(w, c);
      SuperclassTransitive(w, a, b, w[c].superClass.value);
    }
  }

  /** What a public declaration found in a superclass amounts to. */
  lemma PublicDeclaration(w: World, c: Option<nat>, packageName: int, key: int) returns (m: Method)
    requires WellFormed(w) && (c.Some? ==> c.value < |w|) && HasPublicDeclaration(w, c, packageName, key)
    ensures c.Some? && IsMethod(w, m) && IsPublicDeclaration(m, key) && IsSuperclass(w, m.ofClass, c.value)
    decreases if c.Some? then c.value + 1 else 0
  {
    assert WellFormedClass(w, c.value);
    if w[c.value].packageName == packageName && exists m :: m in w[c.value].methods && IsPublicDeclaration(m, key) {
      m :| m in w[c.value].methods && IsPublicDeclaration(m, key);
    } else {
      m := PublicDeclaration(w, w[c.value].superClass, packageName, key);
    }
  }

  /** Method m of the class of receivers c is what the lookup finds if it qualifies. */
  lemma FoundAtOnce(w: World, c: nat, declared: Method, m: Method)
    requires WellFormed(w) && IsMethod(w, declared) && IsMethod(w, m) && m.ofClass == c
    requires WellFormedClass(w, c) && Overrides(w, c, m, declared)
    ensures LookupOverriding(w, c, declared) == Some(m)
  {
    var i :| 0 <= i < |w[c].methods| && w[c].methods[i] == m;
    FoundFrom(w, c, declared, i, 0);
  }

  lemma FoundFrom(w: World, c: nat, declared: Method, i: nat, j: nat)
    requires WellFormed(w) && IsMethod(w, declared) && c < |w| && WellFormedClass(w, c)
    requires j <= i < |w[c].methods| && Overrides(w, c, w[c].methods[i], declared)
    ensures FirstOverriding(w, c, declared, j) == Some(w[c].methods[i])
    decreases i - j
  {
    if j < i {
      assert w[c].methods[j].key != w[c].methods[i].key;
      FoundFrom(w, c, declared, i, j + 1);
    }
  }

  /** A lookup finds the declared method at the latest. */
  lemma FoundBelow(w: World, c: nat, declared: Method)
    requires WellFormed(w) && IsMethod(w, declared) && !declared.isStatic && c < |w|
    requires IsSuperclass(w, declared.ofClass, c)
    ensures LookupOverriding(w, c, declared).Some?
    ensures IsSuperclass(w, declared.ofClass, LookupOverriding(w, c, declared).value.ofClass)
    decreases c
  {
    assert WellFormedClass(w, c);
    if c == declared.ofClass {
      FoundAtOnce(w, c, declared, declared);
    } else if FirstOverriding(w, c, declared, 0).None? {
      FoundBelow(w, w[c].superClass.value, declared);
    }
  }

  /** The two methods admit the same methods of class c. */
  ghost predicate Alike(w: World, c: nat, a: Method, b: Method)
    requires WellFormed(w) && c < |w| && IsMethod(w, a) && IsMethod(w, b)
  {
    assert WellFormedClass(w, c);
    forall m | m in w[c].methods :: Overrides(w, c, m, a) == Overrides(w, c, m, b)
  }

  lemma AlikeFirst(w: World, c: nat, a: Method, b: Method, i: nat)
    requires WellFormed(w) && c < |w| && IsMethod(w, a) && IsMethod(w, b) && Alike(w, c, a, b)
    requires WellFormedClass(w, c) && i <= |w[c].methods|
    ensures FirstOverriding(w, c, a, i) == FirstOverriding(w, c, b, i)
    decreases |w[c].methods| - i
  {
    if i < |w[c].methods| {
      AlikeFirst(w, c, a, b, i + 1);
    }
  }

  /** Methods that admit the same methods of all classes below the class of the first are interchangeable in lookups. */
  lemma AlikeLookup(w: World, c: nat, a: Method, b: Method)
    requires WellFormed(w) && c < |w| && IsMethod(w, a) && IsMethod(w, b) && !a.isStatic
    requires IsSuperclass(w, a.ofClass, c)
    requires forall x: nat | x < |w| && IsSuperclass(w, a.ofClass, x) :: Alike(w, x, a, b)
    ensures LookupOverriding(w, c, a) == LookupOverriding(w, c, b)
    decreases c
  {
    assert WellFormedClass(w, c);
    AlikeFirst(w, c, a, b, 0);
    if c == a.ofClass {
      FoundAtOnce(w, c, a, a);
    } else {
      AlikeLookup(w, w[c].superClass.value, a, b);
    }
  }

  /** Below a public or protected method all redeclarations are public or protected. */
  lemma ExportedBelow(w: World, declared: Method, m: Method)
    requires WellFormed(w) && NoWeakening(w) && IsMethod(w, declared) && declared.IsExported() && !declared.isStatic
    requires Redeclares(w, m, declared)
    ensures m.IsExported() && MayRun(w, m, declared)
  {
    assert IsPublicDeclaration(declared, declared.key);
  }

  /** A method that may run is the declared one, or public or protected, or in the package of the declared method. */
  lemma WhatMayRun(w: World, declared: Method, m: Method)
    requires WellFormed(w) && NoWeakening(w) && IsMethod(w, declared) && !declared.isStatic && !declared.access.Private?
    requires Redeclares(w, m, declared) && MayRun(w, m, declared)
    ensures !m.access.Private?
    ensures m == declared || m.IsExported() || w[m.ofClass].packageName == w[declared.ofClass].packageName
  {
    assert WellFormedClass(w, m.ofClass);
    if m.ofClass == declared.ofClass {
      SameMethod(w, m, declared);
    } else if declared.IsExported() {
      ExportedBelow(w, declared, m);
    } else if w[m.ofClass].packageName != w[declared.ofClass].packageName {
      var o := PublicDeclaration(w, w[m.ofClass].superClass, w[declared.ofClass].packageName, declared.key);
      assert IsPublicDeclaration(o, m.key) && IsSuperclass(w, o.ofClass, m.ofClass);
    }
  }

  /**
   * In a stable hierarchy, method o may run for the declared method exactly if it may run for the method found last.
   */
  lemma SameOverrides(w: World, declared: Method, m: Method, o: Method)
    requires WellFormed(w) && NoWeakening(w) && IsMethod(w, declared) && !declared.isStatic && !declared.access.Private?
    requires Stable(w, declared)
    requires Redeclares(w, m, declared) && MayRun(w, m, declared) && Redeclares(w, o, declared)
    ensures WellFormedClass(w, o.ofClass)
    ensures Overrides(w, o.ofClass, o, declared) == Overrides(w, o.ofClass, o, m)
  {
    assert WellFormedClass(w, o.ofClass);
    WhatMayRun(w, declared, m);
    if o.ofClass == declared.ofClass {
      SameMethod(w, o, declared);
    } else if o.ofClass == m.ofClass {
      SameMethod(w, o, m);
    } else if declared.IsExported() {
      ExportedBelow(w, declared, m);
      ExportedBelow(w, declared, o);
    } else if m != declared && m.IsExported() {
      assert Widening(w, m, declared);
      assert !Stray(w, o, declared);
    }
  }

  lemma AlikeBelow(w: World, declared: Method, m: Method, c: nat)
    requires WellFormed(w) && NoWeakening(w) && IsMethod(w, declared) && !declared.isStatic && !declared.access.Private?
    requires Stable(w, declared)
    requires Redeclares(w, m, declared) && MayRun(w, m, declared) && c < |w| && IsSuperclass(w, declared.ofClass, c)
    ensures Alike(w, c, declared, m)
  {
    assert WellFormedClass(w, c);
    forall o | o in w[c].methods
      ensures Overrides(w, c, o, declared) == Overrides(w, c, o, m)
    {
      if o.key == declared.key && !o.isStatic {
        assert Redeclares(w, o, declared);
        SameOverrides(w, declared, m, o);
      }
    }
  }

  /** What INVOKEVIRTUAL_FAST finds for a receiver of class d if it has called method m last. */
  ghost function CachedLookup(w: World, d: nat, m: Method): Option<Method>
    requires WellFormed(w) && d < |w| && m.ofClass < |w|
  {
    if d == m.ofClass then Some(m) else LookupDynamicMethod(w, d, m)
  }

  /** Objects of class d can be receivers of calls of the declared method. */
  ghost predicate IsReceiver(w: World, d: nat, declared: Method)
    requires WellFormed(w)
  {
    d < |w| && IsSuperclass(w, declared.ofClass, Start(w, d))
  }

  lemma DynamicLookupSucceeds(w: World, declared: Method, d: nat) returns (m: Method)
    requires WellFormed(w) && IsMethod(w, declared) && !declared.isStatic && IsReceiver(w, d, declared)
    ensures LookupDynamicMethod(w, d, declared) == Some(m) && Redeclares(w, m, declared) && MayRun(w, m, declared)
  {
    FoundBelow(w, Start(w, d), declared);
    m := LookupDynamicMethod(w, d, declared).value;
  }

  /**
   * In a stable hierarchy, a lookup that starts from a method m found before agrees with one from the declared method.
   */
  lemma CachedMethodAgrees(w: World, declared: Method, m: Method, d: nat)
    requires WellFormed(w) && NoWeakening(w) && IsMethod(w, declared) && !declared.isStatic && !declared.access.Private?
    requires Stable(w, declared)
    requires Redeclares(w, m, declared) && MayRun(w, m, declared) && IsReceiver(w, d, declared)
    ensures CachedLookup(w, d, m) == LookupDynamicMethod(w, d, declared)
  {
    WhatMayRun(w, declared, m);
    assert WellFormedClass(w, m.ofClass);
    if d == m.ofClass {
      FoundAtOnce(w, d, declared, m);
    } else {
      forall x: nat | x < |w| && IsSuperclass(w, declared.ofClass, x)
        ensures Alike(w, x, declared, m)
      {
        AlikeBelow(w, declared, m, x);
      }
      AlikeLookup(w, Start(w, d), declared, m);
    }
  }

  /** A receiver of class d, called after one of class b, gets the method that it would get anyway. */
  lemma CachedLookupAgrees(w: World, declared: Method, b: nat, d: nat)
    requires WellFormed(w) && NoWeakening(w) && IsMethod(w, declared) && !declared.isStatic && Stable(w, declared)
    requires IsReceiver(w, b, declared) && IsReceiver(w, d, declared)
    ensures LookupDynamicMethod(w, b, declared).Some? && LookupDynamicMethod(w, b, declared).value.ofClass < |w|
    ensures CachedLookup(w, d, LookupDynamicMethod(w, b, declared).value) == LookupDynamicMethod(w, d, declared)
  {
    var m := DynamicLookupSucceeds(w, declared, b);
    if !declared.access.Private? {
      CachedMethodAgrees(w, declared, m, d);
    }
  }

  /** In a hierarchy that is not stable, a cached call can execute an unrelated method of another package. */
  lemma CachedLookupStrays(w: World, declared: Method, m: Method, o: Method)
    requires WellFormed(w) && IsMethod(w, declared) && !declared.isStatic && !declared.access.Private?
    requires Widening(w, m, declared) && Stray(w, o, declared)
    ensures IsReceiver(w, m.ofClass, declared) && IsReceiver(w, o.ofClass, declared)
    ensures LookupDynamicMethod(w, m.ofClass, declared) == Some(m)
    ensures CachedLookup(w, o.ofClass, m) == Some(o) != LookupDynamicMethod(w, o.ofClass, declared)
  {
    assert WellFormedClass(w, m.ofClass) && WellFormedClass(w, o.ofClass);
    FoundAtOnce(w, m.ofClass, declared, m);
    FoundAtOnce(w, o.ofClass, m, o);
  }

  /** Caching never changes which method is called exactly if the hierarchy is stable. */
  lemma CachingIsSafeIffStable(w: World, declared: Method)
    requires WellFormed(w) && NoWeakening(w) && IsMethod(w, declared) && !declared.isStatic
    ensures Stable(w, declared) <==>
            forall b, d, m | IsReceiver(w, b, declared) && IsReceiver(w, d, declared) && IsMethod(w, m)
                             && LookupDynamicMethod(w, b, declared) == Some(m) ::
              CachedLookup(w, d, m) == LookupDynamicMethod(w, d, declared)
  {
    if Stable(w, declared) {
      forall b, d, m | IsReceiver(w, b, declared) && IsReceiver(w, d, declared) && IsMethod(w, m)
        && LookupDynamicMethod(w, b, declared) == Some(m)
        ensures CachedLookup(w, d, m) == LookupDynamicMethod(w, d, declared)
      {
        CachedLookupAgrees(w, declared, b, d);
      }
    } else {
      var m :| Widening(w, m, declared);
      var o :| Stray(w, o, declared);
      CachedLookupStrays(w, declared, m, o);
    }
  }

  /** No method overrides a final one. */
  ghost predicate FinalIsFinal(w: World)
    requires WellFormed(w)
  {
    forall m, declared | IsMethod(w, declared) && declared.isFinal && Redeclares(w, m, declared)
      && MayRun(w, m, declared) :: m == declared
  }

  /** INVOKEVIRTUAL then needs no lookup. */
  predicate IsSpecial(w: World, declared: Method)
    requires declared.ofClass < |w|
  {
    declared.access.Private? || declared.isFinal || w[declared.ofClass].isFinal
  }

  /** If INVOKEVIRTUAL turns into INVOKESPECIAL_FAST, the declared method is what each receiver gets. */
  lemma SpecialIsVirtual(w: World, declared: Method, d: nat)
    requires WellFormed(w) && FinalIsFinal(w) && IsMethod(w, declared) && !declared.isStatic
    requires IsReceiver(w, d, declared)
    requires IsSpecial(w, declared)
    ensures LookupDynamicMethod(w, d, declared) == Some(declared)
  {
    if !declared.access.Private? {
      var m := DynamicLookupSucceeds(w, declared, d);
      if w[declared.ofClass].isFinal {
        NoSubclasses(w, declared.ofClass, Start(w, d));
        FoundAtOnce(w, declared.ofClass, declared, declared);
      }
    }
  }

  lemma {:induction false} NoSubclasses(w: World, a: nat, c: nat)
    requires WellFormed(w) && a < |w| && c < |w| && w[a].isFinal && IsSuperclass(w, a, c)
    ensures a == c
    decreases c
  {
    if a != c {
      assert WellFormedClass(w, c);
      NoSubclasses(w, a, w[c].superClass.value);
    }
  }

  const DECLARED := Method(7, PackagePrivate, false, false, 1)
  const WIDENED := Method(7, Public, false, false, 2)
  const UNRELATED := Method(7, PackagePrivate, false, false, 3)

  /**
   * Class 1 in package 1 declares a method without access modifier; class 2 of that package makes it public, class 3 of
   * package 2 has an unrelated method of that name.
   */
  const FOUR_CLASSES: World := [
    Class(None, 0, None, false, false, [], []), Class(Some(0), 1, None, false, false, [DECLARED], []),
    Class(Some(1), 1, None, false, false, [WIDENED], []), Class(Some(1), 2, None, false, false, [UNRELATED], [])]

  lemma FourClassesAreWellFormed()
    ensures WellFormed(FOUR_CLASSES) && IsMethod(FOUR_CLASSES, DECLARED) && IsMethod(FOUR_CLASSES, WIDENED)
    ensures IsMethod(FOUR_CLASSES, UNRELATED)
    ensures forall c: nat | c < 4 :: WellFormedClass(FOUR_CLASSES, c)
  {
    var w := FOUR_CLASSES;
    assert w[1].methods[0] == DECLARED && w[2].methods[0] == WIDENED && w[3].methods[0] == UNRELATED;
    assert WellFormedClass(w, 0) && WellFormedClass(w, 1) && WellFormedClass(w, 2) && WellFormedClass(w, 3);
  }

  lemma FourClassesDoNotWeaken()
    ensures WellFormed(FOUR_CLASSES) && NoWeakening(FOUR_CLASSES)
    ensures IsSuperclass(FOUR_CLASSES, 1, 2) && IsSuperclass(FOUR_CLASSES, 1, 3) && !IsSuperclass(FOUR_CLASSES, 2, 3)
  {
    FourClassesAreWellFormed();
    var w := FOUR_CLASSES;
    assert IsSuperclass(w, 1, 2) && IsSuperclass(w, 1, 3) && !IsSuperclass(w, 2, 1) && !IsSuperclass(w, 2, 3);
    forall m, o | IsMethod(w, m) && IsMethod(w, o) && IsSuperclass(w, m.ofClass, o.ofClass)
      && IsPublicDeclaration(m, m.key)
                  && o.key == m.key && !o.isStatic
      ensures o.IsExported()
    {
      assert m == WIDENED;
    }
  }

  /** After a call for an object of class 2, a call for one of class 3 executes the unrelated method. */
  lemma FourClassesAreUnstable()
    ensures WellFormed(FOUR_CLASSES) && NoWeakening(FOUR_CLASSES) && IsMethod(FOUR_CLASSES, DECLARED)
    ensures !Stable(FOUR_CLASSES, DECLARED)
    ensures LookupDynamicMethod(FOUR_CLASSES, 2, DECLARED) == Some(WIDENED)
    ensures LookupDynamicMethod(FOUR_CLASSES, 3, DECLARED) == Some(DECLARED)
    ensures CachedLookup(FOUR_CLASSES, 3, WIDENED) == Some(UNRELATED)
  {
    var w := FOUR_CLASSES;
    FourClassesAreWellFormed();
    FourClassesDoNotWeaken();
    assert !HasPublicDeclaration(w, Some(0), 1, 7) && !HasPublicDeclaration(w, Some(1), 1, 7);
    FoundAtOnce(w, 1, DECLARED, DECLARED);
    assert !Overrides(w, 3, UNRELATED, DECLARED);
    assert Widening(w, WIDENED, DECLARED) && Stray(w, UNRELATED, DECLARED);
    CachedLookupStrays(w, DECLARED, WIDENED, UNRELATED);
  }
}
