/** Loaded classes with their method tables, and the method lookups over them (fields.c). */
module ClassTables {

  import opened Options

  datatype Access = Public | Protected | PackagePrivate | Private

  datatype Method = Method(key: int, access: Access, isStatic: bool, isFinal: bool, ofClass: nat) {
    predicate IsExported() {
      access.Public? || access.Protected?
    }
  }

  /** What an array has for elements: objects of a class, or values of a primitive type. */
  datatype Element = ClassElement(c: nat) | PrimitiveElement(typeCode: int)

  /** Array classes have an element, other classes do not. */
  datatype Class = Class(superClass: Option<nat>, packageName: int, element: Option<Element>, isInterface: bool,
                         isFinal: bool,
                         methods: seq<Method>, interfaces: seq<nat>) {
    predicate IsArray() {
      element.Some?
    }
  }

  /** All classes, numbered in the order in which their loading has been completed; class 0 is java.lang.Object. */
  type World = seq<Class>

  const JAVA_LANG_OBJECT: nat := 0

  /** A class that others may extend. */
  predicate IsSuper(c: Class) {
    !c.IsArray() && !c.isInterface && !c.isFinal
  }

  predicate IsInterface(c: Class) {
    !c.IsArray() && c.isInterface
  }

  ghost predicate WellFormedClass(w: World, c: nat)
    requires c < |w|
  {
    && (w[c].superClass.None? <==> c == JAVA_LANG_OBJECT || w[c].IsArray())
    && (w[c].superClass.Some? ==> w[c].superClass.value < c && IsSuper(w[w[c].superClass.value]))
    && (w[c].isInterface && c != JAVA_LANG_OBJECT ==> w[c].superClass == Some(JAVA_LANG_OBJECT))
    && (w[c].IsArray() ==> w[c].methods == [] && w[c].interfaces == [])
    && (w[c].IsArray() && w[c].element.value.ClassElement? ==> w[c].element.value.c < c)
    && (forall i | 0 <= i < |w[c].interfaces| :: w[c].interfaces[i] < c && IsInterface(w[w[c].interfaces[i]]))
    && (forall i | 0 <= i < |w[c].methods| :: w[c].methods[i].ofClass == c)
    && (forall i, j | 0 <= i < j < |w[c].methods| :: w[c].methods[i].key != w[c].methods[j].key)
  }

  /** What the loader guarantees: no cyclic hierarchy, and no two methods of a class with the same name and type. */
  ghost predicate WellFormed(w: World) {
    && |w| > 0 && IsSuper(w[JAVA_LANG_OBJECT])
    && (forall c: nat | c < |w| :: WellFormedClass(w, c))
  }

  /** Class a is class c or one of its superclasses. */
  ghost predicate IsSuperclass(w: World, a: nat, c: nat)
    requires WellFormed(w) && c < |w|
    decreases c
  {
    a == c || (WellFormedClass(w, c) && w[c].superClass.Some? && IsSuperclass(w, a, w[c].superClass.value))
  }

  ghost predicate IsMethod(w: World, m: Method) {
    m.ofClass < |w| && m in w[m.ofClass].methods
  }

  /** The class where a lookup starts: array classes have the methods of java.lang.Object. */
  function Start(w: World, c: nat): (s: nat)
    requires c < |w|
    ensures s < |w|
  {
    if w[c].IsArray() then JAVA_LANG_OBJECT else c
  }

  /** Code of the class `current` (of any class, if there is none) may use method m of class c. */
  predicate Accessible(w: World, c: nat, m: Method, current: Option<nat>)
    requires c < |w|
  {
    || current.None? || current.value == c || m.IsExported()
    || (!m.access.Private? && current.value < |w| && w[c].packageName == w[current.value].packageName)
  }

  /** The first accessible method with this key in the method table of class c, from position i on. */
  function FirstAccessible(w: World, c: nat, key: int, current: Option<nat>, i: nat): (r: Option<Method>)
    requires c < |w| && i <= |w[c].methods|
    ensures r.Some? ==> r.value in w[c].methods[i..] && r.value.key == key && Accessible(w, c, r.value, current)
    decreases |w[c].methods| - i
  {
    if i == |w[c].methods| then None
    else if w[c].methods[i].key == key && Accessible(w, c, w[c].methods[i], current) then Some(w[c].methods[i])
    else FirstAccessible(w, c, key, current, i + 1)
  }

  /** The search through class c and its superclasses. */
  function LookupInSuperclasses(w: World, c: nat, key: int, current: Option<nat>): (r: Option<Method>)
    requires WellFormed(w) && c < |w|
    ensures r.Some? ==> IsMethod(w, r.value) && r.value.key == key && Accessible(w, r.value.ofClass, r.value, current)
    ensures r.Some? ==> IsSuperclass(w, r.value.ofClass, c) && FirstAccessible(w, r.value.ofClass, key, current, 0) == r
    decreases c
  {
    assert WellFormedClass(w, c);
    var r := FirstAccessible(w, c, key, current, 0);
    if r.Some? || w[c].superClass.None? then r else LookupInSuperclasses(w, w[c].superClass.value, key, current)
  }

  /** The interfaces of interface c, from the i-th on, are searched in order. */
  function LookupInInterfaces(w: World, c: nat, i: nat, key: int, current: Option<nat>): (r: Option<Method>)
    requires WellFormed(w) && c < |w| && i <= |w[c].interfaces|
    ensures r.Some? ==>
              IsMethod(w, r.value) && r.value.key == key && FirstAccessible(w, r.value.ofClass, key, current, 0) == r
    decreases c, 0, |w[c].interfaces| - i
  {
    assert WellFormedClass(w, c);
    if i == |w[c].interfaces| then None
    else
      var r := LookupMethod(w, w[c].interfaces[i], key, current);
      if r.Some? then r else LookupInInterfaces(w, c, i + 1, key, current)
  }

  function LookupMethod(w: World, c: nat, key: int, current: Option<nat>): (r: Option<Method>)
    requires WellFormed(w) && c < |w|
    ensures r.Some? ==>
              IsMethod(w, r.value) && r.value.key == key && FirstAccessible(w, r.value.ofClass, key, current, 0) == r
    decreases c, 1, 0
  {
    var r := LookupInSuperclasses(w, Start(w, c), key, current);
    if r.Some? || !w[c].isInterface then r else LookupInInterfaces(w, c, 0, key, current)
  }

  /** Class a, which is c or a superclass of it, has method m with this key, and the caller may use it. */
  ghost predicate Offers(w: World, a: nat, c: nat, key: int, current: Option<nat>, m: Method)
    requires WellFormed(w) && c < |w|
  {
    a < |w| && IsSuperclass(w, a, c) && m in w[a].methods && m.key == key && Accessible(w, a, m, current)
  }

  ghost predicate OffersAny(w: World, c: nat, key: int, current: Option<nat>)
    requires WellFormed(w) && c < |w|
  {
    exists a, m :: Offers(w, a, c, key, current, m)
  }

  /** Method m is offered, and all other classes that offer one are superclasses of its class. */
  ghost predicate IsLowest(w: World, c: nat, key: int, current: Option<nat>, m: Method)
    requires WellFormed(w) && c < |w|
  {
    && Offers(w, m.ofClass, c, key, current, m)
    && forall a, o | Offers(w, a, c, key, current, o) :: m.ofClass < |w| && IsSuperclass(w, a, m.ofClass)
  }

  /** i is c itself or, if c is an interface, one that it extends, directly or not. */
  ghost predicate Extends(w: World, i: nat, c: nat)
    requires WellFormed(w) && c < |w|
    decreases c
  {
    || i == c
    || (w[c].isInterface && WellFormedClass(w, c)
        && exists x | 0 <= x < |w[c].interfaces| :: Extends(w, i, w[c].interfaces[x]))
  }

  /** Method m is among those that are searched for class c: its own, inherited ones, and those of its interfaces. */
  ghost predicate IsSearched(w: World, c: nat, key: int, current: Option<nat>, m: Method)
    requires WellFormed(w) && c < |w|
  {
    exists i: nat :: i < |w| && Extends(w, i, c) && Offers(w, m.ofClass, Start(w, i), key, current, m)
  }

  /** Method m is that of the lowest class; or, without one, that of the first interface that leads to a method. */
  ghost predicate IsFound(w: World, c: nat, key: int, current: Option<nat>, m: Method)
    requires WellFormed(w) && c < |w|
    decreases c
  {
    || IsLowest(w, Start(w, c), key, current, m)
    || (!OffersAny(w, Start(w, c), key, current) && w[c].isInterface && WellFormedClass(w, c)
        && exists x | 0 <= x < |w[c].interfaces| ::
             && IsFound(w, w[c].interfaces[x], key, current, m)
             && forall y, o | 0 <= y < x :: !IsSearched(w, w[c].interfaces[y], key, current, o))
  }

  /** There is a result exactly if some method is searched. */
  ghost predicate IsResult(w: World, c: nat, key: int, current: Option<nat>, r: Option<Method>)
    requires WellFormed(w) && c < |w|
  {
    && (r.None? ==> forall m :: !IsSearched(w, c, key, current, m))
    && (r.Some? ==> IsFound(w, c, key, current, r.value) && IsSearched(w, c, key, current, r.value))
  }

  lemma {:induction false} FirstIsAny(w: World, c: nat, key: int, current: Option<nat>, i: nat, m: Method)
    requires c < |w| && i <= |w[c].methods| && m in w[c].methods[i..] && m.key == key && Accessible(w, c, m, current)
    ensures FirstAccessible(w, c, key, current, i).Some?
    decreases |w[c].methods| - i
  {
    if !(w[c].methods[i].key == key && Accessible(w, c, w[c].methods[i], current)) {
      FirstIsAny(w, c, key, current, i + 1, m);
    }
  }

  /** The search through the superclasses finds the lowest method, if there is one at all. */
  lemma {:induction false} SuperclassesSearched(w: World, c: nat, key: int, current: Option<nat>)
    requires WellFormed(w) && c < |w|
    ensures var r := LookupInSuperclasses(w, c, key, current);
            (r.Some? <==> OffersAny(w, c, key, current)) && (r.Some? ==> IsLowest(w, c, key, current, r.value))
    decreases c
  {
    assert WellFormedClass(w, c);
    var r := LookupInSuperclasses(w, c, key, current);
    var first := FirstAccessible(w, c, key, current, 0);
    forall a, m | Offers(w, a, c, key, current, m)
      ensures r.Some? && r.value.ofClass < |w| && IsSuperclass(w, a, r.value.ofClass)
    {
      if first.None? {
        if a == c {
          assert w[c].methods[0..] == w[c].methods;
          FirstIsAny(w, c, key, current, 0, m);
        }
        SuperclassesSearched(w, w[c].superClass.value, key, current);
        assert Offers(w, a, w[c].superClass.value, key, current, m);
      }
    }
    if r.Some? {
      assert Offers(w, r.value.ofClass, c, key, current, r.value);
    }
  }

  /** What is searched for an interface is searched for those that extend it. */
  lemma SearchedThrough(w: World, c: nat, x: nat, key: int, current: Option<nat>, m: Method)
    requires WellFormed(w) && c < |w| && w[c].isInterface && x < |w[c].interfaces| && WellFormedClass(w, c)
    requires IsSearched(w, w[c].interfaces[x], key, current, m)
    ensures IsSearched(w, c, key, current, m)
  {
    var i: nat :| i < |w| && Extends(w, i, w[c].interfaces[x]) && Offers(w, m.ofClass, Start(w, i), key, current, m);
    assert Extends(w, i, c);
  }

  /** None of the interfaces from the i-th up to the x-th leads to a method. */
  ghost predicate NoneBetween(w: World, c: nat, i: nat, x: nat, key: int, current: Option<nat>)
    requires WellFormed(w) && c < |w| && WellFormedClass(w, c) && x <= |w[c].interfaces|
  {
    forall y, o | i <= y < x :: !IsSearched(w, w[c].interfaces[y], key, current, o)
  }

  /** The first interface, from the i-th on, that leads to a method leads to m. */
  ghost predicate IsFirstFound(w: World, c: nat, i: nat, key: int, current: Option<nat>, m: Method)
    requires WellFormed(w) && c < |w| && WellFormedClass(w, c)
  {
    exists x: nat :: i <= x < |w[c].interfaces| && IsFound(w, w[c].interfaces[x], key, current, m)
                     && IsSearched(w, w[c].interfaces[x], key, current, m) && NoneBetween(w, c, i, x, key, current)
  }

  lemma FoundLater(w: World, c: nat, i: nat, key: int, current: Option<nat>, m: Method)
    requires WellFormed(w) && c < |w| && WellFormedClass(w, c) && i < |w[c].interfaces|
    requires forall o :: !IsSearched(w, w[c].interfaces[i], key, current, o)
    ensures IsFirstFound(w, c, i + 1, key, current, m) ==> IsFirstFound(w, c, i, key, current, m)
    ensures NoneBetween(w, c, i + 1, |w[c].interfaces|, key, current) ==>
              NoneBetween(w, c, i, |w[c].interfaces|, key, current)
  {
    hide IsFound, IsSearched, WellFormed;
    if IsFirstFound(w, c, i + 1, key, current, m) {
      var x: nat :| i + 1 <= x < |w[c].interfaces| && IsFound(w, w[c].interfaces[x], key, current, m)
        && IsSearched(w, w[c].interfaces[x], key, current, m) && NoneBetween(w, c, i + 1, x, key, current);
      assert NoneBetween(w, c, i, x, key, current);
    }
  }

  lemma {:induction false} InterfacesSearched(w: World, c: nat, i: nat, key: int, current: Option<nat>)
    requires WellFormed(w) && c < |w| && i <= |w[c].interfaces| && WellFormedClass(w, c)
    ensures var r := LookupInInterfaces(w, c, i, key, current);
            && (r.None? ==> NoneBetween(w, c, i, |w[c].interfaces|, key, current))
            && (r.Some? ==> IsFirstFound(w, c, i, key, current, r.value))
    decreases c, 0, |w[c].interfaces| - i
  {
    hide IsFound, IsSearched, LookupMethod;
    if i < |w[c].interfaces| {
      LookupFinds(w, w[c].interfaces[i], key, current);
      var first := LookupMethod(w, w[c].interfaces[i], key, current);
      if first.Some? {
        assert NoneBetween(w, c, i, i, key, current);
      } else {
        InterfacesSearched(w, c, i + 1, key, current);
        var r := LookupInInterfaces(w, c, i + 1, key, current);
        FoundLater(w, c, i, key, current, if r.Some? then r.value else Method(key, Public, false, false, 0));
      }
    }
  }

  lemma FirstFoundIsFound(w: World, c: nat, key: int, current: Option<nat>, m: Method)
    requires WellFormed(w) && c < |w| && WellFormedClass(w, c) && w[c].isInterface
    requires !OffersAny(w, Start(w, c), key, current) && IsFirstFound(w, c, 0, key, current, m)
    ensures IsFound(w, c, key, current, m) && IsSearched(w, c, key, current, m)
  {
    hide IsSearched, OffersAny, IsLowest, WellFormed;
    var x: nat :| x < |w[c].interfaces| && IsFound(w, w[c].interfaces[x], key, current, m)
      && IsSearched(w, w[c].interfaces[x], key, current, m) && NoneBetween(w, c, 0, x, key, current);
    SearchedThrough(w, c, x, key, current, m);
  }

  /** The lookup finds a method exactly if there is one to be found, and then the right one. */
  lemma {:induction false} LookupFinds(w: World, c: nat, key: int, current: Option<nat>)
    requires WellFormed(w) && c < |w|
    ensures IsResult(w, c, key, current, LookupMethod(w, c, key, current))
    decreases c, 1, 0
  {
    assert WellFormedClass(w, c);
    hide IsFound, IsSearched, IsFirstFound, LookupInInterfaces, LookupInSuperclasses;
    SuperclassesSearched(w, Start(w, c), key, current);
    var r := LookupMethod(w, c, key, current);
    if LookupInSuperclasses(w, Start(w, c), key, current).Some? {
      LowestIsResult(w, c, key, current, r.value);
    } else {
      if w[c].isInterface {
        InterfacesSearched(w, c, 0, key, current);
      }
      if r.Some? {
        FirstFoundIsFound(w, c, key, current, r.value);
      } else {
        forall m | IsSearched(w, c, key, current, m)
          ensures false
        {
          NothingSearched(w, c, key, current, m);
        }
      }
    }
  }

  lemma LowestIsResult(w: World, c: nat, key: int, current: Option<nat>, m: Method)
    requires WellFormed(w) && c < |w| && IsLowest(w, Start(w, c), key, current, m)
    ensures IsResult(w, c, key, current, Some(m))
  {
    assert Extends(w, c, c);
  }

  lemma NothingSearched(w: World, c: nat, key: int, current: Option<nat>, m: Method)
    requires WellFormed(w) && c < |w| && WellFormedClass(w, c) && IsSearched(w, c, key, current, m)
    requires !OffersAny(w, Start(w, c), key, current)
    ensures w[c].isInterface && exists y | 0 <= y < |w[c].interfaces| ::
                                  IsSearched(w, w[c].interfaces[y], key, current, m)
  {
    var i: nat :| i < |w| && Extends(w, i, c) && Offers(w, m.ofClass, Start(w, i), key, current, m);
    if i != c {
      var y: nat :| y < |w[c].interfaces| && Extends(w, i, w[c].interfaces[y]);
      assert IsSearched(w, w[c].interfaces[y], key, current, m);
    }
  }

  /** Of two classes, each a superclass of the other, there is only one. */
  lemma {:induction false} SuperclassesAscend(w: World, a: nat, c: nat)
    requires WellFormed(w) && c < |w| && IsSuperclass(w, a, c)
    ensures a <= c
    decreases c
  {
    if a != c {
      SuperclassesAscend(w, a, w[c].superClass.value);
    }
  }

  lemma {:induction false} FoundIsSearched(w: World, c: nat, key: int, current: Option<nat>, m: Method)
    requires WellFormed(w) && c < |w| && IsFound(w, c, key, current, m)
    ensures IsSearched(w, c, key, current, m)
    decreases c
  {
    hide OffersAny;
    if IsLowest(w, Start(w, c), key, current, m) {
      assert Extends(w, c, c);
    } else {
      hide IsSearched, IsLowest;
      var x: nat :| x < |w[c].interfaces| && IsFound(w, w[c].interfaces[x], key, current, m);
      FoundIsSearched(w, w[c].interfaces[x], key, current, m);
      SearchedThrough(w, c, x, key, current, m);
    }
  }

  /** Private methods are found for code of their class only, and those without modifier for code of their package. */
  lemma FoundIsAccessible(w: World, c: nat, key: int, k: nat, m: Method)
    requires WellFormed(w) && c < |w| && k < |w| && IsFound(w, c, key, Some(k), m)
    ensures m.key == key && m.ofClass < |w|
    ensures m.access.Private? ==> k == m.ofClass
    ensures m.access.PackagePrivate? ==> w[k].packageName == w[m.ofClass].packageName
  {
    FoundIsSearched(w, c, key, Some(k), m);
  }

  /** There is at most one method to be found. */
  lemma {:induction false} FoundOnce(w: World, c: nat, key: int, current: Option<nat>, m: Method, o: Method)
    requires WellFormed(w) && c < |w| && IsFound(w, c, key, current, m) && IsFound(w, c, key, current, o)
    ensures m == o
    decreases c, 1
  {
    hide OffersAny, IsSearched;
    if IsLowest(w, Start(w, c), key, current, m) {
      AnyOf(w, Start(w, c), key, current, m);
      assert IsLowest(w, Start(w, c), key, current, o);
      assert Offers(w, m.ofClass, Start(w, c), key, current, m);
      assert Offers(w, o.ofClass, Start(w, c), key, current, o);
      SuperclassesAscend(w, m.ofClass, o.ofClass);
      SuperclassesAscend(w, o.ofClass, m.ofClass);
      assert WellFormedClass(w, m.ofClass);
    } else {
      if IsLowest(w, Start(w, c), key, current, o) {
        AnyOf(w, Start(w, c), key, current, o);
      }
      FoundInInterfaces(w, c, key, current, m, o);
    }
  }

  lemma AnyOf(w: World, c: nat, key: int, current: Option<nat>, m: Method)
    requires WellFormed(w) && c < |w| && Offers(w, m.ofClass, c, key, current, m)
    ensures OffersAny(w, c, key, current)
  {
  }

  lemma FoundInInterfaces(w: World, c: nat, key: int, current: Option<nat>, m: Method, o: Method)
    requires WellFormed(w) && c < |w| && IsFound(w, c, key, current, m) && IsFound(w, c, key, current, o)
    requires !IsLowest(w, Start(w, c), key, current, m) && !IsLowest(w, Start(w, c), key, current, o)
    ensures m == o
    decreases c, 0
  {
    hide IsLowest, OffersAny;
    assert WellFormedClass(w, c);
    var x :| 0 <= x < |w[c].interfaces| && IsFound(w, w[c].interfaces[x], key, current, m)
      && forall y, m' | 0 <= y < x :: !IsSearched(w, w[c].interfaces[y], key, current, m');
    var z :| 0 <= z < |w[c].interfaces| && IsFound(w, w[c].interfaces[z], key, current, o)
      && forall y, m' | 0 <= y < z :: !IsSearched(w, w[c].interfaces[y], key, current, m');
    FoundIsSearched(w, w[c].interfaces[x], key, current, m);
    FoundIsSearched(w, w[c].interfaces[z], key, current, o);
    FoundOnce(w, w[c].interfaces[x], key, current, m, o);
  }

  /** Arrays have the methods of java.lang.Object. */
  lemma ArraysHaveObjectMethods(w: World, c: nat, key: int, current: Option<nat>, r: Option<Method>)
    requires WellFormed(w) && c < |w| && w[c].IsArray()
    ensures IsResult(w, c, key, current, r) <==> IsResult(w, JAVA_LANG_OBJECT, key, current, r)
  {
    assert WellFormedClass(w, c) && WellFormedClass(w, JAVA_LANG_OBJECT);
    forall m
      ensures IsSearched(w, c, key, current, m) <==> IsSearched(w, JAVA_LANG_OBJECT, key, current, m)
    {
      assert Extends(w, c, c) && Extends(w, JAVA_LANG_OBJECT, JAVA_LANG_OBJECT);
    }
  }

  /** The loops of lookupMethod. */
  method FindMethod(w: World, thisClass: nat, key: int, current: Option<nat>) returns (r: Option<Method>)
    requires WellFormed(w) && thisClass < |w|
    ensures r == LookupMethod(w, thisClass, key, current)
    ensures IsResult(w, thisClass, key, current, r)
    decreases thisClass
  {
    hide IsResult;
    LookupFinds(w, thisClass, key, current);
    var c: nat := Start(w, thisClass);
    while true
      invariant c < |w|
      invariant LookupInSuperclasses(w, Start(w, thisClass), key, current) == LookupInSuperclasses(w, c, key, current)
      decreases c
    {
      assert WellFormedClass(w, c);
      var i := 0;
      while i < |w[c].methods|
        invariant i <= |w[c].methods|
        invariant FirstAccessible(w, c, key, current, 0) == FirstAccessible(w, c, key, current, i)
      {
        if w[c].methods[i].key == key && Accessible(w, c, w[c].methods[i], current) {
          return Some(w[c].methods[i]);
        }
        i := i + 1;
      }
      if w[c].superClass.None? {
        break;
      }
      c := w[c].superClass.value;
    }
    assert WellFormedClass(w, thisClass);
    if w[thisClass].isInterface {
      var i := 0;
      while i < |w[thisClass].interfaces|
        invariant i <= |w[thisClass].interfaces|
        invariant LookupInInterfaces(w, thisClass, 0, key, current) == LookupInInterfaces(w, thisClass, i, key, current)
      {
        var temp := FindMethod(w, w[thisClass].interfaces[i], key, current);
        if temp.Some? {
          return temp;
        }
        i := i + 1;
      }
    }
    return None;
  }

  predicate IsPublicDeclaration(m: Method, key: int) {
    m.key == key && !m.isStatic && m.IsExported()
  }

  /** Class c or a superclass of it is in the package and declares the method as public or protected. */
  ghost predicate HasPublicDeclaration(w: World, c: Option<nat>, packageName: int, key: int)
    requires WellFormed(w) && (c.Some? ==> c.value < |w|)
    decreases if c.Some? then c.value + 1 else 0
  {
    c.Some? && WellFormedClass(w, c.value)
    && (|| (w[c.value].packageName == packageName && exists m :: m in w[c.value].methods && IsPublicDeclaration(m, key))
        || HasPublicDeclaration(w, w[c.value].superClass, packageName, key))
  }

  /** Class a is c or a superclass of it, in the package, and declares the method as public or protected. */
  ghost predicate DeclaresPublicly(w: World, a: nat, c: Option<nat>, packageName: int, key: int)
    requires WellFormed(w) && (c.Some? ==> c.value < |w|)
  {
    && c.Some? && a < |w| && IsSuperclass(w, a, c.value) && w[a].packageName == packageName
    && exists m :: m in w[a].methods && m.key == key && !m.isStatic && (m.access.Public? || m.access.Protected?)
  }

  lemma {:induction false} PublicDeclarationIs(w: World, c: Option<nat>, packageName: int, key: int)
    requires WellFormed(w) && (c.Some? ==> c.value < |w|)
    ensures HasPublicDeclaration(w, c, packageName, key) <==> exists a :: DeclaresPublicly(w, a, c, packageName, key)
    decreases if c.Some? then c.value + 1 else 0
  {
    if c.Some? {
      assert WellFormedClass(w, c.value);
      PublicDeclarationIs(w, w[c.value].superClass, packageName, key);
      if a :| DeclaresPublicly(w, a, c, packageName, key) {
        if a != c.value {
          assert DeclaresPublicly(w, a, w[c.value].superClass, packageName, key);
        }
      }
      if HasPublicDeclaration(w, w[c.value].superClass, packageName, key) {
        var a :| DeclaresPublicly(w, a, w[c.value].superClass, packageName, key);
        assert DeclaresPublicly(w, a, c, packageName, key);
      } else if HasPublicDeclaration(w, c, packageName, key) {
        assert DeclaresPublicly(w, c.value, c, packageName, key);
      }
    }
  }

  method FindPublicDeclaration(w: World, thisClass: Option<nat>, packageName: int, key: int) returns (r: bool)
    requires WellFormed(w) && (thisClass.Some? ==> thisClass.value < |w|)
    ensures r == HasPublicDeclaration(w, thisClass, packageName, key)
    ensures r <==> exists a :: DeclaresPublicly(w, a, thisClass, packageName, key)
  {
    hide DeclaresPublicly;
    PublicDeclarationIs(w, thisClass, packageName, key);
    var c := thisClass;
    while c.Some?
      invariant c.Some? ==> c.value < |w|
      invariant HasPublicDeclaration(w, thisClass, packageName, key) == HasPublicDeclaration(w, c, packageName, key)
      decreases if c.Some? then c.value + 1 else 0
    {
      assert WellFormedClass(w, c.value);
      if w[c.value].packageName == packageName {
        var i := 0;
        while i < |w[c.value].methods|
          invariant i <= |w[c.value].methods|
          invariant forall j | 0 <= j < i :: !IsPublicDeclaration(w[c.value].methods[j], key)
        {
          if IsPublicDeclaration(w[c.value].methods[i], key) {
            assert w[c.value].methods[i] in w[c.value].methods;
            return true;
          }
          i := i + 1;
        }
      }
      c := w[c.value].superClass;
    }
    return false;
  }

  /** Method m of class c is what a call of the declared method may have to execute. */
  ghost predicate Overrides(w: World, c: nat, m: Method, declared: Method)
    requires WellFormed(w) && c < |w| && declared.ofClass < |w| && WellFormedClass(w, c)
  {
    && m.key == declared.key && !m.isStatic
    && (|| c == declared.ofClass
        || (!m.access.Private?
            && (|| declared.IsExported() || w[c].packageName == w[declared.ofClass].packageName
                || HasPublicDeclaration(w, w[c].superClass, w[declared.ofClass].packageName, declared.key))))
  }

  ghost function FirstOverriding(w: World, c: nat, declared: Method, i: nat): (r: Option<Method>)
    requires WellFormed(w) && c < |w| && declared.ofClass < |w| && WellFormedClass(w, c) && i <= |w[c].methods|
    ensures r.Some? ==> r.value in w[c].methods && r.value.ofClass == c && Overrides(w, c, r.value, declared)
    decreases |w[c].methods| - i
  {
    if i == |w[c].methods| then None
    else if Overrides(w, c, w[c].methods[i], declared) then Some(w[c].methods[i])
    else FirstOverriding(w, c, declared, i + 1)
  }

  ghost function LookupOverriding(w: World, c: nat, declared: Method): (r: Option<Method>)
    requires WellFormed(w) && c < |w| && declared.ofClass < |w|
    ensures r.Some? ==> IsMethod(w, r.value) && IsSuperclass(w, r.value.ofClass, c)
    ensures r.Some? ==> Overrides(w, r.value.ofClass, r.value, declared)
    decreases c
  {
    assert WellFormedClass(w, c);
    var r := FirstOverriding(w, c, declared, 0);
    if r.Some? || w[c].superClass.None? then r else LookupOverriding(w, w[c].superClass.value, declared)
  }

  ghost function LookupDynamicMethod(w: World, c: nat, declared: Method): (r: Option<Method>)
    requires WellFormed(w) && c < |w| && declared.ofClass < |w|
  {
    if declared.access.Private? then Some(declared) else LookupOverriding(w, Start(w, c), declared)
  }

  /** Class a, which is c or a superclass of it, has method m, which a call of the declared method may execute. */
  ghost predicate HasOverriding(w: World, a: nat, c: nat, declared: Method, m: Method)
    requires WellFormed(w) && c < |w| && declared.ofClass < |w|
  {
    a < |w| && IsSuperclass(w, a, c) && m in w[a].methods && WellFormedClass(w, a) && Overrides(w, a, m, declared)
  }

  /** The method to be called: the declared one if it is private, otherwise the overriding one of the lowest class. */
  ghost predicate IsDispatched(w: World, c: nat, declared: Method, m: Method)
    requires WellFormed(w) && c < |w| && declared.ofClass < |w|
  {
    if declared.access.Private? then m == declared
    else
      && HasOverriding(w, m.ofClass, Start(w, c), declared, m)
      && forall a, o | HasOverriding(w, a, Start(w, c), declared, o) :: m.ofClass < |w| && IsSuperclass(w, a, m.ofClass)
  }

  ghost predicate IsDynamicResult(w: World, c: nat, declared: Method, r: Option<Method>)
    requires WellFormed(w) && c < |w| && declared.ofClass < |w|
  {
    && (r.None? ==> !declared.access.Private? && forall a, m :: !HasOverriding(w, a, Start(w, c), declared, m))
    && (r.Some? ==> IsDispatched(w, c, declared, r.value))
  }

  lemma {:induction false} FirstOverridesAny(w: World, c: nat, declared: Method, i: nat, m: Method)
    requires WellFormed(w) && c < |w| && declared.ofClass < |w| && WellFormedClass(w, c) && i <= |w[c].methods|
    requires m in w[c].methods[i..] && Overrides(w, c, m, declared)
    ensures FirstOverriding(w, c, declared, i).Some?
    decreases |w[c].methods| - i
  {
    if !Overrides(w, c, w[c].methods[i], declared) {
      FirstOverridesAny(w, c, declared, i + 1, m);
    }
  }

  lemma {:induction false} OverridingSearched(w: World, c: nat, declared: Method)
    requires WellFormed(w) && c < |w| && declared.ofClass < |w|
    ensures var r := LookupOverriding(w, c, declared);
            && (r.Some? ==> HasOverriding(w, r.value.ofClass, c, declared, r.value))
            && forall a, o | HasOverriding(w, a, c, declared, o) ::
                 r.Some? && r.value.ofClass < |w| && IsSuperclass(w, a, r.value.ofClass)
    decreases c
  {
    assert WellFormedClass(w, c);
    hide Overrides;
    var r := LookupOverriding(w, c, declared);
    if r.Some? {
      assert WellFormedClass(w, r.value.ofClass);
    }
    forall a, o | HasOverriding(w, a, c, declared, o)
      ensures r.Some? && r.value.ofClass < |w| && IsSuperclass(w, a, r.value.ofClass)
    {
      if FirstOverriding(w, c, declared, 0).None? {
        if a == c {
          assert w[c].methods[0..] == w[c].methods;
          FirstOverridesAny(w, c, declared, 0, o);
        }
        OverridingSearched(w, w[c].superClass.value, declared);
        assert HasOverriding(w, a, w[c].superClass.value, declared, o);
      }
    }
  }

  lemma DispatchFinds(w: World, c: nat, declared: Method)
    requires WellFormed(w) && c < |w| && declared.ofClass < |w|
    ensures IsDynamicResult(w, c, declared, LookupDynamicMethod(w, c, declared))
  {
    hide HasOverriding;
    OverridingSearched(w, Start(w, c), declared);
  }

  /** At most one method is to be called. */
  lemma DispatchedOnce(w: World, c: nat, declared: Method, m: Method, o: Method)
    requires WellFormed(w) && c < |w| && declared.ofClass < |w|
    requires IsDispatched(w, c, declared, m) && IsDispatched(w, c, declared, o)
    ensures m == o
  {
    if !declared.access.Private? {
      assert HasOverriding(w, m.ofClass, Start(w, c), declared, m);
      assert HasOverriding(w, o.ofClass, Start(w, c), declared, o);
      SuperclassesAscend(w, m.ofClass, o.ofClass);
      SuperclassesAscend(w, o.ofClass, m.ofClass);
      assert WellFormedClass(w, m.ofClass);
    }
  }

  /** The loops of lookupDynamicMethod, which look for a public declaration at most once. */
  method FindDynamicMethod(w: World, thisClass: nat, declared: Method) returns (r: Option<Method>)
    requires WellFormed(w) && thisClass < |w| && declared.ofClass < |w|
    ensures r == LookupDynamicMethod(w, thisClass, declared)
    ensures IsDynamicResult(w, thisClass, declared, r)
  {
    hide IsDynamicResult;
    DispatchFinds(w, thisClass, declared);
    var c: nat := Start(w, thisClass);
    var guaranteedNotPublic := false;
    var acceptAny := declared.IsExported();
    var packageName := w[declared.ofClass].packageName;
    if declared.access.Private? {
      return Some(declared);
    }
    while true
      invariant c < |w|
      invariant LookupOverriding(w, Start(w, thisClass), declared) == LookupOverriding(w, c, declared)
      invariant guaranteedNotPublic ==>
                  WellFormedClass(w, c) && !HasPublicDeclaration(w, w[c].superClass, packageName, declared.key)
      decreases c
    {
      assert WellFormedClass(w, c);
      var i := 0;
      while i < |w[c].methods|
        invariant i <= |w[c].methods|
        invariant FirstOverriding(w, c, declared, 0) == FirstOverriding(w, c, declared, i)
        invariant guaranteedNotPublic ==> !HasPublicDeclaration(w, w[c].superClass, packageName, declared.key)
      {
        var m := w[c].methods[i];
        if m.key == declared.key && !m.isStatic {
          if declared.ofClass == c {
            return Some(m);
          }
          if !m.access.Private? {
            if acceptAny || w[c].packageName == packageName {
              return Some(m);
            }
            if !guaranteedNotPublic {
              var found := FindPublicDeclaration(w, w[c].superClass, packageName, declared.key);
              if found {
                return Some(m);
              }
              guaranteedNotPublic := true;
            }
          }
        }
        i := i + 1;
      }
      if w[c].superClass.None? {
        break;
      }
      c := w[c].superClass.value;
      assert WellFormedClass(w, c);
    }
    return None;
  }
}
