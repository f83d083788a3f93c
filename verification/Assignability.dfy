/**
 * isAssignableTo and its relatives (class.c): subtyping of classes, interfaces and arrays, with classes loaded on
 * demand.
 */
module Assignability {

  import opened ClassTables
  import opened Options

  /** Arrays of equal primitive elements have the same class. */
  ghost predicate Interned(w: World) {
    forall a: nat, b: nat | a < |w| && b < |w| && w[a].element.Some? && w[a].element.value.PrimitiveElement?
      && w[b].element == w[a].element :: a == b
  }

  predicate AreObjectArrays(w: World, a: nat, b: nat) {
    && a < |w| && b < |w| && w[a].element.Some? && w[b].element.Some?
    && w[a].element.value.ClassElement? && w[b].element.value.ClassElement?
  }

  /**
   * Subtyping: one step up from a, and so on until b is reached; arrays of objects are ordered as their elements are.
   */
  ghost predicate Subtype(w: World, a: nat, b: nat)
    requires WellFormed(w) && a < |w| && b < |w|
    decreases a
  {
    && WellFormedClass(w, a)
    && (|| a == b || b == JAVA_LANG_OBJECT
        || (w[a].superClass.Some? && Subtype(w, w[a].superClass.value, b))
        || (exists i | 0 <= i < |w[a].interfaces| :: Subtype(w, w[a].interfaces[i], b))
        || (AreObjectArrays(w, a, b) && WellFormedClass(w, b)
            && Subtype(w, w[a].element.value.c, w[b].element.value.c)))
  }

  /** The rules that a notion of subtyping has to obey. */
  ghost predicate ObeysRules(w: World, r: iset<(nat, nat)>)
    requires WellFormed(w)
  {
    && (forall a: nat {:trigger (a, a) in r} | a < |w| :: (a, a) in r)
    && (forall a: nat, b: nat, c: nat {:trigger (a, b) in r, (b, c) in r} | (a, b) in r && (b, c) in r :: (a, c) in r)
    && (forall a: nat {:trigger (a, JAVA_LANG_OBJECT) in r} | a < |w| :: (a, JAVA_LANG_OBJECT) in r)
    && (forall a: nat {:trigger w[a].superClass} | a < |w| && w[a].superClass.Some? :: (a, w[a].superClass.value) in r)
    && (forall a: nat, i {:trigger w[a].interfaces[i]} | a < |w| && 0 <= i < |w[a].interfaces| ::
          (a, w[a].interfaces[i]) in r)
    && (forall a: nat, b: nat | AreObjectArrays(w, a, b) && (w[a].element.value.c, w[b].element.value.c) in r ::
          (a, b) in r)
  }

  /** Subtyping is contained in every relation that obeys the rules. */
  lemma {:induction false} SubtypeIsLeast(w: World, r: iset<(nat, nat)>, a: nat, b: nat)
    requires WellFormed(w) && ObeysRules(w, r) && a < |w| && b < |w| && Subtype(w, a, b)
    ensures (a, b) in r
    decreases a
  {
    assert WellFormedClass(w, a) && WellFormedClass(w, b);
    assert (a, a) in r && (a, JAVA_LANG_OBJECT) in r;
    if a == b || b == JAVA_LANG_OBJECT {
    } else if w[a].superClass.Some? && Subtype(w, w[a].superClass.value, b) {
      SubtypeIsLeast(w, r, w[a].superClass.value, b);
    } else if i :| 0 <= i < |w[a].interfaces| && Subtype(w, w[a].interfaces[i], b) {
      SubtypeIsLeast(w, r, w[a].interfaces[i], b);
    } else {
      SubtypeIsLeast(w, r, w[a].element.value.c, w[b].element.value.c);
    }
  }

  lemma SubtypeReflexive(w: World, a: nat)
    requires WellFormed(w) && a < |w|
    ensures Subtype(w, a, a)
  {
    assert WellFormedClass(w, a);
  }

  lemma {:induction false} SubtypeTransitive(w: World, a: nat, b: nat, c: nat)
    requires WellFormed(w) && a < |w| && b < |w| && c < |w| && Subtype(w, a, b) && Subtype(w, b, c)
    ensures Subtype(w, a, c)
    decreases a
  {
    assert WellFormedClass(w, a) && WellFormedClass(w, b) && WellFormedClass(w, c);
    if a == b || c == JAVA_LANG_OBJECT {
    } else if b == JAVA_LANG_OBJECT {
      OnlyObjectAboveObject(w, c);
    } else if w[a].superClass.Some? && Subtype(w, w[a].superClass.value, b) {
      SubtypeTransitive(w, w[a].superClass.value, b, c);
    } else if i :| 0 <= i < |w[a].interfaces| && Subtype(w, w[a].interfaces[i], b) {
      SubtypeTransitive(w, w[a].interfaces[i], b, c);
    } else if b != c {
      SubtypeTransitive(w, w[a].element.value.c, w[b].element.value.c, w[c].element.value.c);
    }
  }

  lemma OnlyObjectAboveObject(w: World, c: nat)
    requires WellFormed(w) && c < |w| && Subtype(w, JAVA_LANG_OBJECT, c)
    ensures c == JAVA_LANG_OBJECT
  {
    assert WellFormedClass(w, JAVA_LANG_OBJECT);
  }

  ghost function Subtypes(w: World): iset<(nat, nat)>
    requires WellFormed(w)
  {
    iset a: nat, b: nat | a < |w| && b < |w| && Subtype(w, a, b) :: (a, b)
  }

  /** Subtyping obeys the rules, so it is the least relation that does. */
  lemma SubtypeObeysRules(w: World)
    requires WellFormed(w)
    ensures ObeysRules(w, Subtypes(w))
  {
    var r := Subtypes(w);
    forall a: nat | a < |w|
      ensures (a, a) in r && (a, JAVA_LANG_OBJECT) in r
    {
      SubtypeReflexive(w, a);
    }
    forall a: nat, b: nat, c: nat | (a, b) in r && (b, c) in r
      ensures (a, c) in r
    {
      SubtypeTransitive(w, a, b, c);
    }
    forall a: nat | a < |w| && w[a].superClass.Some?
      ensures (a, w[a].superClass.value) in r
    {
      assert WellFormedClass(w, a);
      SubtypeReflexive(w, w[a].superClass.value);
    }
    forall a: nat, i | a < |w| && 0 <= i < |w[a].interfaces|
      ensures (a, w[a].interfaces[i]) in r
    {
      assert WellFormedClass(w, a);
      SubtypeReflexive(w, w[a].interfaces[i]);
    }
    forall a: nat, b: nat | AreObjectArrays(w, a, b) && (w[a].element.value.c, w[b].element.value.c) in r
      ensures (a, b) in r
    {
      assert WellFormedClass(w, a) && WellFormedClass(w, b);
    }
  }

  /** The interface is class c itself or one of the interfaces found in the loop of implementsInterface. */
  ghost predicate Implements(w: World, c: nat, i: nat)
    requires WellFormed(w) && c < |w|
    decreases c, 1
  {
    c == i || ImplementsListed(w, c, i)
  }

  /** The interfaces listed by class c and its superclasses lead to interface i. */
  ghost predicate ImplementsListed(w: World, c: nat, i: nat)
    requires WellFormed(w) && c < |w|
    decreases c, 0
  {
    && WellFormedClass(w, c)
    && (|| (exists k | 0 <= k < |w[c].interfaces| :: Implements(w, w[c].interfaces[k], i))
        || (w[c].superClass.Some? && ImplementsListed(w, w[c].superClass.value, i)))
  }

  /** Class b is found among the superclasses of class a. */
  ghost predicate IsProperSuperclass(w: World, b: nat, a: nat)
    requires WellFormed(w) && a < |w|
    decreases a
  {
    && WellFormedClass(w, a) && w[a].superClass.Some?
    && (w[a].superClass.value == b || IsProperSuperclass(w, b, w[a].superClass.value))
  }

  /** The case distinctions of isAssignableTo. */
  ghost predicate Assignable(w: World, a: nat, b: nat)
    requires WellFormed(w) && a < |w| && b < |w|
    decreases b
  {
    || a == b || b == JAVA_LANG_OBJECT
    || (&& w[b].IsArray() && w[a].IsArray() && WellFormedClass(w, a) && WellFormedClass(w, b)
        && match (w[a].element.value, w[b].element.value) {
           case (PrimitiveElement(s), PrimitiveElement(t)) => s == t
           case (ClassElement(c), ClassElement(d)) => Assignable(w, c, d)
           case _ => false
        })
    || (!w[b].IsArray() && w[b].isInterface && !w[a].IsArray() && Implements(w, a, b))
    || (!w[b].IsArray() && !w[b].isInterface && !w[a].IsArray() && !w[a].isInterface && IsProperSuperclass(w, b, a))
  }

  lemma {:induction false} ImplementsIsSubtype(w: World, a: nat, b: nat)
    requires WellFormed(w) && a < |w| && b < |w| && Implements(w, a, b)
    ensures Subtype(w, a, b)
    decreases a, 1
  {
    if a == b {
      SubtypeReflexive(w, a);
    } else {
      ListedIsSubtype(w, a, b);
    }
  }

  lemma {:induction false} ListedIsSubtype(w: World, a: nat, b: nat)
    requires WellFormed(w) && a < |w| && b < |w| && ImplementsListed(w, a, b)
    ensures Subtype(w, a, b)
    decreases a, 0
  {
    if i :| 0 <= i < |w[a].interfaces| && Implements(w, w[a].interfaces[i], b) {
      ImplementsIsSubtype(w, w[a].interfaces[i], b);
    } else {
      ListedIsSubtype(w, w[a].superClass.value, b);
    }
  }

  lemma {:induction false} ProperSuperclassIsSubtype(w: World, a: nat, b: nat)
    requires WellFormed(w) && a < |w| && b < |w| && IsProperSuperclass(w, b, a)
    ensures Subtype(w, a, b)
    decreases a
  {
    SubtypeReflexive(w, b);
    if w[a].superClass.value != b {
      ProperSuperclassIsSubtype(w, w[a].superClass.value, b);
    }
  }

  lemma {:induction false} AssignableIsSubtype(w: World, a: nat, b: nat)
    requires WellFormed(w) && Interned(w) && a < |w| && b < |w| && Assignable(w, a, b)
    ensures Subtype(w, a, b)
    decreases b
  {
    SubtypeReflexive(w, a);
    assert WellFormedClass(w, a) && WellFormedClass(w, b);
    if a == b || b == JAVA_LANG_OBJECT {
    } else if w[b].IsArray() {
      if w[b].element.value.ClassElement? {
        AssignableIsSubtype(w, w[a].element.value.c, w[b].element.value.c);
      }
    } else if w[b].isInterface {
      ImplementsIsSubtype(w, a, b);
    } else {
      ProperSuperclassIsSubtype(w, a, b);
    }
  }

  lemma {:induction false} SubtypeIsAssignable(w: World, a: nat, b: nat)
    requires WellFormed(w) && a < |w| && b < |w| && Subtype(w, a, b)
    ensures Assignable(w, a, b)
    decreases a
  {
    assert WellFormedClass(w, b);
    if a == b || b == JAVA_LANG_OBJECT {
    } else if w[a].superClass.Some? && Subtype(w, w[a].superClass.value, b) {
      SubtypeIsAssignable(w, w[a].superClass.value, b);
    } else if i :| 0 <= i < |w[a].interfaces| && Subtype(w, w[a].interfaces[i], b) {
      SubtypeIsAssignable(w, w[a].interfaces[i], b);
      assert w[b].isInterface ==> Implements(w, w[a].interfaces[i], b);
    } else {
      SubtypeIsAssignable(w, w[a].element.value.c, w[b].element.value.c);
    }
  }

  /** isAssignableTo decides subtyping. */
  lemma AssignableIffSubtype(w: World, a: nat, b: nat)
    requires WellFormed(w) && Interned(w) && a < |w| && b < |w|
    ensures Assignable(w, a, b) <==> Subtype(w, a, b)
  {
    if Assignable(w, a, b) {
      AssignableIsSubtype(w, a, b);
    }
    if Subtype(w, a, b) {
      SubtypeIsAssignable(w, a, b);
    }
  }

  /** Assignments compose. */
  lemma AssignableTransitive(w: World, a: nat, b: nat, c: nat)
    requires WellFormed(w) && Interned(w) && a < |w| && b < |w| && c < |w| && Assignable(w, a, b) && Assignable(w, b, c)
    ensures Assignable(w, a, c)
  {
    AssignableIffSubtype(w, a, b);
    AssignableIffSubtype(w, b, c);
    SubtypeTransitive(w, a, b, c);
    AssignableIffSubtype(w, a, c);
  }
}
