/**
 * The loops of implementsInterface, isAssignableTo and isAssignableToFast (class.c), which load classes when they need
 * them.
 */
module ClassLoading {

  import opened Assignability
  import opened ClassTables
  import opened Options

  class ClassLoader {
    const world: World
    /** The classes that are not CLASS_RAW; array classes are known without being loaded. */
    var loaded: set<nat>

    /** Superclasses and interfaces of loaded classes are loaded. */
    ghost predicate Valid()
      reads this
    {
      && WellFormed(world) && Interned(world) && JAVA_LANG_OBJECT in loaded
      && (forall c | c in loaded :: c < |world| && (world[c].superClass.Some? ==> world[c].superClass.value in loaded))
      && (forall c, i | c in loaded && c < |world| && 0 <= i < |world[c].interfaces| ::
            world[c].interfaces[i] in loaded)
    }

    /** The superclass is only known of loaded classes. */
    function SuperClass(c: nat): nat
      requires Valid() && c in loaded && c != JAVA_LANG_OBJECT && !world[c].IsArray()
      reads this
    {
      assert WellFormedClass(world, c);
      world[c].superClass.value
    }

    function IfaceTable(c: nat): seq<nat>
      requires Valid() && c in loaded
      reads this
    {
      world[c].interfaces
    }

    /** The flag ACC_INTERFACE, which is not set as long as the class is not loaded. */
    predicate HasInterfaceFlag(c: nat)
      requires Valid() && c < |world|
      reads this
    {
      c in loaded && world[c].isInterface
    }

    method LoadClassfile(c: nat)
      requires Valid() && c < |world|
      modifies this
      ensures Valid() && c in loaded && old(loaded) <= loaded
      decreases c
    {
      if c !in loaded {
        assert WellFormedClass(world, c);
        if world[c].superClass.Some? {
          LoadClassfile(world[c].superClass.value);
        }
        for i := 0 to |world[c].interfaces|
          invariant Valid() && old(loaded) <= loaded
          invariant world[c].superClass.Some? ==> world[c].superClass.value in loaded
          invariant forall k | 0 <= k < i :: world[c].interfaces[k] in loaded
        {
          LoadClassfile(world[c].interfaces[i]);
        }
        loaded := loaded + {c};
      }
    }

    method ImplementsInterface(thisClass: nat, thisInterface: nat) returns (r: bool)
      requires Valid() && thisClass < |world| && !world[thisClass].IsArray()
      modifies this
      ensures Valid() && old(loaded) <= loaded
      ensures r == Implements(world, thisClass, thisInterface)
      decreases thisClass
    {
      if thisClass == thisInterface {
        return true;
      }
      if thisClass !in loaded {
        LoadClassfile(thisClass);
      }
      var c := thisClass;
      while true
        invariant Valid() && old(loaded) <= loaded && c in loaded && c <= thisClass && !world[c].IsArray()
        invariant ImplementsListed(world, thisClass, thisInterface) == ImplementsListed(world, c, thisInterface)
        decreases c
      {
        assert WellFormedClass(world, c);
        var ifaceTable := IfaceTable(c);
        for i := 0 to |ifaceTable|
          invariant Valid() && old(loaded) <= loaded && c in loaded
          invariant forall k | 0 <= k < i :: !Implements(world, ifaceTable[k], thisInterface)
        {
          var found := ImplementsInterface(ifaceTable[i], thisInterface);
          if found {
            return true;
          }
        }
        if c == JAVA_LANG_OBJECT {
          return false;
        }
        c := SuperClass(c);
      }
    }

    /** Loads the class that the innermost elements of an array belong to. */
    method LoadArrayClass(c: nat)
      requires Valid() && c < |world| && world[c].IsArray()
      modifies this
      ensures Valid() && old(loaded) <= loaded
    {
      var base: nat := c;
      while world[base].IsArray() && world[base].element.value.ClassElement?
        invariant base < |world|
        decreases base
      {
        assert WellFormedClass(world, base);
        base := world[base].element.value.c;
      }
      if !world[base].IsArray() {
        LoadClassfile(base);
      }
    }

    method IsAssignableTo(fromClass: nat, toClass: nat) returns (r: bool)
      requires Valid() && fromClass < |world| && toClass < |world|
      modifies this
      ensures Valid() && old(loaded) <= loaded
      ensures r == Subtype(world, fromClass, toClass)
    {
      AssignableIffSubtype(world, fromClass, toClass);
      var a: nat, b: nat := fromClass, toClass;
      while true
        invariant Valid() && old(loaded) <= loaded && a < |world| && b < |world|
        invariant Assignable(world, fromClass, toClass) == Assignable(world, a, b)
        decreases b
      {
        if a == b || b == JAVA_LANG_OBJECT {
          return true;
        }
        assert WellFormedClass(world, a) && WellFormedClass(world, b);
        if world[b].IsArray() {
          LoadArrayClass(b);
        } else if b !in loaded {
          LoadClassfile(b);
        }
        if world[b].IsArray() {
          if !world[a].IsArray() {
            return false;
          } else if world[a].element.value.PrimitiveElement? != world[b].element.value.PrimitiveElement? {
            return false;
          } else if world[b].element.value.PrimitiveElement? {
            return world[a].element.value.typeCode == world[b].element.value.typeCode;
          } else {
            a, b := world[a].element.value.c, world[b].element.value.c;
          }
        } else if HasInterfaceFlag(b) {
          if world[a].IsArray() {
            return false;
          }
          r := ImplementsInterface(a, b);
          return;
        } else if world[a].IsArray() || HasInterfaceFlag(a) {
          return false;
        } else {
          r := IsSubclassOf(a, b);
          return;
        }
      }
    }

    /** The last loop of isAssignableTo. */
    method IsSubclassOf(fromClass: nat, toClass: nat) returns (r: bool)
      requires Valid() && fromClass < |world| && toClass < |world| && toClass != JAVA_LANG_OBJECT
      requires toClass != fromClass
      requires !world[fromClass].IsArray() && !world[toClass].IsArray() && !world[toClass].isInterface
      modifies this
      ensures Valid() && old(loaded) <= loaded
      ensures r == Assignable(world, fromClass, toClass)
    {
      var c: nat := fromClass;
      while c != JAVA_LANG_OBJECT
        invariant Valid() && old(loaded) <= loaded && c < |world| && !world[c].IsArray()
        invariant IsProperSuperclass(world, toClass, fromClass) == IsProperSuperclass(world, toClass, c)
        invariant world[fromClass].isInterface ==> c == fromClass || c == JAVA_LANG_OBJECT
        decreases c
      {
        if c !in loaded {
          LoadClassfile(c);
        }
        assert WellFormedClass(world, c);
        c := SuperClass(c);
        if c == toClass {
          return true;
        }
      }
      return false;
    }

    /** True means yes; false means that the classes loaded so far do not tell, or no. */
    method IsAssignableToFast(fromClass: nat, toClass: nat) returns (r: bool)
      requires Valid() && fromClass < |world| && toClass < |world|
      ensures r ==> Subtype(world, fromClass, toClass)
      ensures fromClass in loaded && !world[fromClass].IsArray() && !world[toClass].IsArray()
              && !world[toClass].isInterface ==>
                r == Subtype(world, fromClass, toClass)
    {
      AssignableIffSubtype(world, fromClass, toClass);
      if fromClass == toClass || toClass == JAVA_LANG_OBJECT {
        return true;
      } else if world[fromClass].IsArray() || world[toClass].IsArray() {
        return false;
      }
      var c: nat := fromClass;
      while c != JAVA_LANG_OBJECT
        invariant c < |world| && !world[c].IsArray() && (fromClass in loaded ==> c in loaded)
        invariant IsProperSuperclass(world, toClass, fromClass) == IsProperSuperclass(world, toClass, c)
        invariant world[fromClass].isInterface ==> c == fromClass || c == JAVA_LANG_OBJECT
        decreases c
      {
        assert WellFormedClass(world, c);
        if c !in loaded {
          return false;
        }
        c := SuperClass(c);
        if c == toClass {
          ProperSuperclassIsSubtype(world, fromClass, toClass);
          return true;
        }
      }
      return false;
    }
  }
}
