/** Method signatures and their encoding as names (fields.c), over class names and class keys (class.c). */
module Signatures {

  import opened Options

  const FIELD_KEY_ARRAY_UNIT := 0x2000
  const MAX_FIELD_KEY_ARRAY_DEPTH := 7

  datatype BaseType = Primitive(code: char) | ClassType(name: string)

  /** The type of a field, an argument or a result: an array of some depth. */
  datatype FieldType = FieldType(depth: nat, base: BaseType)

  predicate IsTypeCode(c: char) {
    'A' <= c <= 'Z' && c != 'L'
  }

  predicate GoodType(f: FieldType) {
    match f.base
    case Primitive(code) => IsTypeCode(code)
    case ClassType(name) => |name| > 0 && forall i | 0 <= i < |name| :: name[i] != '[' && name[i] != ';'
  }

  function Brackets(n: nat): (r: string)
    ensures |r| == n && forall i | 0 <= i < n :: r[i] == '['
  {
    seq(n, _ => '[')
  }

  function BaseText(b: BaseType): string {
    match b
    case Primitive(code) => [code]
    case ClassType(name) => "L" + name + ";"
  }

  /** The signature of a type. */
  function Text(f: FieldType): string {
    Brackets(f.depth) + BaseText(f.base)
  }

  /** A class, as identified by the names of its package and of itself. */
  datatype ClassName = ClassName(packageName: Option<string>, baseName: string)

  /** The position of the last slash among the first n characters. */
  function LastSlash(name: string, n: nat): (r: Option<nat>)
    requires n <= |name|
    ensures r.Some? ==> r.value < n && name[r.value] == '/'
  {
    if n == 0 then None else if name[n - 1] == '/' then Some(n - 1) else LastSlash(name, n - 1)
  }

  function SplitName(name: string): ClassName {
    var p := LastSlash(name, |name|);
    if p.Some? then ClassName(Some(name[..p.value]), name[p.value + 1..]) else ClassName(None, name)
  }

  /** What arrays are made of: values of a primitive type, or objects of a class. */
  datatype ArrayBase = CodeBase(code: char) | ClassBase(c: ClassName)

  /** The class of arrays of this depth, which has the package of the elements. */
  function ArrayClassName(depth: nat, base: ArrayBase): ClassName {
    match base
    case CodeBase(code) => ClassName(None, Brackets(depth) + [code])
    case ClassBase(c) => ClassName(c.packageName, Brackets(depth) + ("L" + c.baseName + ";"))
  }

  function BaseOfType(b: BaseType): ArrayBase {
    match b
    case Primitive(code) => CodeBase(code)
    case ClassType(name) => ClassBase(SplitName(name))
  }

  function ArrayName(f: FieldType): ClassName {
    ArrayClassName(f.depth, BaseOfType(f.base))
  }

  function CountBrackets(s: string): (n: nat)
    ensures n <= |s| && (forall i | 0 <= i < n :: s[i] == '[') && (n < |s| ==> s[n] != '[')
  {
    if |s| > 0 && s[0] == '[' then 1 + CountBrackets(s[1..]) else 0
  }

  function PackagePrefix(packageName: Option<string>): string {
    if packageName.Some? then packageName.value + "/" else ""
  }

  /** getClassName_inBuffer */
  function PrintedName(c: ClassName): string {
    var depth := CountBrackets(c.baseName);
    var from := c.baseName[depth..];
    var isArrayOfObject := depth > 0 && |from| != 1;
    if isArrayOfObject
      && |from| > 0 then Brackets(depth) + ("L" + (PackagePrefix(c.packageName) + from[1..|from| - 1]) + ";")
    else Brackets(depth) + (PackagePrefix(c.packageName) + from)
  }

  lemma CountIs(n: nat, rest: string)
    requires rest == "" || rest[0] != '['
    ensures CountBrackets(Brackets(n) + rest) == n
  {
    if n > 0 {
      assert (Brackets(n) + rest)[1..] == Brackets(n - 1) + rest;
      CountIs(n - 1, rest);
    } else {
      assert Brackets(n) + rest == rest;
    }
  }

  lemma PrefixAndBase(name: string)
    ensures PackagePrefix(SplitName(name).packageName) + SplitName(name).baseName == name
  {
  }

  lemma {:induction false} NoSlashBehind(name: string, n: nat, i: nat)
    requires i < n <= |name| && (LastSlash(name, n).Some? ==> LastSlash(name, n).value < i)
    ensures name[i] != '/'
  {
    if i < n - 1 {
      NoSlashBehind(name, n - 1, i);
    }
  }

  /** The base name is what stands behind the last slash; without one there is no package. */
  lemma SplitAtLastSlash(name: string)
    ensures '/' !in SplitName(name).baseName && (SplitName(name).packageName.Some? <==> '/' in name)
  {
    var c := SplitName(name);
    var from := |name| - |c.baseName|;
    forall i | 0 <= i < |c.baseName|
      ensures c.baseName[i] != '/'
    {
      NoSlashBehind(name, |name|, from + i);
    }
    assert c.packageName.None? ==> c.baseName == name;
  }

  /** A class name is printed as it was before it was split, behind the last slash. */
  lemma SplitNamePrints(name: string)
    requires forall i | 0 <= i < |name| :: name[i] != '['
    ensures PrintedName(SplitName(name)) == name && '/' !in SplitName(name).baseName
  {
    SplitAtLastSlash(name);
    var c := SplitName(name);
    assert CountBrackets(c.baseName) == 0;
    assert c.baseName[0..] == c.baseName;
    PrefixAndBase(name);
  }

  lemma ObjectArrayPrints(depth: nat, packageName: Option<string>, baseName: string)
    requires depth > 0
    ensures PrintedName(ClassName(packageName, Brackets(depth) + ("L" + baseName + ";"))) ==
            Brackets(depth) + ("L" + (PackagePrefix(packageName) + baseName) + ";")
  {
    hide PackagePrefix;
    var rest := "L" + baseName + ";";
    CountIs(depth, rest);
    assert (Brackets(depth) + rest)[depth..] == rest;
    assert rest[1..|rest| - 1] == baseName;
  }

  /** An array class is printed as its signature. */
  lemma ArrayNamePrints(f: FieldType)
    requires GoodType(f) && f.depth > 0
    ensures PrintedName(ArrayName(f)) == Text(f)
  {
    match f.base {
      case Primitive(code) =>
        CountIs(f.depth, [code]);
        assert ArrayName(f).baseName[f.depth..] == [code];
      case ClassType(name) =>
        hide PrintedName, SplitName, PackagePrefix;
        ObjectArrayPrints(f.depth, SplitName(name).packageName, SplitName(name).baseName);
        PrefixAndBase(name);
    }
  }

  /** Classes by name and by key; the keys of arrays of depth 1 to 6 are made from those of their bases. */
  datatype ClassTable = ClassTable(keys: map<ClassName, nat>, classes: map<nat, ClassName>)

  /** What a class with brackets in its name is an array of. */
  function BaseOf(c: ClassName): ArrayBase {
    var from := c.baseName[CountBrackets(c.baseName)..];
    if |from| == 1 then CodeBase(from[0])
    else if |from| == 0 then ClassBase(c) else ClassBase(ClassName(c.packageName, from[1..|from| - 1]))
  }

  ghost predicate IsKeyOf(t: ClassTable, base: ArrayBase, key: nat) {
    match base
    case CodeBase(code) => key == code as int < 256 && code != '['
    case ClassBase(c) => c in t.keys && t.keys[c] == key && CountBrackets(c.baseName) == 0
  }

  /**
   * Keys of classes that are not arrays are from 256 to 0x1FFF; those of deep arrays have all depth bits set; the
   * others are the depth with the key of the base.
   */
  ghost predicate GoodClass(t: ClassTable, c: ClassName)
    requires c in t.keys
  {
    var depth, key := CountBrackets(c.baseName), t.keys[c];
    if 0 < depth < MAX_FIELD_KEY_ARRAY_DEPTH then
      && c == ArrayClassName(depth, BaseOf(c))
      && key / FIELD_KEY_ARRAY_UNIT == depth && IsKeyOf(t, BaseOf(c), key % FIELD_KEY_ARRAY_UNIT)
    else
      && key in t.classes && t.classes[key] == c
      && if depth == 0 then 256 <= key < FIELD_KEY_ARRAY_UNIT
         else MAX_FIELD_KEY_ARRAY_DEPTH * FIELD_KEY_ARRAY_UNIT <= key < 0x1_0000
  }

  ghost predicate GoodTable(t: ClassTable) {
    forall c | c in t.keys :: GoodClass(t, c)
  }

  /** Nothing that has a key loses or changes it. */
  ghost predicate Extends(t: ClassTable, t': ClassTable) {
    && (forall c | c in t.keys :: c in t'.keys && t'.keys[c] == t.keys[c])
    && (forall key | key in t.classes :: key in t'.classes && t'.classes[key] == t.classes[key])
  }

  lemma ExtendsItself(t: ClassTable)
    ensures Extends(t, t)
  {
  }

  /** The depth and the base of an array class determine each other and its name. */
  lemma BaseOfArray(depth: nat, base: ArrayBase)
    requires base.CodeBase? ==> base.code != '['
    ensures BaseOf(ArrayClassName(depth, base)) == base
    ensures CountBrackets(ArrayClassName(depth, base).baseName) == depth
  {
    var rest := match base case CodeBase(code) => [code] case ClassBase(c) => "L" + c.baseName + ";";
    CountIs(depth, rest);
    assert (Brackets(depth) + rest)[depth..] == rest;
    if base.ClassBase? {
      assert rest[1..|rest| - 1] == base.c.baseName;
    }
  }

  /** No two classes of a table have the same key, arrays of any depth included. */
  lemma KeysDiffer(t: ClassTable, c: ClassName, d: ClassName)
    requires GoodTable(t) && c in t.keys && d in t.keys && t.keys[c] == t.keys[d]
    ensures c == d
  {
    hide BaseOf, CountBrackets, ArrayClassName;
    assert GoodClass(t, c) && GoodClass(t, d);
    var depth := CountBrackets(c.baseName);
    if 0 < depth < MAX_FIELD_KEY_ARRAY_DEPTH {
      assert CountBrackets(d.baseName) == depth;
      assert BaseOf(c).ClassBase? ==> GoodClass(t, BaseOf(c).c);
      assert BaseOf(d).ClassBase? ==> GoodClass(t, BaseOf(d).c);
      assert BaseOf(c) == BaseOf(d);
    }
  }

  /** A table with a class, an array of primitive values, and a deep array. */
  lemma ExampleTable()
    ensures var root := ClassName(Some("java/lang"), "Object");
            var chars, deep := ArrayClassName(1, CodeBase('C')), ArrayClassName(9, ClassBase(root));
            GoodTable(ClassTable(map[root := 300, chars := 0x2043, deep := 0xE101],
                                 map[300 := root, 0xE101 := deep]))
  {
    var root := ClassName(Some("java/lang"), "Object");
    BaseOfArray(1, CodeBase('C'));
    BaseOfArray(9, ClassBase(root));
  }

  /** The classes that are needed for the key of the type have been named. */
  predicate Knows(t: ClassTable, f: FieldType) {
    if f.depth >= MAX_FIELD_KEY_ARRAY_DEPTH then ArrayName(f) in t.keys
    else f.base.ClassType? ==> SplitName(f.base.name) in t.keys
  }

  /** change_FieldSignature_to_Key */
  function FieldKey(t: ClassTable, f: FieldType): nat
    requires Knows(t, f)
  {
    if f.depth >= MAX_FIELD_KEY_ARRAY_DEPTH then t.keys[ArrayName(f)]
    else match f.base
         case Primitive(code) => code as int + f.depth * FIELD_KEY_ARRAY_UNIT
         case ClassType(name) => t.keys[SplitName(name)] + f.depth * FIELD_KEY_ARRAY_UNIT
  }

  function NameOfKey(t: ClassTable, key: nat): string {
    if key in t.classes then PrintedName(t.classes[key]) else ""
  }

  /** change_Key_to_FieldSignature_inBuffer */
  function KeyText(t: ClassTable, key: nat): string {
    var depth, baseClassKey := key / FIELD_KEY_ARRAY_UNIT, key % FIELD_KEY_ARRAY_UNIT;
    if depth == MAX_FIELD_KEY_ARRAY_DEPTH then NameOfKey(t, key)
    else if baseClassKey <= 255 then Brackets(depth) + [baseClassKey as char]
    else Brackets(depth) + ("L" + NameOfKey(t, baseClassKey) + ";")
  }

  lemma SplitNameHasNoBrackets(name: string)
    requires forall i | 0 <= i < |name| :: name[i] != '['
    ensures CountBrackets(SplitName(name).baseName) == 0
  {
  }

  lemma ArrayNameHasBrackets(f: FieldType)
    requires GoodType(f)
    ensures CountBrackets(ArrayName(f).baseName) == f.depth
  {
    match f.base {
      case Primitive(code) => CountIs(f.depth, [code]);
      case ClassType(name) => CountIs(f.depth, "L" + SplitName(name).baseName + ";");
    }
  }

  /** The key of a type is a 16-bit number that shows what is needed to print the type. */
  lemma FieldKeyRange(t: ClassTable, f: FieldType)
    requires GoodTable(t) && GoodType(f) && Knows(t, f)
    ensures FieldKey(t, f) < 0x1_0000
    ensures f.depth >= MAX_FIELD_KEY_ARRAY_DEPTH ==> FieldKey(t, f) / FIELD_KEY_ARRAY_UNIT == MAX_FIELD_KEY_ARRAY_DEPTH
    ensures f.depth < MAX_FIELD_KEY_ARRAY_DEPTH ==>
              && FieldKey(t, f) / FIELD_KEY_ARRAY_UNIT == f.depth
              && FieldKey(t, f) % FIELD_KEY_ARRAY_UNIT
                 == (match f.base
                     case Primitive(code) => code as int
                     case ClassType(name) => t.keys[SplitName(name)])
    ensures f.depth > 0 || f.base.ClassType? ==> FieldKey(t, f) >= 256
  {
    hide SplitName, ArrayName;
    if f.depth >= MAX_FIELD_KEY_ARRAY_DEPTH {
      ArrayNameHasBrackets(f);
    } else if f.base.ClassType? {
      SplitNameHasNoBrackets(f.base.name);
    }
  }

  /** The key of a type is printed as the signature of the type. */
  lemma FieldKeyRoundTrip(t: ClassTable, f: FieldType)
    requires GoodTable(t) && GoodType(f) && Knows(t, f)
    ensures KeyText(t, FieldKey(t, f)) == Text(f)
  {
    FieldKeyRange(t, f);
    if f.depth >= MAX_FIELD_KEY_ARRAY_DEPTH {
      ArrayNamePrints(f);
    } else if f.base.ClassType? {
      SplitNameHasNoBrackets(f.base.name);
      SplitNamePrints(f.base.name);
    }
  }
}
