/** The loops over signatures: parsing them, finding their classes, encoding and printing them (fields.c, class.c). */
module SignatureCoding {

  import opened ClassHashTable
  import opened MethodSignatures
  import NameTable
  import opened Options
  import opened Signatures

  /** Where the name is split: the loop of getRawClassX for names without brackets. */
  method SplitAtLastSlash(name: string) returns (c: ClassName)
    requires |name| > 0
    ensures c == SplitName(name)
  {
    var p := |name|;
    while true
      invariant 0 < p <= |name| && LastSlash(name, |name|) == LastSlash(name, p)
      decreases p
    {
      p := p - 1;
      if name[p] == '/' {
        return ClassName(Some(name[..p]), name[p + 1..]);
      } else if p == 0 {
        return ClassName(None, name);
      }
    }
  }

  method CountLeadingBrackets(s: string) returns (depth: nat)
    ensures depth == CountBrackets(s)
  {
    depth := 0;
    while depth < |s| && s[depth] == '['
      invariant depth <= |s| && CountBrackets(s) == depth + CountBrackets(s[depth..])
    {
      assert s[depth..][1..] == s[depth + 1..];
      depth := depth + 1;
    }
  }

  lemma TextParts(f: FieldType)
    requires GoodType(f)
    ensures CountBrackets(Text(f)) == f.depth && Text(f)[f.depth..] == BaseText(f.base)
  {
    CountIs(f.depth, BaseText(f.base));
  }

  /** What can stop the virtual machine when the classes of a type are named. */
  ghost predicate IsStopped(buckets: seq<seq<Entry>>, f: FieldType) {
    HasFullBucket(buckets) || (f.base.Primitive? && !IsArrayCode(f.base.code))
  }

  /** getRawClassX for a name without brackets. */
  method GetRawClass(h: HashTable, name: string) returns (c: Option<ClassName>)
    requires h.Valid() && |name| > 0 && forall i | 0 <= i < |name| :: name[i] != '['
    modifies h`buckets, h`table
    ensures h.Valid() && Extends(old(h.table), h.table)
    ensures c.Some? ==> c.value == SplitName(name) && c.value in h.table.keys && !IsArray(c.value)
    ensures c.None? ==> HasFullBucket(h.buckets)
  {
    SplitNameHasNoBrackets(name);
    var split := SplitAtLastSlash(name);
    var ok := h.NameClass(split);
    return if ok then Some(split) else None;
  }

  /** getRawClassX for the signature of an array. */
  method GetRawArrayClass(h: HashTable, s: string, ghost f: FieldType) returns (c: Option<ClassName>)
    requires h.Valid() && GoodType(f) && f.depth > 0 && s == Text(f)
    modifies h`buckets, h`table
    ensures c.Some? ==>
              h.Valid() && Extends(old(h.table), h.table) && c.value == ArrayName(f) && c.value in h.table.keys
    ensures c.None? ==> IsStopped(h.buckets, f)
  {
    TextParts(f);
    var depth := CountLeadingBrackets(s);
    if depth + 1 == |s| {
      assert s == Text(f) == s[..depth] + [s[depth]];
      c := h.GetArrayClass(depth, CodeBase(s[depth]));
    } else {
      var inner := s[depth + 1..|s| - 1];
      assert inner == f.base.name;
      ghost var t := h.table;
      var base := GetRawClass(h, inner);
      if base.None? {
        return None;
      }
      ghost var t' := h.table;
      c := h.GetArrayClass(depth, ClassBase(base.value));
      ExtendsTwice(t, t', h.table);
    }
  }

  lemma ExtendsTwice(t: ClassTable, t': ClassTable, t'': ClassTable)
    ensures Extends(t, t') && Extends(t', t'') ==> Extends(t, t'')
  {
  }

  /** change_FieldSignature_to_Key: the classes that it needs are named on the way. */
  method FieldSignatureToKey(h: HashTable, s: string, ghost f: FieldType) returns (key: Option<nat>)
    requires h.Valid() && GoodType(f) && s == Text(f)
    modifies h`buckets, h`table
    ensures key.Some? ==>
              h.Valid() && Extends(old(h.table), h.table) && Knows(h.table, f) && key.value == FieldKey(h.table, f)
    ensures key.None? ==> IsStopped(h.buckets, f)
  {
    TextParts(f);
    ExtendsItself(h.table);
    var depth := CountLeadingBrackets(s);
    if depth >= MAX_FIELD_KEY_ARRAY_DEPTH {
      var c := GetRawArrayClass(h, s, f);
      if c.None? {
        return None;
      }
      var own := h.KeyOf(c.value);
      return Some(own);
    } else if s[depth] != 'L' {
      return Some(s[depth] as int + depth * FIELD_KEY_ARRAY_UNIT);
    } else {
      assert s[depth + 1..|s| - 1] == f.base.name;
      var c := GetRawClass(h, s[depth + 1..|s| - 1]);
      if c.None? {
        return None;
      }
      var own := h.KeyOf(c.value);
      return Some(own + depth * FIELD_KEY_ARRAY_UNIT);
    }
  }

  /** strchr(from, ';') + 1 */
  method AfterSemicolon(s: string, from: nat, ghost name: string) returns (end: nat)
    requires from + |name| < |s| && s[from..from + |name|] == name && s[from + |name|] == ';'
    requires forall i | 0 <= i < |name| :: name[i] != ';'
    ensures end == from + |name| + 1
  {
    end := from;
    while s[end] != ';'
      invariant from <= end <= from + |name|
      decreases from + |name| - end
    {
      assert s[end] == name[end - from];
      end := end + 1;
    }
    end := end + 1;
  }

  lemma ClassTypeAt(s: string, p: nat, name: string)
    requires p + |name| + 2 <= |s| && s[p..p + |name| + 2] == "L" + name + ";"
    ensures s[p + 1..p + 1 + |name|] == name && s[p + 1 + |name|] == ';'
  {
    var text := s[p..p + |name| + 2];
    assert forall i | 0 <= i < |name| + 2 :: s[p + i] == text[i];
    assert forall i | 0 <= i < |name| :: s[p + 1 + i] == text[1 + i] == name[i];
  }

  /** The brackets of a type, and what follows them. */
  lemma TextAt(s: string, from: nat, f: FieldType)
    requires GoodType(f) && from + |Text(f)| <= |s| && s[from..from + |Text(f)|] == Text(f)
    ensures |Text(f)| == f.depth + |BaseText(f.base)| && |BaseText(f.base)| > 0
    ensures forall i {:trigger s[i]} | from <= i < from + f.depth :: s[i] == '['
    ensures s[from + f.depth] == BaseText(f.base)[0]
    ensures s[from + f.depth..from + |Text(f)|] == BaseText(f.base)
  {
    TextParts(f);
    var text := s[from..from + |Text(f)|];
    assert s[from + f.depth..from + |Text(f)|] == text[f.depth..];
    forall i | from <= i < from + f.depth
      ensures s[i] == '['
    {
      assert s[i] == text[i - from] == Brackets(f.depth)[i - from];
    }
    assert s[from + f.depth] == text[f.depth] == BaseText(f.base)[0];
  }

  lemma FirstOfBase(f: FieldType)
    requires GoodType(f)
    ensures |BaseText(f.base)| > 0 && BaseText(f.base)[0] != '[' && (BaseText(f.base)[0] == 'L' <==> f.base.ClassType?)
    ensures f.base.Primitive? ==> |BaseText(f.base)| == 1
    ensures f.base.ClassType? ==> BaseText(f.base) == "L" + f.base.name + ";"
  {
  }

  /** The end of the type that starts at `from`. */
  method EndOfType(s: string, from: nat, ghost f: FieldType) returns (end: nat)
    requires GoodType(f) && from + |Text(f)| <= |s| && s[from..from + |Text(f)|] == Text(f)
    ensures end == from + |Text(f)|
  {
    hide Text, BaseText, Brackets;
    TextAt(s, from, f);
    FirstOfBase(f);
    var p := from;
    while s[p] == '['
      invariant from <= p <= from + f.depth
      decreases from + f.depth - p
    {
      p := p + 1;
    }
    assert p == from + f.depth;
    if s[p] == 'L' {
      ClassTypeAt(s, p, f.base.name);
      end := AfterSemicolon(s, p + 1, f.base.name);
    } else {
      end := p + 1;
    }
  }

  /** change_MethodSignature_to_KeyInternal: the end of the type and its encoding. */
  method EncodeType(h: HashTable, s: string, from: nat, ghost f: FieldType) returns (end: nat, to: Option<seq<nat>>)
    requires h.Valid() && GoodType(f) && from + |Text(f)| <= |s|
    requires s[from..from + |Text(f)|] == Text(f)
    modifies h`buckets, h`table
    ensures end == from + |Text(f)|
    ensures to.Some? ==>
              h.Valid() && Extends(old(h.table), h.table) && Knows(h.table, f) && to.value == Encoded(h.table, f)
    ensures to.None? ==> IsStopped(h.buckets, f)
  {
    hide Holds, Filled, HasElements, Extends, HasFullBucket;
    ExtendsItself(h.table);
    end := EndOfType(s, from, f);
    assert s[from] == s[from..from + |Text(f)|][0] == Text(f)[0];
    if end == from + 1 {
      return end, Some([s[from] as int]);
    }
    var key := FieldSignatureToKey(h, s[from..end], f);
    if key.None? {
      return end, None;
    }
    var tag := if IsLetter(key.value / 256) then [TAG_L] else [];
    return end, Some(tag + [key.value / 256, key.value % 256]);
  }

  /** What follows in a signature after n arguments. */
  function Remaining(args: seq<FieldType>, n: nat, result: FieldType, extra: string): string
    requires n <= |args|
  {
    TextAll(args[n..]) + (")" + (Text(result) + extra))
  }

  lemma NextArgument(args: seq<FieldType>, n: nat, result: FieldType, extra: string)
    requires n <= |args| && forall f | f in args :: GoodType(f)
    ensures |Remaining(args, n, result, extra)| > 0
    ensures n == |args| <==> Remaining(args, n, result, extra)[0] == ')'
    ensures n == |args| ==> Remaining(args, n, result, extra) == ")" + (Text(result) + extra)
    ensures n < |args| ==> Remaining(args, n, result, extra) == Text(args[n]) + Remaining(args, n + 1, result, extra)
  {
    hide Text, GoodType;
    if n == |args| {
      assert args[n..] == [];
    } else {
      assert args[n] in args && args[n..][1..] == args[n + 1..];
      FirstCharacter(args[n]);
    }
  }

  /** The virtual machine stops when it runs out of keys, and refuses text behind the result type. */
  datatype Coding = Coded(bytes: seq<nat>) | Malformed | Stopped

  /** change_MethodSignature_to_Key, up to the encoded signature. */
  method EncodeSignature(h: HashTable, s: string, ghost args: seq<FieldType>, ghost result: FieldType,
                         ghost extra: string)
      returns (r: Coding)
    requires h.Valid() && GoodType(result) && s == SignatureText(args, result) + extra
    requires forall f | f in args :: GoodType(f)
    modifies h`buckets, h`table
    ensures !r.Stopped? ==> h.Valid() && Extends(old(h.table), h.table) && KnowsAll(h.table, args + [result])
    ensures !r.Stopped? ==>
              && KnowsAll(h.table, args) && Knows(h.table, result)
              && r == if extra == "" then Coded(Encoding(h.table, args, result)) else Malformed
    ensures r.Stopped? ==> exists f | f in args + [result] :: IsStopped(h.buckets, f)
  {
    hide Text, Encoded, Remaining, Holds, Filled, HasElements, Extends, IsStopped, GoodType, Knows;
    ghost var t0 := h.table;
    ExtendsItself(t0);
    var from: nat, to, argCount := 1, [], 0;
    AfterParenthesis(s, args, result, extra);
    NextArgument(args, 0, result, extra);
    while s[from] != ')'
      invariant 0 <= argCount <= |args| && from < |s| && s[from..] == Remaining(args, argCount, result, extra)
      invariant h.Valid() && Extends(t0, h.table)
      invariant KnowsAll(h.table, args[..argCount]) && to == EncodedAll(h.table, args[..argCount])
      decreases |args| - argCount
    {
      NextArgument(args, argCount, result, extra);
      assert s[from] == s[from..][0];
      ghost var f, t := args[argCount], h.table;
      assert f in args && f in args + [result];
      PieceAt(s, from, Text(f), Remaining(args, argCount + 1, result, extra));
      var end, bytes := EncodeType(h, s, from, f);
      if bytes.None? {
        return Stopped;
      }
      ExtendsTwice(t0, t, h.table);
      EncodedOneMore(t, h.table, args, argCount);
      NextArgument(args, argCount + 1, result, extra);
      from, to, argCount := end, to + bytes.value, argCount + 1;
    }
    NextArgument(args, argCount, result, extra);
    assert s[from] == s[from..][0] && args[..argCount] == args;
    from := from + 1;
    PieceAt(s, from - 1, ")", Text(result) + extra);
    PieceAt(s, from, Text(result), extra);
    ghost var t := h.table;
    assert result in args + [result];
    var end, bytes := EncodeType(h, s, from, result);
    if bytes.None? {
      return Stopped;
    }
    ExtendsTwice(t0, t, h.table);
    EncodedAllLater(t, h.table, args);
    KnowsAllWith(h.table, args, result);
    if end != |s| {
      return Malformed;
    }
    return Coded([argCount % 256] + to + bytes.value);
  }

  lemma PieceAt(s: string, from: nat, piece: string, rest: string)
    requires from <= |s| && s[from..] == piece + rest
    ensures from + |piece| <= |s| && s[from..from + |piece|] == piece && s[from + |piece|..] == rest
  {
    assert s[from..from + |piece|] == s[from..][..|piece|];
    assert s[from + |piece|..] == s[from..][|piece|..];
  }

  lemma EncodedOneMore(t: ClassTable, t': ClassTable, args: seq<FieldType>, n: nat)
    requires n < |args| && Extends(t, t') && KnowsAll(t, args[..n]) && GoodType(args[n]) && Knows(t', args[n])
    ensures KnowsAll(t', args[..n + 1])
    ensures EncodedAll(t', args[..n + 1]) == EncodedAll(t, args[..n]) + Encoded(t', args[n])
  {
    EncodedAllLater(t, t', args[..n]);
    EncodedAppends(t', args[..n], args[n]);
    assert args[..n] + [args[n]] == args[..n + 1];
  }

  lemma KnowsAllWith(t: ClassTable, args: seq<FieldType>, result: FieldType)
    requires KnowsAll(t, args) && GoodType(result) && Knows(t, result)
    ensures KnowsAll(t, args + [result])
  {
  }

  lemma AfterParenthesis(s: string, args: seq<FieldType>, result: FieldType, extra: string)
    requires s == SignatureText(args, result) + extra
    ensures |s| > 1 && s[1..] == Remaining(args, 0, result, extra)
  {
    hide Text;
    assert args[0..] == args;
  }

  /** change_Key_to_FieldSignature_inBuffer */
  method KeyToFieldSignature(h: HashTable, key: nat) returns (to: string)
    requires h.Valid() && key < 0x1_0000
    ensures to == KeyText(h.table, key)
  {
    var depth, baseClassKey := key / FIELD_KEY_ARRAY_UNIT, key % FIELD_KEY_ARRAY_UNIT;
    if depth == MAX_FIELD_KEY_ARRAY_DEPTH {
      var c := h.FindKey(key);
      return if c.Some? then PrintedName(c.value) else "";
    } else if baseClassKey <= 255 {
      return Brackets(depth) + [baseClassKey as char];
    } else {
      var c := h.FindKey(baseClassKey);
      return Brackets(depth) + ("L" + (if c.Some? then PrintedName(c.value) else "") + ";");
    }
  }

  /** change_Key_to_MethodSignatureInternal */
  method DecodeType(h: HashTable, bytes: seq<nat>, from: nat) returns (next: nat, to: string)
    requires h.Valid() && from < |bytes| && forall i | 0 <= i < |bytes| :: bytes[i] < 256
    requires (IsLetter(bytes[from]) && bytes[from] != TAG_L) || from + (if bytes[from] == TAG_L then 2 else 1) < |bytes|
    ensures next <= |bytes| && DecodedOne(h.table, bytes[from..]) == (to, bytes[next..])
  {
    hide KeyText, Holds, Filled, HasElements;
    var tag := bytes[from];
    next := from + 1;
    if IsLetter(tag) && tag != TAG_L {
      to := [tag as char];
    } else {
      if tag == TAG_L {
        tag := bytes[next];
        next := next + 1;
      }
      to := KeyToFieldSignature(h, tag * 256 + bytes[next]);
      next := next + 1;
    }
  }

  /** The encoding of the types from the n-th argument on. */
  function RemainingBytes(t: ClassTable, args: seq<FieldType>, n: nat, result: FieldType): seq<nat>
    requires KnowsAll(t, args) && GoodType(result) && Knows(t, result) && n <= |args|
  {
    EncodedAll(t, args[n..]) + Encoded(t, result)
  }

  lemma NextEncodedArgument(t: ClassTable, args: seq<FieldType>, n: nat, result: FieldType)
    requires KnowsAll(t, args) && GoodType(result) && Knows(t, result) && n < |args|
    ensures RemainingBytes(t, args, n, result) == Encoded(t, args[n]) + RemainingBytes(t, args, n + 1, result)
  {
    assert args[n..][1..] == args[n + 1..];
  }

  lemma EncodedIsComplete(t: ClassTable, f: FieldType, bytes: seq<nat>, from: nat, rest: seq<nat>)
    requires GoodTable(t) && GoodType(f) && Knows(t, f) && from <= |bytes| && bytes[from..] == Encoded(t, f) + rest
    ensures from < |bytes| && |bytes| - from == |Encoded(t, f)| + |rest|
    ensures (IsLetter(bytes[from]) && bytes[from] != TAG_L) || from + (if bytes[from] == TAG_L then 2 else 1) < |bytes|
    ensures DecodedOne(t, bytes[from..]) == (Text(f), rest)
  {
    DecodeOne(t, f, rest);
    assert bytes[from] == bytes[from..][0];
  }

  lemma EncodedBytes(t: ClassTable, f: FieldType)
    requires GoodTable(t) && GoodType(f) && Knows(t, f)
    ensures forall b | b in Encoded(t, f) :: b < 256
  {
    hide GoodTable, FieldKey;
    if !IsShort(f) {
      FieldKeyRange(t, f);
    }
  }

  lemma {:induction false} EncodedAllBytes(t: ClassTable, types: seq<FieldType>)
    requires GoodTable(t) && KnowsAll(t, types)
    ensures forall b | b in EncodedAll(t, types) :: b < 256
  {
    hide GoodTable, Encoded, GoodType, Knows;
    if types != [] {
      EncodedBytes(t, types[0]);
      EncodedAllBytes(t, types[1..]);
    }
  }

  lemma EncodingBytes(t: ClassTable, args: seq<FieldType>, result: FieldType)
    requires GoodTable(t) && KnowsAll(t, args) && GoodType(result) && Knows(t, result)
    ensures forall b | b in Encoding(t, args, result) :: b < 256
  {
    hide GoodTable, Encoded, EncodedAll, GoodType, Knows;
    EncodedAllBytes(t, args);
    EncodedBytes(t, result);
  }

  /** There is another type to be decoded: the next argument or the result. */
  lemma NextIsComplete(t: ClassTable, args: seq<FieldType>, n: nat, result: FieldType, bytes: seq<nat>, from: nat)
    requires GoodTable(t) && KnowsAll(t, args) && GoodType(result) && Knows(t, result) && n <= |args|
    requires from <= |bytes| && bytes[from..] == RemainingBytes(t, args, n, result)
    ensures from < |bytes|
    ensures (IsLetter(bytes[from]) && bytes[from] != TAG_L) || from + (if bytes[from] == TAG_L then 2 else 1) < |bytes|
    ensures n < |args| ==> DecodedOne(t, bytes[from..]).1 == RemainingBytes(t, args, n + 1, result)
  {
    hide GoodTable, Encoded, DecodedOne, Text, GoodType, Knows;
    if n < |args| {
      assert args[n] in args;
      NextEncodedArgument(t, args, n, result);
      EncodedIsComplete(t, args[n], bytes, from, RemainingBytes(t, args, n + 1, result));
    } else {
      assert args[n..] == [];
      assert bytes[from..] == Encoded(t, result) + [];
      EncodedIsComplete(t, result, bytes, from, []);
    }
  }

  /** change_Key_to_MethodSignature_inBuffer, for the encoding of any signature. */
  method DecodeSignature(h: HashTable, bytes: seq<nat>, ghost args: seq<FieldType>,
                         ghost result: FieldType) returns (to: string)
    requires h.Valid() && KnowsAll(h.table, args) && GoodType(result) && Knows(h.table, result)
    requires bytes == Encoding(h.table, args, result)
    ensures to == Decoded(h.table, bytes)
    ensures to == SignatureText(args, result) <==> |args| <= 255
  {
    hide Encoded, EncodedAll, DecodedOne, Holds, Filled, HasElements, GoodType, Knows, GoodTable, SignatureText;
    ValidIsGood(h);
    SurvivesIff(h.table, args, result);
    EncodingBytes(h.table, args, result);
    assert forall i | 0 <= i < |bytes| :: bytes[i] in bytes;
    var argCount: nat, from: nat := bytes[0], 1;
    to := "(";
    ghost var n: nat := 0;
    ghost var all := DecodedMany(h.table, bytes[1..], argCount);
    assert bytes[1..] == RemainingBytes(h.table, args, 0, result) by {
      assert args[0..] == args;
    }
    while argCount > 0
      invariant argCount + n <= |args| && from <= |bytes|
      invariant bytes[from..] == RemainingBytes(h.table, args, n, result)
      invariant to + DecodedMany(h.table, bytes[from..], argCount).0 == "(" + all.0
      invariant DecodedMany(h.table, bytes[from..], argCount).1 == all.1
      decreases argCount
    {
      NextIsComplete(h.table, args, n, result, bytes, from);
      var text;
      from, text := DecodeType(h, bytes, from);
      to := to + text;
      argCount, n := argCount - 1, n + 1;
    }
    NextIsComplete(h.table, args, n, result, bytes, from);
    var text;
    from, text := DecodeType(h, bytes, from);
    assert to == "(" + all.0;
    to := to + ")" + text;
  }

  lemma ValidIsGood(h: HashTable)
    requires h.Valid()
    ensures GoodTable(h.table)
  {
  }

  /** change_MethodSignature_to_Key: the key of the encoding in the table of names. */
  method MethodSignatureToKey(h: HashTable, names: NameTable.UTFStringTable, s: string, ghost args: seq<FieldType>,
                              ghost result: FieldType) returns (key: Option<nat>)
    requires h.Valid() && names.Valid() && GoodType(result) && s == SignatureText(args, result)
    requires forall f | f in args :: GoodType(f)
    modifies h`buckets, h`table, names`buckets, names`keys
    ensures key.Some? ==>
              && h.Valid() && names.Valid() && Extends(old(h.table), h.table)
              && KnowsAll(h.table, args) && Knows(h.table, result)
              && IsKeyOfSignature(names.keys, h.table, args, result, key.value)
              && forall name | name in old(names.keys) ::
                   name in names.keys && names.keys[name] == old(names.keys[name])
  {
    hide Holds, Filled, HasElements, Extends, IsStopped, GoodType, Knows, NameTable.Holds, Encoding, SignatureText;
    assert s == s + "";
    var r := EncodeSignature(h, s, args, result, "");
    if r.Stopped? {
      return None;
    }
    key := names.ChangeNameToKey(r.bytes);
  }

  ghost predicate IsKeyOfSignature(keys: map<seq<nat>, nat>, t: ClassTable, args: seq<FieldType>, result: FieldType,
                                   key: nat)
    requires KnowsAll(t, args) && GoodType(result) && Knows(t, result)
  {
    Encoding(t, args, result) in keys && keys[Encoding(t, args, result)] == key
  }

  /** change_Key_to_MethodSignature: whatever has been named since then, the key of a signature is printed as it was. */
  method KeyToMethodSignature(h: HashTable, names: NameTable.UTFStringTable, key: nat, ghost t: ClassTable,
                              ghost args: seq<FieldType>, ghost result: FieldType) returns (to: string)
    requires h.Valid() && names.Valid() && Extends(t, h.table)
    requires KnowsAll(t, args) && GoodType(result) && Knows(t, result)
    requires IsKeyOfSignature(names.keys, t, args, result, key)
    ensures to == SignatureText(args, result) <==> |args| <= 255
  {
    hide Encoding, GoodType, Knows, Extends, NameTable.Holds, Decoded;
    ValidIsGood(h);
    SurvivesLater(t, h.table, args, result);
    var bytes := names.ChangeKeyToName(key);
    assert key in names.keys.Values;
    NameTable.KeysDiffer(names.buckets, names.keys, names.hash, bytes.value, Encoding(t, args, result));
    to := DecodeSignature(h, bytes.value, args, result);
  }

  /** A key stands for one signature. */
  lemma SignatureKeysDiffer(names: NameTable.UTFStringTable, t: ClassTable, args: seq<FieldType>, result: FieldType,
                            args': seq<FieldType>, result': FieldType, key: nat)
    requires names.Valid() && GoodTable(t) && KnowsAll(t, args) && KnowsAll(t, args')
    requires GoodType(result) && Knows(t, result) && GoodType(result') && Knows(t, result')
    requires IsKeyOfSignature(names.keys, t, args, result, key)
    requires IsKeyOfSignature(names.keys, t, args', result', key)
    ensures SignatureText(args, result) == SignatureText(args', result')
  {
    hide Encoding, SignatureText, GoodTable, GoodType, Knows, NameTable.Holds;
    NameTable.KeysDiffer(names.buckets, names.keys, names.hash,
                         Encoding(t, args, result), Encoding(t, args', result'));
    if SignatureText(args, result) != SignatureText(args', result') {
      EncodingInjective(t, args, result, args', result');
    }
  }
}
