/** The encoding of whole method signatures and back (fields.c), with the loops that parse and print them. */
module MethodSignatures {

  import opened Signatures

  predicate IsLetter(tag: nat) {
    'A' as int <= tag <= 'Z' as int
  }

  const TAG_L: nat := 'L' as int

  function TextAll(types: seq<FieldType>): string {
    if types == [] then "" else Text(types[0]) + TextAll(types[1..])
  }

  function SignatureText(args: seq<FieldType>, result: FieldType): string {
    "(" + TextAll(args) + ")" + Text(result)
  }

  predicate IsShort(f: FieldType) {
    f.depth == 0 && f.base.Primitive?
  }

  /** One to three bytes; keys whose high byte could be taken for a letter are marked with an L. */
  function Encoded(t: ClassTable, f: FieldType): seq<nat>
    requires Knows(t, f)
  {
    if IsShort(f) then [f.base.code as int]
    else
      var key := FieldKey(t, f);
      (if IsLetter(key / 256) then [TAG_L] else []) + [key / 256, key % 256]
  }

  predicate KnowsAll(t: ClassTable, types: seq<FieldType>) {
    forall f | f in types :: GoodType(f) && Knows(t, f)
  }

  function EncodedAll(t: ClassTable, types: seq<FieldType>): seq<nat>
    requires KnowsAll(t, types)
  {
    if types == [] then [] else Encoded(t, types[0]) + EncodedAll(t, types[1..])
  }

  /** The encoded signature; the first byte is the number of arguments. */
  function Encoding(t: ClassTable, args: seq<FieldType>, result: FieldType): seq<nat>
    requires KnowsAll(t, args) && GoodType(result) && Knows(t, result)
  {
    [|args| % 256] + EncodedAll(t, args) + Encoded(t, result)
  }

  /** change_Key_to_MethodSignatureInternal: the text of the first type, and the bytes after it. */
  function DecodedOne(t: ClassTable, from: seq<nat>): (string, seq<nat>) {
    if |from| > 0 && IsLetter(from[0]) && from[0] != TAG_L then ([from[0] as char], from[1..])
    else if |from| > 2 && from[0] == TAG_L then (KeyText(t, from[1] * 256 + from[2]), from[3..])
    else if |from| > 1 then (KeyText(t, from[0] * 256 + from[1]), from[2..])
    else ("", [])
  }

  function DecodedMany(t: ClassTable, from: seq<nat>, n: nat): (string, seq<nat>)
    decreases n
  {
    if n == 0 then ("", from)
    else
      var (text, rest) := DecodedOne(t, from);
      var (texts, rest') := DecodedMany(t, rest, n - 1);
      (text + texts, rest')
  }

  function Decoded(t: ClassTable, from: seq<nat>): string {
    if from == [] then ""
    else
      var (args, rest) := DecodedMany(t, from[1..], from[0]);
      "(" + args + ")" + DecodedOne(t, rest).0
  }

  lemma DecodeShort(t: ClassTable, f: FieldType, rest: seq<nat>)
    requires GoodType(f) && Knows(t, f) && IsShort(f)
    ensures DecodedOne(t, Encoded(t, f) + rest) == (Text(f), rest)
  {
    hide KeyText, FieldKey;
    var bytes := Encoded(t, f) + rest;
    assert bytes[1..] == rest;
    assert Text(f) == [f.base.code];
  }

  lemma DecodeKey(t: ClassTable, key: nat, rest: seq<nat>)
    requires 256 <= key < 0x1_0000
    ensures DecodedOne(t,
                       (if IsLetter(key / 256) then [TAG_L]
                        else []) + [key / 256, key % 256] + rest) == (KeyText(t, key), rest)
  {
    hide KeyText;
    assert key / 256 * 256 + key % 256 == key;
    if IsLetter(key / 256) {
      var bytes := [TAG_L] + [key / 256, key % 256] + rest;
      assert bytes[3..] == rest;
    } else {
      var bytes := [] + [key / 256, key % 256] + rest;
      assert bytes[2..] == rest;
    }
  }

  lemma DecodeOne(t: ClassTable, f: FieldType, rest: seq<nat>)
    requires GoodTable(t) && GoodType(f) && Knows(t, f)
    ensures DecodedOne(t, Encoded(t, f) + rest) == (Text(f), rest)
  {
    hide KeyText, FieldKey, Text, DecodedOne, GoodTable, GoodType, Knows;
    if IsShort(f) {
      DecodeShort(t, f, rest);
    } else {
      FieldKeyRange(t, f);
      FieldKeyRoundTrip(t, f);
      DecodeKey(t, FieldKey(t, f), rest);
    }
  }

  /** The first n types are decoded, whatever follows them. */
  lemma {:induction false} DecodeMany(t: ClassTable, types: seq<FieldType>, n: nat, rest: seq<nat>)
    requires GoodTable(t) && KnowsAll(t, types) && n <= |types|
    ensures DecodedMany(t, EncodedAll(t, types) + rest, n) == (TextAll(types[..n]), EncodedAll(t, types[n..]) + rest)
    decreases n
  {
    hide DecodedOne, Encoded, Text, GoodTable, GoodType, Knows;
    if n == 0 {
      assert types[0..] == types && types[..0] == [];
    } else {
      var first, others := types[0], types[1..];
      assert EncodedAll(t, types) + rest == Encoded(t, first) + (EncodedAll(t, others) + rest);
      DecodeOne(t, first, EncodedAll(t, others) + rest);
      DecodeMany(t, others, n - 1, rest);
      assert types[..n][1..] == others[..n - 1] && types[n..] == others[n - 1..];
    }
  }

  /** With at most 255 arguments, decoding prints the signature. */
  lemma DecodeEncoding(t: ClassTable, args: seq<FieldType>, result: FieldType)
    requires GoodTable(t) && KnowsAll(t, args) && GoodType(result) && Knows(t, result) && |args| < 256
    ensures Decoded(t, Encoding(t, args, result)) == SignatureText(args, result)
  {
    hide DecodedOne, Encoded, Text;
    var bytes := Encoding(t, args, result);
    assert bytes[1..] == EncodedAll(t, args) + Encoded(t, result);
    DecodeMany(t, args, |args|, Encoded(t, result));
    assert args[..|args|] == args && args[|args|..] == [];
    assert EncodedAll(t, []) + Encoded(t, result) == Encoded(t, result) + [];
    DecodeOne(t, result, []);
  }

  lemma EncodedFrom(t: ClassTable, args: seq<FieldType>, n: nat, rest: seq<nat>)
    requires KnowsAll(t, args) && n < |args|
    ensures EncodedAll(t, args[n..]) + rest == Encoded(t, args[n]) + (EncodedAll(t, args[n + 1..]) + rest)
  {
    hide Encoded;
    assert args[n..][1..] == args[n + 1..];
  }

  /** What is printed for n of the arguments, if there are more. */
  lemma DecodePrefix(t: ClassTable, args: seq<FieldType>, result: FieldType, n: nat)
    requires GoodTable(t) && KnowsAll(t, args) && GoodType(result) && Knows(t, result) && n < |args|
    ensures Decoded(t, [n] + EncodedAll(t, args) + Encoded(t, result)) == "(" + TextAll(args[..n]) + ")" + Text(args[n])
  {
    hide DecodedOne, DecodedMany, Encoded, EncodedAll, Text, TextAll, GoodTable, GoodType, Knows;
    var bytes := [n] + EncodedAll(t, args) + Encoded(t, result);
    assert bytes[1..] == EncodedAll(t, args) + Encoded(t, result);
    DecodeMany(t, args, n, Encoded(t, result));
    assert args[n] in args;
    EncodedFrom(t, args, n, Encoded(t, result));
    DecodeOne(t, args[n], EncodedAll(t, args[n + 1..]) + Encoded(t, result));
  }

  lemma FirstCharacter(f: FieldType)
    requires GoodType(f)
    ensures |Text(f)| > 0 && Text(f)[0] != ')'
  {
  }

  /** With more than 255 arguments their number does not fit into a byte, and something else is printed. */
  lemma DecodeTooLong(t: ClassTable, args: seq<FieldType>, result: FieldType)
    requires GoodTable(t) && KnowsAll(t, args) && GoodType(result) && Knows(t, result) && |args| >= 256
    ensures Decoded(t, Encoding(t, args, result)) != SignatureText(args, result)
  {
    hide Decoded, DecodedOne, Encoded, EncodedAll, TextAll;
    var n := |args| % 256;
    DecodePrefix(t, args, result, n);
    TextAllAppends(args, n);
    var at := 1 + |TextAll(args[..n])|;
    assert ("(" + TextAll(args[..n]) + ")" + Text(args[n]))[at] == ')';
    assert args[n] in args;
    FirstCharacter(args[n]);
    assert SignatureText(args, result)[at] == Text(args[n])[0] != ')';
  }

  lemma {:induction false} TextAllAppends(types: seq<FieldType>, n: nat)
    requires n < |types|
    ensures TextAll(types) == TextAll(types[..n]) + (Text(types[n]) + TextAll(types[n + 1..]))
    decreases n
  {
    hide Text;
    if n == 0 {
      assert types[..0] == [];
    } else {
      TextAllAppends(types[1..], n - 1);
      assert types[1..][..n - 1] == types[..n][1..] && types[1..][n..] == types[n + 1..];
    }
  }

  /** A signature survives encoding exactly if it has at most 255 arguments. */
  lemma SurvivesIff(t: ClassTable, args: seq<FieldType>, result: FieldType)
    requires GoodTable(t) && KnowsAll(t, args) && GoodType(result) && Knows(t, result)
    ensures Decoded(t, Encoding(t, args, result)) == SignatureText(args, result) <==> |args| <= 255
  {
    if |args| < 256 {
      DecodeEncoding(t, args, result);
    } else {
      DecodeTooLong(t, args, result);
    }
  }

  lemma {:induction false} EncodedAppends(t: ClassTable, args: seq<FieldType>, f: FieldType)
    requires KnowsAll(t, args) && GoodType(f) && Knows(t, f)
    ensures KnowsAll(t, args + [f]) && EncodedAll(t, args + [f]) == EncodedAll(t, args) + Encoded(t, f)
  {
    hide Encoded, Knows, GoodType;
    if args == [] {
      assert args + [f] == [f] && [f][1..] == [];
    } else {
      EncodedAppends(t, args[1..], f);
      assert (args + [f])[1..] == args[1..] + [f];
    }
  }

  /** Each type is encoded so that its end can be told: equal encodings are those of the same types. */
  lemma {:induction false} EqualEncodings(t: ClassTable, a: seq<FieldType>, b: seq<FieldType>)
    requires GoodTable(t) && KnowsAll(t, a) && KnowsAll(t, b) && EncodedAll(t, a) == EncodedAll(t, b)
    ensures |a| == |b| && forall i | 0 <= i < |a| :: Text(a[i]) == Text(b[i])
  {
    hide Encoded, DecodedOne, Text, GoodTable, GoodType, Knows;
    if a != [] && b != [] {
      DecodeOne(t, a[0], EncodedAll(t, a[1..]));
      DecodeOne(t, b[0], EncodedAll(t, b[1..]));
      EqualEncodings(t, a[1..], b[1..]);
      assert forall i | 0 < i < |a| :: a[i] == a[1..][i - 1] && b[i] == b[1..][i - 1];
    } else if a != [] {
      EncodedIsNotEmpty(t, a[0]);
    } else if b != [] {
      EncodedIsNotEmpty(t, b[0]);
    }
  }

  lemma EncodedIsNotEmpty(t: ClassTable, f: FieldType)
    requires Knows(t, f)
    ensures |Encoded(t, f)| > 0
  {
  }

  lemma {:induction false} EqualTexts(a: seq<FieldType>, b: seq<FieldType>)
    requires |a| == |b| && forall i | 0 <= i < |a| :: Text(a[i]) == Text(b[i])
    ensures TextAll(a) == TextAll(b)
  {
    hide Text;
    if a != [] {
      EqualTexts(a[1..], b[1..]);
    }
  }

  /** Different signatures have different encodings, whatever their numbers of arguments. */
  lemma EncodingInjective(t: ClassTable, args: seq<FieldType>, result: FieldType, args': seq<FieldType>,
                          result': FieldType)
    requires GoodTable(t) && KnowsAll(t, args) && KnowsAll(t, args')
    requires GoodType(result) && Knows(t, result) && GoodType(result') && Knows(t, result')
    requires SignatureText(args, result) != SignatureText(args', result')
    ensures Encoding(t, args, result) != Encoding(t, args', result')
  {
    hide Encoded, EncodedAll, Text, TextAll, GoodTable, GoodType, Knows, KnowsAll;
    if Encoding(t, args, result) == Encoding(t, args', result') {
      EncodedAppends(t, args, result);
      EncodedAppends(t, args', result');
      assert EncodedAll(t, args + [result]) == Encoding(t, args, result)[1..];
      assert EncodedAll(t, args' + [result']) == Encoding(t, args', result')[1..];
      EqualEncodings(t, args + [result], args' + [result']);
      SameArguments(args, result, args', result');
    }
  }

  lemma SameArguments(args: seq<FieldType>, result: FieldType, args': seq<FieldType>, result': FieldType)
    requires |args| == |args'|
    requires forall i | 0 <= i < |args + [result]| :: Text((args + [result])[i]) == Text((args' + [result'])[i])
    ensures SignatureText(args, result) == SignatureText(args', result')
  {
    hide Text;
    assert (args + [result])[|args|] == result && (args' + [result'])[|args|] == result';
    assert forall i | 0 <= i < |args| :: (args + [result])[i] == args[i] && (args' + [result'])[i] == args'[i];
    EqualTexts(args, args');
  }

  lemma EncodedLater(t: ClassTable, t': ClassTable, f: FieldType)
    requires Extends(t, t') && Knows(t, f)
    ensures Knows(t', f) && Encoded(t', f) == Encoded(t, f)
  {
  }

  lemma {:induction false} EncodedAllLater(t: ClassTable, t': ClassTable, types: seq<FieldType>)
    requires Extends(t, t') && KnowsAll(t, types)
    ensures KnowsAll(t', types) && EncodedAll(t', types) == EncodedAll(t, types)
  {
    hide Encoded, Extends, Knows, GoodType;
    forall f | f in types
      ensures Knows(t', f)
    {
      EncodedLater(t, t', f);
    }
    if types != [] {
      EncodedLater(t, t', types[0]);
      EncodedAllLater(t, t', types[1..]);
    }
  }

  /** The encoding does not change when more classes get keys, and it can still be printed. */
  lemma SurvivesLater(t: ClassTable, t': ClassTable, args: seq<FieldType>, result: FieldType)
    requires GoodTable(t') && Extends(t, t') && KnowsAll(t, args) && GoodType(result) && Knows(t, result)
    ensures KnowsAll(t', args) && Knows(t', result) && Encoding(t', args, result) == Encoding(t, args, result)
    ensures Decoded(t', Encoding(t, args, result)) == SignatureText(args, result) <==> |args| <= 255
  {
    hide Encoded, EncodedAll, Decoded, Text, GoodType, Knows;
    EncodedAllLater(t, t', args);
    EncodedLater(t, t', result);
    SurvivesIff(t', args, result);
  }

  /** 256 arguments of type int are printed as none, and the first of them as the result. */
  lemma TooManyArguments(t: ClassTable)
    requires GoodTable(t)
    ensures var int_ := FieldType(0, Primitive('I'));
            var args, result := seq(256, _ => int_), FieldType(0, Primitive('V'));
            Decoded(t, Encoding(t, args, result)) == "()I" && |SignatureText(args, result)| == 259
  {
    hide Decoded, GoodTable;
    var int_ := FieldType(0, Primitive('I'));
    var args, result := seq(256, _ => int_), FieldType(0, Primitive('V'));
    DecodePrefix(t, args, result, 0);
    assert args[..0] == [];
    LengthOfShort(args);
  }

  lemma {:induction false} LengthOfShort(types: seq<FieldType>)
    requires forall f | f in types :: IsShort(f)
    ensures |TextAll(types)| == |types|
  {
    if types != [] {
      assert types[0] in types && |Text(types[0])| == 1;
      LengthOfShort(types[1..]);
    }
  }
}
