/** The hash table that gives classes their keys (hashtable.c), and the creation of array classes in it (class.c). */
module ClassHashTable {

  import opened Options
  import opened Signatures

  const CLASS_TABLE_SIZE := 32
  const ITEM_NEW_OBJECT_FLAG := 0x1000

  /** A class in its bucket; the class of an array class is set when it has been filled in. */
  datatype Entry = Entry(name: ClassName, key: nat, hasClass: bool)

  /** Not the key of an array of depth 1 to 6. */
  predicate IsOwn(key: nat) {
    key / FIELD_KEY_ARRAY_UNIT == 0 || key / FIELD_KEY_ARRAY_UNIT == MAX_FIELD_KEY_ARRAY_DEPTH
  }

  function Low(key: nat): nat {
    key % FIELD_KEY_ARRAY_UNIT
  }

  predicate IsArray(c: ClassName) {
    CountBrackets(c.baseName) > 0
  }

  function ElementName(c: ClassName): ClassName
    requires IsArray(c)
  {
    ClassName(c.packageName, c.baseName[1..])
  }

  /** An own key tells the bucket and leads to the class. */
  ghost predicate GoodEntry(e: Entry, i: nat, t: ClassTable, hash: ClassName -> nat) {
    && hash(e.name) % CLASS_TABLE_SIZE == i && e.name in t.keys && t.keys[e.name] == e.key
    && (IsOwn(e.key) ==>
          && 256 <= Low(e.key) < ITEM_NEW_OBJECT_FLAG && Low(e.key) % CLASS_TABLE_SIZE == i
          && e.key in t.classes && t.classes[e.key] == e.name)
  }

  /** Own keys go down from the most recent class, which is the first one. */
  ghost predicate Descending(bucket: seq<Entry>) {
    forall j, k | 0 <= j < k < |bucket| && IsOwn(bucket[j].key) && IsOwn(bucket[k].key) ::
      Low(bucket[j].key) > Low(bucket[k].key)
  }

  ghost predicate Distinct(bucket: seq<Entry>) {
    forall j, k | 0 <= j < k < |bucket| :: bucket[j].name != bucket[k].name
  }

  ghost predicate GoodBucket(bucket: seq<Entry>, i: nat, t: ClassTable, hash: ClassName -> nat) {
    (forall e | e in bucket :: GoodEntry(e, i, t, hash)) && Distinct(bucket) && Descending(bucket)
  }

  ghost predicate Listed(buckets: seq<seq<Entry>>, c: ClassName, hash: ClassName -> nat)
    requires |buckets| == CLASS_TABLE_SIZE
  {
    exists e | e in buckets[hash(c) % CLASS_TABLE_SIZE] :: e.name == c
  }

  /** The table is the contents of the buckets. */
  ghost predicate Holds(buckets: seq<seq<Entry>>, t: ClassTable, hash: ClassName -> nat) {
    && |buckets| == CLASS_TABLE_SIZE
    && (forall i | 0 <= i < CLASS_TABLE_SIZE :: GoodBucket(buckets[i], i, t, hash))
    && (forall c | c in t.keys :: Listed(buckets, c, hash))
    && (forall key | key in t.classes ::
          IsOwn(key) && t.classes[key] in t.keys && t.keys[t.classes[key]] == key)
  }

  /** Every array class but this one has been filled in and has its final key. */
  ghost predicate Filled(buckets: seq<seq<Entry>>, t: ClassTable, pending: Option<ClassName>) {
    && (forall bucket, e | bucket in buckets && e in bucket && IsArray(e.name) && pending != Some(e.name) ::
          e.hasClass)
    && (forall c | c in t.keys && pending != Some(c) :: GoodClass(t, c))
  }

  /** For every array class but this one, the class of its elements is there. */
  ghost predicate HasElements(t: ClassTable, pending: Option<ClassName>) {
    forall c | c in t.keys && pending != Some(c) && CountBrackets(c.baseName) > 1 :: ElementName(c) in t.keys
  }

  /** The largest own key of the bucket leaves no room for another one. */
  ghost predicate IsFull(bucket: seq<Entry>) {
    exists e | e in bucket :: IsOwn(e.key) && Low(e.key) + CLASS_TABLE_SIZE >= ITEM_NEW_OBJECT_FLAG
  }

  /** The table with a class that has just been put at the front of its bucket. */
  function WithClass(t: ClassTable, c: ClassName, key: nat): ClassTable {
    ClassTable(t.keys[c := key], t.classes[key := c])
  }

  lemma EntryOfClass(buckets: seq<seq<Entry>>, t: ClassTable, hash: ClassName -> nat, c: ClassName) returns (e: Entry)
    requires Holds(buckets, t, hash) && c in t.keys
    ensures e in buckets[hash(c) % CLASS_TABLE_SIZE] && e.name == c && e.key == t.keys[c]
  {
    assert Listed(buckets, c, hash);
    e :| e in buckets[hash(c) % CLASS_TABLE_SIZE] && e.name == c;
    assert GoodEntry(e, hash(c) % CLASS_TABLE_SIZE, t, hash);
  }

  /** A class that has a key of its own is in the bucket that the key tells. */
  lemma EntryOfKey(buckets: seq<seq<Entry>>, t: ClassTable, hash: ClassName -> nat, key: nat) returns (e: Entry)
    requires Holds(buckets, t, hash) && key in t.classes
    ensures e in buckets[Low(key) % CLASS_TABLE_SIZE] && e.name == t.classes[key] && e.key == key
  {
    e := EntryOfClass(buckets, t, hash, t.classes[key]);
    assert GoodEntry(e, hash(e.name) % CLASS_TABLE_SIZE, t, hash);
  }

  lemma BucketAfterInsertion(bucket: seq<Entry>, i: nat, t: ClassTable, hash: ClassName -> nat, c: ClassName, key: nat)
    requires GoodBucket(bucket, i, t, hash) && c !in t.keys && key !in t.classes
    ensures GoodBucket(bucket, i, WithClass(t, c, key), hash)
  {
    forall e | e in bucket
      ensures GoodEntry(e, i, WithClass(t, c, key), hash)
    {
      assert GoodEntry(e, i, t, hash);
    }
  }

  lemma BucketWithClass(bucket: seq<Entry>, i: nat, t: ClassTable, hash: ClassName -> nat, c: ClassName, key: nat)
    requires GoodBucket(bucket, i, t, hash) && c !in t.keys && key !in t.classes
    requires hash(c) % CLASS_TABLE_SIZE == i == key % CLASS_TABLE_SIZE && 256 <= key < ITEM_NEW_OBJECT_FLAG
    requires forall e | e in bucket && IsOwn(e.key) :: Low(e.key) < key
    ensures GoodBucket([Entry(c, key, false)] + bucket, i, WithClass(t, c, key), hash)
  {
    BucketAfterInsertion(bucket, i, t, hash, c, key);
    assert forall e | e in bucket :: GoodEntry(e, i, t, hash);
    assert forall j | 0 <= j < |bucket| :: GoodEntry(bucket[j], i, t, hash);
    assert GoodEntry(Entry(c, key, false), i, WithClass(t, c, key), hash);
  }

  lemma AfterInsertion(buckets: seq<seq<Entry>>, t: ClassTable, hash: ClassName -> nat, c: ClassName, key: nat)
    requires Holds(buckets, t, hash) && c !in t.keys && 256 <= key < ITEM_NEW_OBJECT_FLAG
    requires key % CLASS_TABLE_SIZE == hash(c) % CLASS_TABLE_SIZE
    requires forall e | e in buckets[hash(c) % CLASS_TABLE_SIZE] && IsOwn(e.key) :: Low(e.key) < key
    ensures key !in t.classes
    ensures var i := hash(c) % CLASS_TABLE_SIZE;
            Holds(buckets[i := [Entry(c, key, false)] + buckets[i]], WithClass(t, c, key), hash)
  {
    hide GoodBucket;
    var i := hash(c) % CLASS_TABLE_SIZE;
    var t' := WithClass(t, c, key);
    if key in t.classes {
      var e := EntryOfKey(buckets, t, hash, key);
    }
    var buckets' := buckets[i := [Entry(c, key, false)] + buckets[i]];
    forall k | 0 <= k < CLASS_TABLE_SIZE
      ensures GoodBucket(buckets'[k], k, t', hash)
    {
      if k == i {
        BucketWithClass(buckets[i], i, t, hash, c, key);
      } else {
        BucketAfterInsertion(buckets[k], k, t, hash, c, key);
      }
    }
    forall d | d in t'.keys
      ensures Listed(buckets', d, hash)
    {
      if d == c {
        assert buckets'[i][0].name == c;
      } else {
        assert Listed(buckets, d, hash);
        var e :| e in buckets[hash(d) % CLASS_TABLE_SIZE] && e.name == d;
        assert e in buckets'[hash(d) % CLASS_TABLE_SIZE];
      }
    }
  }

  /** The hash function is any function of the two names. */
  class HashTable {
    const hash: ClassName -> nat
    var buckets: seq<seq<Entry>>
    ghost var table: ClassTable

    ghost predicate Consistent()
      reads this
    {
      Holds(buckets, table, hash)
    }

    ghost predicate Valid()
      reads this
    {
      Consistent() && Filled(buckets, table, None) && HasElements(table, None)
    }

    constructor (hash: ClassName -> nat)
      ensures Valid() && table == ClassTable(map[], map[])
    {
      this.hash := hash;
      buckets := seq(CLASS_TABLE_SIZE, _ => []);
      table := ClassTable(map[], map[]);
    }

    /** change_Name_to_CLASS: the position in the bucket; the virtual machine stops when there are no more keys. */
    method ChangeNameToClass(c: ClassName) returns (at: Option<nat>)
      requires Consistent()
      modifies this`buckets, this`table
      ensures Consistent()
      ensures at.None? ==>
                && buckets == old(buckets) && table == old(table)
                && c !in table.keys && IsFull(buckets[hash(c) % CLASS_TABLE_SIZE]) && HasFullBucket(buckets)
      ensures at.Some? ==> IsNamed(old(buckets), buckets, old(table), table, hash, c, at.value)
    {
      var index := hash(c) % CLASS_TABLE_SIZE;
      var bucket := buckets[index];
      var lastKey, j := 0, 0;
      while j < |bucket|
        invariant j <= |bucket| && forall k | 0 <= k < j :: bucket[k].name != c
        invariant lastKey == 0 ==> forall k | 0 <= k < j :: !IsOwn(bucket[k].key)
        invariant lastKey != 0 ==> exists k | 0 <= k < j ::
                    IsOwn(bucket[k].key) && lastKey == Low(bucket[k].key)
                    && forall l | 0 <= l < k :: !IsOwn(bucket[l].key)
      {
        assert GoodEntry(bucket[j], index, table, hash);
        if bucket[j].name == c {
          return Some(j);
        }
        if lastKey == 0 && IsOwn(bucket[j].key) {
          lastKey := Low(bucket[j].key);
        }
        j := j + 1;
      }
      var key := if lastKey == 0 then 256 + index else lastKey + CLASS_TABLE_SIZE;
      NotListed(buckets, table, hash, c);
      NextKey(bucket, index, table, hash, lastKey);
      if key >= ITEM_NEW_OBJECT_FLAG {
        assert bucket in buckets;
        return None;
      }
      AfterInsertion(buckets, table, hash, c, key);
      buckets := buckets[index := [Entry(c, key, false)] + bucket];
      table := WithClass(table, c, key);
      return Some(0);
    }

    /** A class that is no array gets its own key. */
    method NameClass(c: ClassName) returns (ok: bool)
      requires Valid() && !IsArray(c)
      modifies this`buckets, this`table
      ensures Valid() && Extends(old(table), table)
      ensures ok ==> c in table.keys
      ensures !ok ==> HasFullBucket(buckets)
    {
      hide Holds, IsFull, Filled, HasElements, GoodClass, CountBrackets, BaseOf;
      ghost var was, t := buckets, table;
      var at := ChangeNameToClass(c);
      if at.None? {
        return false;
      }
      if c !in t.keys {
        AfterNamingClass(was, buckets, t, table, hash, c, at.value);
      }
      return true;
    }

    /** One round of getArrayClass: the entry gets its final key and its class. */
    method FillIn(depth: nat, base: ArrayBase, at: nat)
      requires Consistent() && depth > 0 && IsBase(table, base)
      requires var c := ArrayClassName(depth, base);
               var bucket := buckets[hash(c) % CLASS_TABLE_SIZE];
               && at < |bucket| && bucket[at].name == c && bucket[at].key < ITEM_NEW_OBJECT_FLAG
               && c in table.keys && Filled(buckets, table, Some(c))
      modifies this`buckets, this`table
      ensures Consistent() && Filled(buckets, table, None)
      ensures var c := ArrayClassName(depth, base);
              && c in table.keys && table == WithKey(old(table), c, table.keys[c])
              && (IsOwn(table.keys[c]) ==> table.keys[c] !in old(table.classes))
    {
      ghost var was, t := buckets, table;
      var c := ArrayClassName(depth, base);
      var index := hash(c) % CLASS_TABLE_SIZE;
      var bucket := buckets[index];
      assert GoodEntry(bucket[at], index, table, hash);
      var key;
      if depth >= MAX_FIELD_KEY_ARRAY_DEPTH {
        key := bucket[at].key + MAX_FIELD_KEY_ARRAY_DEPTH * FIELD_KEY_ARRAY_UNIT;
      } else {
        match base {
          case CodeBase(code) => key := depth * FIELD_KEY_ARRAY_UNIT + code as int;
          case ClassBase(b) =>
            var baseKey := KeyOf(b);
            key := depth * FIELD_KEY_ARRAY_UNIT + baseKey;
        }
      }
      FinalKey(buckets, t, hash, depth, base, at, key);
      buckets := buckets[index := bucket[at := Entry(c, key, true)]];
      table := WithKey(table, c, key);
    }

    /** The end of a round: the class of the elements is named, which may exist already. */
    method FillAndNameElement(d: nat, base: ArrayBase, at: nat, ghost t0: ClassTable) returns (next: Option<nat>)
      requires d > 1 && IsBase(table, base) && Consistent() && Extends(t0, table)
      requires var name := ArrayClassName(d, base);
               && name in table.keys && IsAt(buckets, hash, name, at)
               && !buckets[hash(name) % CLASS_TABLE_SIZE][at].hasClass && IsPending(buckets, table, t0, hash, name, at)
      modifies this`buckets, this`table
      ensures next.None? ==> HasFullBucket(buckets)
      ensures next.Some? ==>
                var element := ArrayClassName(d - 1, base);
                && IsBase(table, base) && Consistent() && Extends(t0, table)
                && element in table.keys && old(table.keys.Keys) <= table.keys.Keys
                && IsAt(buckets, hash, element, next.value)
                && IsPending(buckets, table, t0, hash, element, next.value)
    {
      hide Holds, IsFull, Filled, HasElements, GoodClass, CountBrackets, BaseOf, ArrayClassName, ElementName, WithKey;
      hide IsNamed, Extends;
      var name := ArrayClassName(d, base);
      ghost var t := table;
      FillIn(d, base, at);
      AfterFilling(t0, t, name, table.keys[name]);
      ElementOfArray(d, base);
      BaseOfArray(d - 1, base);
      ghost var was, t' := buckets, table;
      next := ChangeNameToClass(ElementName(name));
      if next.Some? {
        AfterNaming(was, buckets, t', table, t0, hash, Some(name), ElementName(name), next.value);
      }
    }

    /** getArrayClass: the array class of this depth, and with it those of all smaller depths. */
    method GetArrayClass(depth: nat, base: ArrayBase) returns (c: Option<ClassName>)
      requires Valid() && depth > 0 && IsBase(table, base)
      modifies this`buckets, this`table
      ensures c.Some? ==>
                && Valid() && Extends(old(table), table)
                && c.value == ArrayClassName(depth, base) && c.value in table.keys
      ensures c.None? ==> HasFullBucket(buckets) || (base.CodeBase? && !IsArrayCode(base.code))
      ensures ArrayClassName(depth, base) in old(table.keys) ==> c.Some? && table == old(table)
    {
      hide Holds, IsFull, Filled, HasElements, GoodClass, CountBrackets, BaseOf, ArrayClassName, ElementName, WithKey;
      hide IsNamed, Extends;
      ghost var t0, was, t := table, buckets, table;
      var name, d := ArrayClassName(depth, base), depth;
      BaseOfArray(depth, base);
      ExtendsItself(table);
      var at := ChangeNameToClass(name);
      if at.None? {
        return None;
      }
      AfterNaming(was, buckets, t, table, t0, hash, None, name, at.value);
      while !buckets[hash(name) % CLASS_TABLE_SIZE][at.value].hasClass
        invariant ArrayClassName(depth, base) in t0.keys ==> name in t0.keys && table == t0
        invariant 1 <= d <= depth && name == ArrayClassName(d, base) && IsBase(table, base)
        invariant Consistent() && Extends(t0, table) && at.Some?
        invariant name in table.keys && ArrayClassName(depth, base) in table.keys
        invariant IsAt(buckets, hash, name, at.value) && IsPending(buckets, table, t0, hash, name, at.value)
        decreases d
      {
        if d == 1 {
          if base.CodeBase? && !IsArrayCode(base.code) {
            return None;
          }
          t := table;
          FillIn(d, base, at.value);
          AfterFilling(t0, t, name, table.keys[name]);
          NoElement(table, base);
          break;
        }
        at := FillAndNameElement(d, base, at.value, t0);
        if at.None? {
          return None;
        }
        d := d - 1;
        name := ArrayClassName(d, base);
      }
      return Some(ArrayClassName(depth, base));
    }

    /** The search of change_Key_to_CLASS, for keys that are not made from others. */
    method FindKey(key: nat) returns (c: Option<ClassName>)
      requires Valid() && IsOwn(key) && key < 0x1_0000
      ensures c == if key in table.classes then Some(table.classes[key]) else None
    {
      hide Filled, HasElements, Descending, Distinct, Listed;
      var index := (Low(key) - 256) % CLASS_TABLE_SIZE;
      var bucket := buckets[index];
      var j := 0;
      while j < |bucket|
        invariant j <= |bucket| && forall k | 0 <= k < j :: bucket[k].key != key
      {
        assert GoodEntry(bucket[j], index, table, hash);
        if bucket[j].key == key {
          return Some(bucket[j].name);
        }
        j := j + 1;
      }
      if key in table.classes {
        ghost var e := EntryOfKey(buckets, table, hash, key);
      }
      return None;
    }

    /** change_Key_to_CLASS: the class of a key; an array class may have to be created for it. */
    method ChangeKeyToClass(key: nat) returns (c: Option<ClassName>)
      requires Valid() && key < 0x1_0000
      modifies this`buckets, this`table
      ensures forall d | d in old(table.keys) && old(table.keys[d]) == key :: c == Some(d) && table == old(table)
      ensures c.Some? && HasBase(old(table), key) ==>
                Valid() && Extends(old(table), table) && c.value in table.keys && table.keys[c.value] == key
    {
      ghost var t := table;
      ExtendsItself(table);
      if IsOwn(key) {
        OwnClass(buckets, table, hash, key);
        c := FindKey(key);
      } else if Low(key) == '[' as int {
        BaseOfKey(buckets, table, hash, key);
        return None;
      } else {
        BaseOfKey(buckets, table, hash, key);
        var base := CodeBase(0 as char);
        if Low(key) <= 255 {
          base := CodeBase(Low(key) as char);
        } else {
          var found := FindKey(Low(key));
          base := if found.Some? then ClassBase(found.value) else base;
        }
        c := GetArrayClass(key / FIELD_KEY_ARRAY_UNIT, base);
        if c.Some? && HasBase(t, key) {
          KeyOfArray(t, table, key, base);
        }
      }
    }

    /** clazz->key */
    method KeyOf(c: ClassName) returns (key: nat)
      requires Consistent() && c in table.keys
      ensures key == table.keys[c]
    {
      ghost var e := EntryOfClass(buckets, table, hash, c);
      var bucket := buckets[hash(c) % CLASS_TABLE_SIZE];
      var j := 0;
      while bucket[j].name != c
        invariant j < |bucket| && e in bucket[j..]
        decreases |bucket| - j
      {
        j := j + 1;
      }
      assert GoodEntry(bucket[j], hash(c) % CLASS_TABLE_SIZE, table, hash);
      return bucket[j].key;
    }
  }

  /** The codes that getArrayClass accepts. */
  predicate IsArrayCode(code: char) {
    code in "CBZFDSIJVL"
  }

  ghost predicate HasFullBucket(buckets: seq<seq<Entry>>) {
    exists bucket | bucket in buckets :: IsFull(bucket)
  }

  ghost predicate IsBase(t: ClassTable, base: ArrayBase) {
    match base
    case CodeBase(code) => code as int < 256 && code != '['
    case ClassBase(c) => c in t.keys && !IsArray(c)
  }

  function WithEntry(buckets: seq<seq<Entry>>, i: nat, at: nat, e: Entry): seq<seq<Entry>>
    requires i < |buckets| && at < |buckets[i]|
  {
    buckets[i := buckets[i][at := e]]
  }

  /** The table after a class has got another key; only own keys can be searched for. */
  function WithKey(t: ClassTable, c: ClassName, key: nat): ClassTable
    requires c in t.keys
  {
    var others := t.classes - {t.keys[c]};
    ClassTable(t.keys[c := key], if IsOwn(key) then others[key := c] else others)
  }

  /** The key as it was made, with the depth bits set or replaced with the key of an array. */
  ghost predicate IsNewKey(made: nat, key: nat) {
    key == made + MAX_FIELD_KEY_ARRAY_DEPTH * FIELD_KEY_ARRAY_UNIT || !IsOwn(key)
  }

  lemma BucketAfterKey(bucket: seq<Entry>, i: nat, t: ClassTable, hash: ClassName -> nat, c: ClassName, key: nat)
    requires GoodBucket(bucket, i, t, hash) && c in t.keys && forall e | e in bucket :: e.name != c
    requires key !in t.classes && t.keys[c] in t.classes && t.classes[t.keys[c]] == c
    ensures GoodBucket(bucket, i, WithKey(t, c, key), hash)
  {
    forall e | e in bucket
      ensures GoodEntry(e, i, WithKey(t, c, key), hash)
    {
      assert GoodEntry(e, i, t, hash);
    }
  }

  lemma BucketWithKey(bucket: seq<Entry>, i: nat, t: ClassTable, hash: ClassName -> nat, at: nat, key: nat)
    requires GoodBucket(bucket, i, t, hash) && at < |bucket| && bucket[at].key < ITEM_NEW_OBJECT_FLAG
    requires bucket[at].name in t.keys && IsNewKey(bucket[at].key, key) && key !in t.classes
    ensures GoodBucket(bucket[at := Entry(bucket[at].name, key, true)], i, WithKey(t, bucket[at].name, key), hash)
  {
    var c := bucket[at].name;
    var t', bucket' := WithKey(t, c, key), bucket[at := Entry(c, key, true)];
    forall j | 0 <= j < |bucket|
      ensures GoodEntry(bucket'[j], i, t', hash)
    {
      assert GoodEntry(bucket[j], i, t, hash) && GoodEntry(bucket[at], i, t, hash);
    }
  }

  lemma AfterKey(buckets: seq<seq<Entry>>, t: ClassTable, hash: ClassName -> nat, i: nat, at: nat, key: nat)
    requires Holds(buckets, t, hash) && i < CLASS_TABLE_SIZE && at < |buckets[i]|
    requires buckets[i][at].key < ITEM_NEW_OBJECT_FLAG && IsNewKey(buckets[i][at].key, key)
    ensures var c := buckets[i][at].name;
            c in t.keys && Holds(buckets[i := buckets[i][at := Entry(c, key, true)]], WithKey(t, c, key), hash)
  {
    hide GoodBucket, WithKey;
    var c := buckets[i][at].name;
    KeyIsNew(buckets, t, hash, i, at, key);
    ClassesAfterKey(t, c, key);
    OwnKey(buckets[i], i, t, hash, at);
    var t' := WithKey(t, c, key);
    var buckets': seq<seq<Entry>> := WithEntry(buckets, i, at, Entry(c, key, true));
    forall k | 0 <= k < CLASS_TABLE_SIZE
      ensures GoodBucket(buckets'[k], k, t', hash)
    {
      if k == i {
        BucketWithKey(buckets[i], i, t, hash, at, key);
      } else {
        NotInOther(buckets[k], k, t, hash, c);
        BucketAfterKey(buckets[k], k, t, hash, c, key);
      }
    }
    forall d | d in t'.keys
      ensures Listed(buckets', d, hash)
    {
      ListedAfterKey(buckets, t, hash, i, at, key, d);
    }
  }

  lemma OwnKey(bucket: seq<Entry>, i: nat, t: ClassTable, hash: ClassName -> nat, at: nat)
    requires GoodBucket(bucket, i, t, hash) && at < |bucket| && bucket[at].key < ITEM_NEW_OBJECT_FLAG
    ensures bucket[at].name in t.keys && t.keys[bucket[at].name] == bucket[at].key && bucket[at].key in t.classes
    ensures t.classes[bucket[at].key] == bucket[at].name
  {
    assert GoodEntry(bucket[at], i, t, hash);
  }

  /** The key says what the class is made of. */
  ghost predicate HasBase(t: ClassTable, key: nat) {
    IsOwn(key) || Low(key) <= 255 || Low(key) in t.classes
  }

  /** A class with a key of its own is what a search for the key finds. */
  lemma OwnClass(buckets: seq<seq<Entry>>, t: ClassTable, hash: ClassName -> nat, key: nat)
    requires Holds(buckets, t, hash) && GoodTable(t) && IsOwn(key)
    ensures forall d | d in t.keys && t.keys[d] == key :: key in t.classes && t.classes[key] == d
    ensures key in t.classes ==> t.classes[key] in t.keys && t.keys[t.classes[key]] == key
  {
    hide BaseOf, ArrayClassName, CountBrackets;
    assert forall d | d in t.keys :: GoodClass(t, d);
  }

  function BaseFromKey(t: ClassTable, key: nat): ArrayBase {
    if Low(key) <= 255 then CodeBase(Low(key) as char)
    else if Low(key) in t.classes then ClassBase(t.classes[Low(key)]) else CodeBase(0 as char)
  }

  lemma BaseOfKey(buckets: seq<seq<Entry>>, t: ClassTable, hash: ClassName -> nat, key: nat)
    requires Holds(buckets, t, hash) && GoodTable(t) && !IsOwn(key)
    ensures forall d | d in t.keys && t.keys[d] == key ::
              Low(key) != '[' as int && d == ArrayClassName(key / FIELD_KEY_ARRAY_UNIT, BaseFromKey(t, key))
    ensures Low(key) != '[' as int ==> IsBase(t, BaseFromKey(t, key))
  {
    hide BaseOf, ArrayClassName, CountBrackets;
    forall d | d in t.keys && t.keys[d] == key
      ensures Low(key) != '[' as int && d == ArrayClassName(key / FIELD_KEY_ARRAY_UNIT, BaseFromKey(t, key))
    {
      assert GoodClass(t, d);
      if BaseOf(d).ClassBase? {
        assert GoodClass(t, BaseOf(d).c);
      }
    }
    if Low(key) > 255 && Low(key) in t.classes {
      assert GoodClass(t, t.classes[Low(key)]);
    }
  }

  lemma KeyOfArray(t: ClassTable, t': ClassTable, key: nat, base: ArrayBase)
    requires !IsOwn(key) && key < 0x1_0000 && HasBase(t, key) && base == BaseFromKey(t, key) && IsBase(t, base)
    requires Extends(t, t') && GoodTable(t') && ArrayClassName(key / FIELD_KEY_ARRAY_UNIT, base) in t'.keys
    requires Low(key) in t.classes ==> t.classes[Low(key)] in t.keys && t.keys[t.classes[Low(key)]] == Low(key)
    ensures t'.keys[ArrayClassName(key / FIELD_KEY_ARRAY_UNIT, base)] == key
  {
    hide BaseOf, ArrayClassName, CountBrackets;
    var c := ArrayClassName(key / FIELD_KEY_ARRAY_UNIT, base);
    BaseOfArray(key / FIELD_KEY_ARRAY_UNIT, base);
    assert GoodClass(t', c);
  }

  lemma NotInOther(bucket: seq<Entry>, i: nat, t: ClassTable, hash: ClassName -> nat, c: ClassName)
    requires GoodBucket(bucket, i, t, hash) && hash(c) % CLASS_TABLE_SIZE != i
    ensures forall e | e in bucket :: e.name != c
  {
    assert forall e | e in bucket :: GoodEntry(e, i, t, hash);
  }

  lemma ClassesAfterKey(t: ClassTable, c: ClassName, key: nat)
    requires c in t.keys && key !in t.classes
    requires forall k | k in t.classes :: IsOwn(k) && t.classes[k] in t.keys && t.keys[t.classes[k]] == k
    ensures var t' := WithKey(t, c, key);
            && t'.keys.Keys == t.keys.Keys
            && forall k | k in t'.classes :: IsOwn(k) && t'.classes[k] in t'.keys && t'.keys[t'.classes[k]] == k
  {
  }

  lemma ListedAfterKey(buckets: seq<seq<Entry>>, t: ClassTable, hash: ClassName -> nat, i: nat, at: nat, key: nat,
                       d: ClassName)
    requires Holds(buckets, t, hash) && i < CLASS_TABLE_SIZE && at < |buckets[i]| && d in t.keys
    ensures Listed(WithEntry(buckets, i, at, Entry(buckets[i][at].name, key, true)), d, hash)
  {
    var c := buckets[i][at].name;
    var buckets': seq<seq<Entry>> := WithEntry(buckets, i, at, Entry(c, key, true));
    assert GoodEntry(buckets[i][at], i, t, hash);
    if d == c {
      assert buckets'[i][at].name == c;
    } else {
      var e := EntryOfClass(buckets, t, hash, d);
      var bucket := buckets[hash(d) % CLASS_TABLE_SIZE];
      var j :| 0 <= j < |bucket| && bucket[j] == e;
      assert buckets'[hash(d) % CLASS_TABLE_SIZE][j] == e;
    }
  }

  /** Setting the depth bits leaves the lower bits, which are those of no other class of the bucket. */
  lemma KeyIsNew(buckets: seq<seq<Entry>>, t: ClassTable, hash: ClassName -> nat, i: nat, at: nat, key: nat)
    requires Holds(buckets, t, hash) && i < CLASS_TABLE_SIZE && at < |buckets[i]|
    requires buckets[i][at].key < ITEM_NEW_OBJECT_FLAG && IsNewKey(buckets[i][at].key, key)
    ensures buckets[i][at].name in t.keys && hash(buckets[i][at].name) % CLASS_TABLE_SIZE == i && key !in t.classes
  {
    assert GoodEntry(buckets[i][at], i, t, hash);
    if IsOwn(key) {
      assert Low(key) == Low(buckets[i][at].key);
      if key in t.classes {
        var e := EntryOfKey(buckets, t, hash, key);
      }
    }
  }

  ghost predicate IsFinalKey(t: ClassTable, depth: nat, base: ArrayBase, key: nat)
    requires IsBase(t, base) && ArrayClassName(depth, base) in t.keys
  {
    if depth >= MAX_FIELD_KEY_ARRAY_DEPTH
    then key == t.keys[ArrayClassName(depth, base)] + MAX_FIELD_KEY_ARRAY_DEPTH * FIELD_KEY_ARRAY_UNIT
    else key == depth * FIELD_KEY_ARRAY_UNIT
                + match base case CodeBase(code) => code as int case ClassBase(b) => t.keys[b]
  }

  /** The final key of an array class is a good one, and those of the others stay good. */
  lemma GoodArray(t: ClassTable, depth: nat, base: ArrayBase, key: nat)
    requires var c := ArrayClassName(depth, base);
             && depth > 0 && IsBase(t, base) && c in t.keys && 256 <= t.keys[c] < ITEM_NEW_OBJECT_FLAG
             && (forall d | d in t.keys && d != c :: GoodClass(t, d))
             && (forall d | d in t.keys && d != c :: t.keys[d] != t.keys[c])
             && key !in t.classes
    requires IsFinalKey(t, depth, base, key)
    ensures GoodTable(WithKey(t, ArrayClassName(depth, base), key))
  {
    hide BaseOf, ArrayClassName, CountBrackets;
    var c := ArrayClassName(depth, base);
    BaseOfArray(depth, base);
    var t' := WithKey(t, c, key);
    assert base.ClassBase? ==> base.c != c && GoodClass(t, base.c);
    GoodArrayItself(t', depth, base);
    forall d | d in t'.keys && d != c
      ensures GoodClass(t', d)
    {
      assert GoodClass(t, d);
    }
  }

  lemma GoodArrayItself(t: ClassTable, depth: nat, base: ArrayBase)
    requires var c := ArrayClassName(depth, base);
             && depth > 0 && IsBase(t, base) && c in t.keys
             && if depth >= MAX_FIELD_KEY_ARRAY_DEPTH
                then MAX_FIELD_KEY_ARRAY_DEPTH * FIELD_KEY_ARRAY_UNIT <= t.keys[c] < 0x1_0000
                     && t.keys[c] in t.classes && t.classes[t.keys[c]] == c
                else t.keys[c] == depth * FIELD_KEY_ARRAY_UNIT
                         + match base case CodeBase(code) => code as int case ClassBase(b) => t.keys[b]
    requires base.ClassBase? ==> t.keys[base.c] < FIELD_KEY_ARRAY_UNIT
    ensures GoodClass(t, ArrayClassName(depth, base))
  {
    hide BaseOf, ArrayClassName, CountBrackets;
    BaseOfArray(depth, base);
  }

  /** This entry of its bucket is the class. */
  ghost predicate IsAt(buckets: seq<seq<Entry>>, hash: ClassName -> nat, c: ClassName, at: nat) {
    && |buckets| == CLASS_TABLE_SIZE && at < |buckets[hash(c) % CLASS_TABLE_SIZE]|
    && buckets[hash(c) % CLASS_TABLE_SIZE][at].name == c
  }

  /** Either everything is filled in, or everything but this class, which is new. */
  ghost predicate IsPending(buckets: seq<seq<Entry>>, t: ClassTable, t0: ClassTable, hash: ClassName -> nat,
                            c: ClassName, at: nat)
    requires IsAt(buckets, hash, c, at) && c in t.keys
  {
    var e := buckets[hash(c) % CLASS_TABLE_SIZE][at];
    if e.hasClass then Filled(buckets, t, None) && HasElements(t, None)
    else
      && e.key < ITEM_NEW_OBJECT_FLAG && c !in t0.keys && t.keys[c] !in t0.classes
      && Filled(buckets, t, Some(c)) && HasElements(t, Some(c))
  }

  /** The class has been found, or put at the front of its bucket with a new key. */
  ghost predicate IsNamed(was: seq<seq<Entry>>, now: seq<seq<Entry>>, t: ClassTable, t': ClassTable,
                          hash: ClassName -> nat, c: ClassName, at: nat) {
    && IsAt(now, hash, c, at) && c in t'.keys
    && (c in t.keys ==> now == was && t' == t)
    && (c !in t.keys ==>
          var i, key := hash(c) % CLASS_TABLE_SIZE, t'.keys[c];
          && 256 <= key < ITEM_NEW_OBJECT_FLAG && key !in t.classes && t' == WithClass(t, c, key)
          && |was| == CLASS_TABLE_SIZE && now == was[i := [Entry(c, key, false)] + was[i]] && at == 0)
  }

  lemma FilledBut(was: seq<seq<Entry>>, t: ClassTable, hash: ClassName -> nat, c: ClassName, key: nat,
                  p: Option<ClassName>)
    requires |was| == CLASS_TABLE_SIZE && Filled(was, t, None) && HasElements(t, p) && c !in t.keys && key !in t.classes
    requires p.Some? ==> IsArray(p.value) && ElementName(p.value) == c
    ensures var i := hash(c) % CLASS_TABLE_SIZE;
            Filled(was[i := [Entry(c, key, false)] + was[i]], WithClass(t, c, key), Some(c))
    ensures HasElements(WithClass(t, c, key), Some(c))
  {
    hide BaseOf, CountBrackets, ArrayClassName, ElementName;
    var i := hash(c) % CLASS_TABLE_SIZE;
    var now, t' := was[i := [Entry(c, key, false)] + was[i]], WithClass(t, c, key);
    forall bucket, e | bucket in now && e in bucket && IsArray(e.name) && e.name != c
      ensures e.hasClass
    {
      assert was[i] in was;
      assert bucket in was || (bucket == now[i] && e in was[i]);
    }
    forall d | d in t'.keys && d != c
      ensures GoodClass(t', d)
    {
      assert GoodClass(t, d);
    }
  }

  lemma AfterNaming(was: seq<seq<Entry>>, now: seq<seq<Entry>>, t: ClassTable, t': ClassTable, t0: ClassTable,
                    hash: ClassName -> nat, p: Option<ClassName>, c: ClassName, at: nat)
    requires IsNamed(was, now, t, t', hash, c, at) && Extends(t0, t) && IsArray(c)
    requires Filled(was, t, None) && HasElements(t, p)
    requires p.Some? ==> IsArray(p.value) && ElementName(p.value) == c
    ensures IsAt(now, hash, c, at) && c in t'.keys && t.keys.Keys <= t'.keys.Keys
    ensures IsPending(now, t', t0, hash, c, at) && Extends(t0, t')
  {
    hide GoodClass, CountBrackets;
    var i := hash(c) % CLASS_TABLE_SIZE;
    if c in t.keys {
      assert now[i] in now && now[i][at] in now[i];
    } else {
      FilledBut(was, t, hash, c, t'.keys[c], p);
    }
  }

  lemma AfterNamingClass(was: seq<seq<Entry>>, now: seq<seq<Entry>>, t: ClassTable, t': ClassTable,
                         hash: ClassName -> nat, c: ClassName, at: nat)
    requires IsNamed(was, now, t, t', hash, c, at) && !IsArray(c) && c !in t.keys
    requires Filled(was, t, None) && HasElements(t, None)
    ensures Filled(now, t', None) && HasElements(t', None) && Extends(t, t')
  {
    hide BaseOf, ArrayClassName;
    FilledBut(was, t, hash, c, t'.keys[c], None);
  }

  /** A class that was new gets its final key: nothing that was there before is touched. */
  lemma AfterFilling(t0: ClassTable, t: ClassTable, c: ClassName, key: nat)
    requires Extends(t0, t) && c in t.keys && c !in t0.keys && t.keys[c] !in t0.classes
    requires IsOwn(key) ==> key !in t.classes
    ensures Extends(t0, WithKey(t, c, key)) && WithKey(t, c, key).keys.Keys == t.keys.Keys
    ensures HasElements(t, Some(c)) ==> HasElements(WithKey(t, c, key), Some(c))
  {
  }

  lemma NoElement(t: ClassTable, base: ArrayBase)
    requires HasElements(t, Some(ArrayClassName(1, base))) && (base.CodeBase? ==> base.code != '[')
    ensures HasElements(t, None)
  {
    BaseOfArray(1, base);
  }

  lemma ElementOfArray(depth: nat, base: ArrayBase)
    requires depth > 1 && (base.CodeBase? ==> base.code != '[')
    ensures IsArray(ArrayClassName(depth, base))
    ensures ElementName(ArrayClassName(depth, base)) == ArrayClassName(depth - 1, base)
  {
    BaseOfArray(depth, base);
    assert Brackets(depth)[1..] == Brackets(depth - 1);
  }

  lemma FinalKey(buckets: seq<seq<Entry>>, t: ClassTable, hash: ClassName -> nat, depth: nat, base: ArrayBase,
                 at: nat, key: nat)
    requires var c := ArrayClassName(depth, base);
             && Holds(buckets, t, hash) && depth > 0 && IsBase(t, base) && c in t.keys
             && IsAt(buckets, hash, c, at) && buckets[hash(c) % CLASS_TABLE_SIZE][at].key < ITEM_NEW_OBJECT_FLAG
             && Filled(buckets, t, Some(c)) && IsFinalKey(t, depth, base, key)
    ensures var c := ArrayClassName(depth, base);
            var buckets': seq<seq<Entry>> := WithEntry(buckets, hash(c) % CLASS_TABLE_SIZE, at, Entry(c, key, true));
            && Holds(buckets', WithKey(t, c, key), hash) && Filled(buckets', WithKey(t, c, key), None)
    ensures IsOwn(key) ==> key !in t.classes
  {
    hide BaseOf, CountBrackets, ArrayClassName;
    var c := ArrayClassName(depth, base);
    var i := hash(c) % CLASS_TABLE_SIZE;
    assert GoodEntry(buckets[i][at], i, t, hash);
    assert base.ClassBase? ==> base.c != c && GoodClass(t, base.c) by {
      BaseOfArray(depth, base);
    }
    AfterKey(buckets, t, hash, i, at, key);
    KeyIsNew(buckets, t, hash, i, at, key);
    GoodArray(t, depth, base, key);
    var buckets': seq<seq<Entry>> := WithEntry(buckets, i, at, Entry(c, key, true));
    forall k | 0 <= k < |buckets| && k != i
      ensures forall f | f in buckets[k] :: f.name != c
    {
      NotInOther(buckets[k], k, t, hash, c);
    }
    forall bucket, e | bucket in buckets' && e in bucket && IsArray(e.name)
      ensures e.hasClass
    {
      FilledInEntry(buckets, t, i, at, Entry(c, key, true), bucket, e);
    }
  }

  lemma FilledInEntry(buckets: seq<seq<Entry>>, t: ClassTable, i: nat, at: nat, e': Entry, bucket: seq<Entry>, e: Entry)
    requires i < |buckets| && at < |buckets[i]| && Filled(buckets, t, Some(e'.name)) && e'.hasClass
    requires buckets[i][at].name == e'.name && Distinct(buckets[i])
    requires bucket in WithEntry(buckets, i, at, e') && e in bucket && IsArray(e.name)
    requires forall k, f | 0 <= k < |buckets| && k != i && f in buckets[k] :: f.name != e'.name
    ensures e.hasClass
  {
    var k :| 0 <= k < |buckets| && WithEntry(buckets, i, at, e')[k] == bucket;
    assert buckets[k] in buckets;
    if k == i {
      var j :| 0 <= j < |bucket| && bucket[j] == e;
      assert buckets[i][j] in buckets[i];
    }
  }

  lemma NotListed(buckets: seq<seq<Entry>>, t: ClassTable, hash: ClassName -> nat, c: ClassName)
    requires Holds(buckets, t, hash) && forall e | e in buckets[hash(c) % CLASS_TABLE_SIZE] :: e.name != c
    ensures c !in t.keys
  {
    if c in t.keys {
      var e := EntryOfClass(buckets, t, hash, c);
    }
  }

  /** The first own key that is found is the largest one; the next key is above it, for the same bucket. */
  lemma NextKey(bucket: seq<Entry>, i: nat, t: ClassTable, hash: ClassName -> nat, lastKey: nat)
    requires GoodBucket(bucket, i, t, hash) && i < CLASS_TABLE_SIZE
    requires lastKey == 0 ==> forall k | 0 <= k < |bucket| :: !IsOwn(bucket[k].key)
    requires lastKey != 0 ==> exists k | 0 <= k < |bucket| ::
               IsOwn(bucket[k].key) && lastKey == Low(bucket[k].key) && forall l | 0 <= l < k :: !IsOwn(bucket[l].key)
    ensures var key := if lastKey == 0 then 256 + i else lastKey + CLASS_TABLE_SIZE;
            && 256 <= key && key % CLASS_TABLE_SIZE == i
            && (key >= ITEM_NEW_OBJECT_FLAG ==> IsFull(bucket))
            && forall e | e in bucket && IsOwn(e.key) :: Low(e.key) < key
  {
    if lastKey != 0 {
      var k :| 0 <= k < |bucket| && IsOwn(bucket[k].key) && lastKey == Low(bucket[k].key)
               && forall l | 0 <= l < k :: !IsOwn(bucket[l].key);
      assert GoodEntry(bucket[k], i, t, hash);
      assert bucket[k] in bucket;
      assert forall l | 0 <= l < |bucket| && IsOwn(bucket[l].key) :: Low(bucket[l].key) <= lastKey;
    }
  }
}
