/** The table of names, which gives each string of bytes a key of 16 bits (hashtable.c). */
module NameTable {

  import opened Options

  const UTF_TABLE_SIZE := 256

  type Name = seq<nat>

  datatype Entry = Entry(name: Name, key: nat)

  ghost predicate GoodEntry(e: Entry, bucket: nat, position: nat, length: nat, keys: map<Name, nat>,
                            hash: Name -> nat) {
    && hash(e.name) % UTF_TABLE_SIZE == bucket && e.name in keys && keys[e.name] == e.key
    && e.key == UTF_TABLE_SIZE * (length - position) + bucket < 0x1_0000
  }

  /** The keys of a bucket count down to that of the oldest entry, which is the last one. */
  ghost predicate GoodBucket(bucket: seq<Entry>, i: nat, keys: map<Name, nat>, hash: Name -> nat) {
    && (forall j {:trigger bucket[j]} | 0 <= j < |bucket| :: GoodEntry(bucket[j], i, j, |bucket|, keys, hash))
    && (forall j, k | 0 <= j < k < |bucket| :: bucket[j].name != bucket[k].name)
  }

  ghost predicate Holds(buckets: seq<seq<Entry>>, keys: map<Name, nat>, hash: Name -> nat) {
    && |buckets| == UTF_TABLE_SIZE
    && (forall i | 0 <= i < UTF_TABLE_SIZE :: GoodBucket(buckets[i], i, keys, hash))
    && (forall s | s in keys :: exists e | e in buckets[hash(s) % UTF_TABLE_SIZE] :: e.name == s)
  }

  lemma PlaceOf(buckets: seq<seq<Entry>>, keys: map<Name, nat>, hash: Name -> nat, s: Name) returns (i: nat, j: nat)
    requires Holds(buckets, keys, hash) && s in keys
    ensures i == hash(s) % UTF_TABLE_SIZE == keys[s] % UTF_TABLE_SIZE && j < |buckets[i]| && buckets[i][j].name == s
    ensures buckets[i][j].key == keys[s] == UTF_TABLE_SIZE * (|buckets[i]| - j) + i < 0x1_0000
  {
    i := hash(s) % UTF_TABLE_SIZE;
    var e :| e in buckets[i] && e.name == s;
    j :| j < |buckets[i]| && buckets[i][j] == e;
    assert GoodEntry(buckets[i][j], i, j, |buckets[i]|, keys, hash);
  }

  /** A key stands for one string. */
  lemma KeysDiffer(buckets: seq<seq<Entry>>, keys: map<Name, nat>, hash: Name -> nat, s: Name, s': Name)
    requires Holds(buckets, keys, hash) && s in keys && s' in keys && keys[s] == keys[s']
    ensures s == s'
  {
    hide Holds;
    var i, j := PlaceOf(buckets, keys, hash, s);
    var i', j' := PlaceOf(buckets, keys, hash, s');
  }

  lemma BucketWithName(bucket: seq<Entry>, i: nat, keys: map<Name, nat>, hash: Name -> nat, s: Name, key: nat)
    requires GoodBucket(bucket, i, keys, hash) && s !in keys && hash(s) % UTF_TABLE_SIZE == i
    requires key == UTF_TABLE_SIZE * (|bucket| + 1) + i < 0x1_0000
    ensures GoodBucket([Entry(s, key)] + bucket, i, keys[s := key], hash)
  {
    var bucket' := [Entry(s, key)] + bucket;
    forall j | 0 <= j < |bucket'|
      ensures GoodEntry(bucket'[j], i, j, |bucket'|, keys[s := key], hash)
    {
      if j > 0 {
        assert GoodEntry(bucket[j - 1], i, j - 1, |bucket|, keys, hash);
      }
    }
    assert forall j | 0 <= j < |bucket| :: GoodEntry(bucket[j], i, j, |bucket|, keys, hash);
  }

  lemma OtherBucket(bucket: seq<Entry>, i: nat, keys: map<Name, nat>, hash: Name -> nat, s: Name, key: nat)
    requires GoodBucket(bucket, i, keys, hash) && s !in keys
    ensures GoodBucket(bucket, i, keys[s := key], hash)
  {
    forall j | 0 <= j < |bucket|
      ensures GoodEntry(bucket[j], i, j, |bucket|, keys[s := key], hash)
    {
      assert GoodEntry(bucket[j], i, j, |bucket|, keys, hash);
    }
  }

  lemma AfterInsertion(buckets: seq<seq<Entry>>, keys: map<Name, nat>, hash: Name -> nat, s: Name, key: nat)
    requires Holds(buckets, keys, hash) && s !in keys
    requires var i := hash(s) % UTF_TABLE_SIZE; key == UTF_TABLE_SIZE * (|buckets[i]| + 1) + i < 0x1_0000
    ensures var i := hash(s) % UTF_TABLE_SIZE;
            Holds(buckets[i := [Entry(s, key)] + buckets[i]], keys[s := key], hash)
  {
    hide GoodBucket;
    var i := hash(s) % UTF_TABLE_SIZE;
    var buckets': seq<seq<Entry>> := buckets[i := [Entry(s, key)] + buckets[i]];
    forall k | 0 <= k < UTF_TABLE_SIZE
      ensures GoodBucket(buckets'[k], k, keys[s := key], hash)
    {
      if k == i {
        BucketWithName(buckets[i], i, keys, hash, s, key);
      } else {
        OtherBucket(buckets[k], k, keys, hash, s, key);
      }
    }
    assert Entry(s, key) in buckets'[i];
    forall s' | s' in keys
      ensures exists e | e in buckets'[hash(s') % UTF_TABLE_SIZE] :: e.name == s'
    {
      var e :| e in buckets[hash(s') % UTF_TABLE_SIZE] && e.name == s';
      assert e in buckets'[hash(s') % UTF_TABLE_SIZE];
    }
  }

  /** The hash function is any function of the bytes. */
  class UTFStringTable {
    const hash: Name -> nat
    var buckets: seq<seq<Entry>>
    ghost var keys: map<Name, nat>

    ghost predicate Valid()
      reads this
    {
      Holds(buckets, keys, hash)
    }

    constructor (hash: Name -> nat)
      ensures Valid() && keys == map[]
    {
      this.hash := hash;
      buckets := seq(UTF_TABLE_SIZE, _ => []);
      keys := map[];
    }

    /** change_Name_to_Key: strings keep their keys; the machine stops exactly if a new key would be too large. */
    method ChangeNameToKey(s: Name) returns (key: Option<nat>)
      requires Valid()
      modifies this`buckets, this`keys
      ensures Valid()
      ensures key.Some? ==> keys == old(keys)[s := key.value] && (s in old(keys) ==> key.value == old(keys)[s])
      ensures key.None? ==> keys == old(keys) && buckets == old(buckets)
      ensures key.None? <==> s !in old(keys) && UTF_TABLE_SIZE * (|old(buckets)[hash(s) % UTF_TABLE_SIZE]| + 1)
                                                + hash(s) % UTF_TABLE_SIZE >= 0x1_0000
    {
      hide Holds;
      var i := hash(s) % UTF_TABLE_SIZE;
      var bucket := Bucket(i);
      var j := 0;
      while j < |bucket|
        invariant j <= |bucket| && forall k | 0 <= k < j :: bucket[k].name != s
      {
        assert GoodEntry(bucket[j], i, j, |bucket|, keys, hash);
        if bucket[j].name == s {
          assert keys[s := bucket[j].key] == keys;
          return Some(bucket[j].key);
        }
        j := j + 1;
      }
      if s in keys {
        ghost var i', j' := PlaceOf(buckets, keys, hash, s);
      }
      if |bucket| > 0 {
        assert GoodEntry(bucket[0], i, 0, |bucket|, keys, hash);
      }
      var nextKey := if bucket == [] then UTF_TABLE_SIZE + i else UTF_TABLE_SIZE + bucket[0].key;
      if nextKey >= 0x1_0000 {
        return None;
      }
      AfterInsertion(buckets, keys, hash, s, nextKey);
      buckets := buckets[i := [Entry(s, nextKey)] + bucket];
      keys := keys[s := nextKey];
      return Some(nextKey);
    }

    method Bucket(i: nat) returns (bucket: seq<Entry>)
      requires Valid() && i < UTF_TABLE_SIZE
      ensures |buckets| == UTF_TABLE_SIZE && bucket == buckets[i] && GoodBucket(bucket, i, keys, hash)
    {
      bucket := buckets[i];
    }

    /** change_Key_to_Name: the inverse. */
    method ChangeKeyToName(key: nat) returns (s: Option<Name>)
      requires Valid()
      ensures s.Some? ==> s.value in keys && keys[s.value] == key
      ensures s.None? ==> key !in keys.Values
    {
      hide Holds;
      var i := key % UTF_TABLE_SIZE;
      var bucket := Bucket(i);
      var j := 0;
      while j < |bucket|
        invariant j <= |bucket| && forall k | 0 <= k < j :: bucket[k].key != key
      {
        assert GoodEntry(bucket[j], i, j, |bucket|, keys, hash);
        if bucket[j].key == key {
          return Some(bucket[j].name);
        }
        j := j + 1;
      }
      if key in keys.Values {
        ghost var s' :| s' in keys && keys[s'] == key;
        ghost var i', j' := PlaceOf(buckets, keys, hash, s');
      }
      return None;
    }
  }
}
