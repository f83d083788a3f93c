/**
 * Where objects keep their pointers, told from the fields of their classes and from the layout of each type: what the
 * lists of cells that the collectors walk (Objects, HeapUpdate, TwoSpaces) have to contain.
 */
module PointerCells {
  import opened Cells
  import opened Objects
  import opened HeapShape
  import opened HeapUpdate
  import opened TwoSpaces

  /** Class k is the class itself or one of its superclasses. */
  ghost predicate IsSelfOrSuper(k: Class, clazz: Class)
    decreases clazz
  {
    clazz.Class? && (k == clazz || IsSelfOrSuper(k, clazz.superClass))
  }

  /** An instance of the class has a pointer at offset d: in a field of its own, or in an inherited one. */
  ghost predicate HasPointerField(clazz: Class, d: nat) {
    exists k :: IsSelfOrSuper(k, clazz) && k.Class? && Field(true, false, d) in k.fields
  }

  lemma {:induction false} OwnOffsets(fields: seq<Field>, d: nat)
    ensures d in FieldOffsets(fields) <==> Field(true, false, d) in fields
  {
    if fields != [] {
      OwnOffsets(fields[1..], d);
      assert fields == [fields[0]] + fields[1..];
    }
  }

  /** The offsets that are walked are those of the pointer fields of the class and of all its superclasses. */
  lemma {:induction false} OffsetsAreFields(clazz: Class, d: nat)
    ensures d in InstanceOffsets(clazz) <==> HasPointerField(clazz, d)
    decreases clazz
  {
    if clazz.Class? {
      OwnOffsets(clazz.fields, d);
      OffsetsAreFields(clazz.superClass, d);
      if d in FieldOffsets(clazz.fields) {
        assert IsSelfOrSuper(clazz, clazz);
      } else if d in InstanceOffsets(clazz.superClass) {
        var k :| IsSelfOrSuper(k, clazz.superClass) && k.Class? && Field(true, false, d) in k.fields;
        assert IsSelfOrSuper(k, clazz);
      }
    }
  }

  /** Cell s of the object at h is a field or an item that holds a pointer. */
  ghost predicate IsReference(classOf: Cell -> Class, m: seq<Cell>, h: nat, s: nat) {
    && h + 1 < |m|
    && var kind := KindOf(m[h]);
       || ((kind == GCT_INSTANCE || kind == GCT_WEAKREFERENCE) && h + 3 <= s
           && HasPointerField(classOf(m[h + 1]), s - (h + 3)))
       || (kind == GCT_OBJECTARRAY && h + 3 < |m| && h + 4 <= s < h + 4 + m[h + 3])
       || (kind == GCT_POINTERLIST && h + 2 <= s < h + 2 + m[h + 1])
       || (kind == GCT_WEAKPOINTERLIST && h + 4 <= s < h + 4 + m[h + 1])
  }

  /** Cell s is the monitor cell, and holds the address of a monitor or of a thread. */
  predicate IsLockCell(m: seq<Cell>, h: nat, s: nat) {
    && h + 1 < |m| && s == h + 2 && h + 2 < |m| && m[h + 2] % 4 != MHC_UNLOCKED
    && KindOf(m[h]) in {GCT_INSTANCE, GCT_WEAKREFERENCE, GCT_ARRAY, GCT_OBJECTARRAY}
  }

  /** Cell s links a monitor or a thread with others. */
  predicate IsQueueCell(m: seq<Cell>, h: nat, s: nat) {
    && h + 1 < |m|
    && ((KindOf(m[h]) == GCT_MONITOR && s - h in {1, 2, 3})
        || (KindOf(m[h]) == GCT_THREAD && s - h in {1, 2, 3, 5, 10, 12}))
  }

  lemma InSlotsAt(base: nat, offsets: seq<nat>, s: nat)
    ensures s in SlotsAt(base, offsets) <==> base <= s && s - base in offsets
  {
    var slots := SlotsAt(base, offsets);
    if s in slots {
      var i :| 0 <= i < |slots| && slots[i] == s;
      assert s - base == offsets[i];
    }
    if base <= s && s - base in offsets {
      var i :| 0 <= i < |offsets| && offsets[i] == s - base;
      assert slots[i] == s;
    }
  }

  lemma InRange(base: nat, length: nat, s: nat)
    ensures s in Range(base, length) <==> base <= s < base + length
  {
    if base <= s < base + length {
      assert Range(base, length)[s - base] == s;
    }
  }

  lemma InMonitorSlot(m: seq<Cell>, h: nat, s: nat)
    ensures s in MonitorSlot(m, h) <==> s == h + 2 && h + 2 < |m| && m[h + 2] % 4 != MHC_UNLOCKED
  {
  }

  lemma InQueueSlots(classOf: Cell -> Class, m: seq<Cell>, h: nat, s: nat)
    requires h + 1 < |m| && (KindOf(m[h]) == GCT_MONITOR || KindOf(m[h]) == GCT_THREAD)
    ensures s in PointerSlots(classOf, m, h) <==> IsQueueCell(m, h, s)
  {
    var kind := KindOf(m[h]);
    hide KindOf;
    var slots := if kind == GCT_MONITOR then [h + 1, h + 2, h + 3]
                 else [h + 1, h + 2, h + 3, h + 10, h + 12, h + 5];
    assert PointerSlots(classOf, m, h) == slots;
    assert s in slots <==> exists i :: 0 <= i < |slots| && slots[i] == s;
  }

  lemma InFieldSlots(classOf: Cell -> Class, m: seq<Cell>, h: nat, s: nat)
    requires h + 2 < |m| && (KindOf(m[h]) == GCT_INSTANCE || KindOf(m[h]) == GCT_WEAKREFERENCE)
    ensures s in PointerSlots(classOf, m, h) <==> IsReference(classOf, m, h, s) || IsLockCell(m, h, s)
  {
    InMonitorSlot(m, h, s);
    hide KindOf, HasPointerField, SlotsAt, InstanceOffsets, MonitorSlot;
    InSlotsAt(h + 3, InstanceOffsets(classOf(m[h + 1])), s);
    if h + 3 <= s {
      OffsetsAreFields(classOf(m[h + 1]), s - (h + 3));
    }
  }

  /** All cells that are rewritten. */
  lemma PointerSlotsAre(classOf: Cell -> Class, m: seq<Cell>, h: nat, s: nat)
    requires h + 1 < |m| && (KindOf(m[h]) == GCT_OBJECTARRAY ==> h + 3 < |m|)
    requires HasMonitorCell(KindOf(m[h])) ==> h + 2 < |m|
    ensures s in PointerSlots(classOf, m, h)
            <==> IsReference(classOf, m, h, s) || IsLockCell(m, h, s) || IsQueueCell(m, h, s)
  {
    var kind := KindOf(m[h]);
    InMonitorSlot(m, h, s);
    if kind == GCT_INSTANCE || kind == GCT_WEAKREFERENCE {
      InFieldSlots(classOf, m, h, s);
    } else if kind == GCT_MONITOR || kind == GCT_THREAD {
      InQueueSlots(classOf, m, h, s);
    } else {
      hide KindOf, HasPointerField, Range, MonitorSlot;
      if kind == GCT_OBJECTARRAY {
        InRange(h + 4, m[h + 3], s);
      } else if kind == GCT_POINTERLIST {
        InRange(h + 2, m[h + 1], s);
      } else if kind == GCT_WEAKPOINTERLIST {
        InRange(h + 4, m[h + 1], s);
      }
    }
  }

  /** The cells that marking follows: fields and items, but not those of weak objects. */
  lemma StrongSlotsAre(classOf: Cell -> Class, m: seq<Cell>, h: nat, s: nat)
    requires h + 1 < |m| && (KindOf(m[h]) == GCT_OBJECTARRAY ==> h + 3 < |m|)
    ensures s in StrongSlots(classOf, m, h)
            <==> IsReference(classOf, m, h, s) && KindOf(m[h]) !in {GCT_WEAKPOINTERLIST, GCT_WEAKREFERENCE}
  {
    var kind := KindOf(m[h]);
    hide KindOf, HasPointerField, SlotsAt, Range, InstanceOffsets;
    if kind == GCT_INSTANCE {
      InSlotsAt(h + 3, InstanceOffsets(classOf(m[h + 1])), s);
      if h + 3 <= s {
        OffsetsAreFields(classOf(m[h + 1]), s - (h + 3));
      }
    } else if kind == GCT_OBJECTARRAY {
      InRange(h + 4, m[h + 3], s);
    } else if kind == GCT_POINTERLIST {
      InRange(h + 2, m[h + 1], s);
    }
  }

  /** The cells that copying follows: all but the references of weak objects. */
  lemma ScanSlotsAre(classOf: Cell -> Class, m: seq<Cell>, h: nat, s: nat)
    requires h + 1 < |m| && (KindOf(m[h]) == GCT_OBJECTARRAY ==> h + 3 < |m|)
    requires HasMonitorCell(KindOf(m[h])) ==> h + 2 < |m|
    ensures s in ScanSlots(classOf, m, h)
            <==> (IsReference(classOf, m, h, s) && KindOf(m[h]) !in {GCT_WEAKPOINTERLIST, GCT_WEAKREFERENCE})
                 || IsLockCell(m, h, s) || IsQueueCell(m, h, s)
  {
    PointerSlotsAre(classOf, m, h, s);
    hide KindOf, HasPointerField, PointerSlots;
  }
}
