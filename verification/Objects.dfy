/** Heap objects: headers, garbage collection types, and where each type keeps its pointers (garbage.h, class.h). */
module Objects {
  import opened Cells
  import opened FreeList

  /** Garbage collection types (GCT_ObjectType). */
  const GCT_FREE := 0
  const GCT_NOPOINTERS := 1
  const GCT_INSTANCE := 2
  const GCT_ARRAY := 3
  const GCT_OBJECTARRAY := 4
  const GCT_METHODTABLE := 5
  const GCT_POINTERLIST := 6
  const GCT_EXECSTACK := 7
  const GCT_THREAD := 8
  const GCT_MONITOR := 9
  const GCT_WEAKPOINTERLIST := 10
  const GCT_WEAKREFERENCE := 11

  const MHC_UNLOCKED := 0
  const MHC_MONITOR := 3

  /** TYPE of a header: six bits above the static and the mark bit. */
  function KindOf(header: Cell): nat {
    (header / 4) % 64
  }

  /** ISMARKED: the lowest bit of a header. */
  predicate IsMarked(header: Cell) {
    header % 2 == 1
  }

  function WithMark(header: Cell): Cell {
    if IsMarked(header) then header else header + 1
  }

  function WithoutMark(header: Cell): Cell {
    if IsMarked(header) then header - 1 else header
  }

  /** The header of `size` cells with type `kind`, neither marked nor static. */
  function HeaderOf(size: nat, kind: nat): Cell
    requires size < MAX_CELLS && kind < 64
  {
    size * TYPEBITS + kind * 4
  }

  lemma EvenSuccessor(header: int)
    requires header % 2 == 0
    ensures (header + 1) / 256 == header / 256 && (header + 1) / 4 == header / 4
  {
    var half := header / 2;
    EvenSuccessor256(header, half / 128, half % 128);
    EvenSuccessor4(header, half / 2, half % 2);
  }

  lemma EvenSuccessor256(header: int, q: int, r: int)
    requires header == 256 * q + 2 * r && 0 <= r < 128
    ensures (header + 1) / 256 == header / 256
  {
  }

  lemma EvenSuccessor4(header: int, q: int, r: int)
    requires header == 4 * q + 2 * r && 0 <= r < 2
    ensures (header + 1) / 4 == header / 4
  {
  }

  lemma MarkKeepsSizeAndKind(header: Cell)
    ensures SizeOf(WithMark(header)) == SizeOf(header) == SizeOf(WithoutMark(header))
    ensures KindOf(WithMark(header)) == KindOf(header) == KindOf(WithoutMark(header))
    ensures IsMarked(WithMark(header)) && !IsMarked(WithoutMark(header))
    ensures WithoutMark(WithMark(header)) == WithoutMark(header)
  {
    EvenSuccessor(WithoutMark(header));
  }

  /** A field of a class, and a class with its chain of superclasses. */
  datatype Field = Field(isPointer: bool, isStatic: bool, offset: nat)
  datatype Class = NoClass | Class(fields: seq<Field>, superClass: Class)

  /** Offsets of the non-static pointer fields, in the order in which the field tables are walked. */
  function FieldOffsets(fields: seq<Field>): seq<nat> {
    if fields == [] then []
    else (if fields[0].isPointer && !fields[0].isStatic then [fields[0].offset] else []) + FieldOffsets(fields[1..])
  }

  function InstanceOffsets(clazz: Class): seq<nat> {
    if clazz.NoClass? then [] else FieldOffsets(clazz.fields) + InstanceOffsets(clazz.superClass)
  }

  /** How many cells an object of the given class needs behind its two common cells. */
  function Extent(offsets: seq<nat>): nat {
    if offsets == [] then 0
    else
      var rest := Extent(offsets[1..]);
      if rest <= offsets[0] then offsets[0] + 1 else rest
  }

  /** The cells h + base + d for the offsets d. */
  function SlotsAt(base: nat, offsets: seq<nat>): (slots: seq<nat>)
    ensures |slots| == |offsets|
  {
    seq(|offsets|, i requires 0 <= i < |offsets| => base + offsets[i])
  }

  function Range(base: nat, length: nat): (slots: seq<nat>)
    ensures |slots| == length
  {
    seq(length, i => base + i)
  }

  lemma {:induction false} ExtentBounds(offsets: seq<nat>, i: nat)
    requires i < |offsets|
    ensures offsets[i] < Extent(offsets)
  {
    if i > 0 {
      ExtentBounds(offsets[1..], i - 1);
    }
  }

  /**
   * The cells of the object with header h that the marker follows.  Monitors, threads, stacks and method tables have
   * none: what they point to is marked elsewhere.  Weak lists and weak references have none by design.
   */
  function StrongSlots(classOf: Cell -> Class, m: seq<Cell>, h: nat): seq<nat>
    requires h + 1 < |m| && (KindOf(m[h]) == GCT_OBJECTARRAY ==> h + 3 < |m|)
  {
    var kind := KindOf(m[h]);
    if kind == GCT_INSTANCE then SlotsAt(h + 3, InstanceOffsets(classOf(m[h + 1])))
    else if kind == GCT_OBJECTARRAY then Range(h + 4, m[h + 3])
    else if kind == GCT_POINTERLIST then Range(h + 2, m[h + 1])
    else []
  }

  /** Java-level objects have a monitorOrHashCode cell. */
  predicate HasMonitorCell(kind: nat) {
    kind == GCT_INSTANCE || kind == GCT_ARRAY || kind == GCT_OBJECTARRAY || kind == GCT_WEAKREFERENCE
  }
}
