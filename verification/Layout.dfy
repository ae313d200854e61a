/** The layout of types for one target: sizes, alignments, and where the base and the fields of a
    record go -- the single inheritance part of section 2.4 of the Itanium C++ ABI.

    A type is what it holds by value, so it is a tree; `IrLayoutTable.dfy` comes to the trees
    from the table the types are in.
  */
module Layout {
  import opened Wrappers

  /** A scalar's size, which is its alignment too. */
  type Bytes = b: nat | b in {1, 2, 4, 8} witness 1

  const POINTER_SIZE: Bytes := 8

  datatype Kind = Struct | Class | Union

  datatype Type =
    | Scalar(bytes: Bytes)
    | Pointer
    | ArrayOf(element: Type, length: nat)
    | Held(record: Record)

  datatype Types = Nothing | More(first: Type, rest: Types)

  /** A struct, a class or a union. `pod`: POD for the purpose of layout. */
  datatype Record = Record(name: nat, kind: Kind, base: Option<Record>, fields: Types, pod: bool)

  datatype Layout = Layout(
    size: nat, align: Bytes, dataSize: nat, empty: bool, dynamic: bool, holdsEmpty: bool, baseOffset: nat, offsets: seq<nat>)

  /** An empty record somewhere inside. */
  datatype Empty = Empty(name: nat, at: nat)

  function AlignUp(value: nat, alignment: Bytes): nat {
    (value + alignment - 1) / alignment * alignment
  }

  function Larger(a: Bytes, b: Bytes): Bytes {
    if a < b then b else a
  }

  ghost function SizeOf(t: Type): nat
    decreases t, 2
  {
    match t
    case Scalar(bytes) => bytes
    case Pointer => POINTER_SIZE
    case ArrayOf(element, length) => SizeOf(element) * length
    case Held(record) => LayoutOf(record).size
  }

  ghost function AlignOf(t: Type): Bytes
    decreases t, 2
  {
    match t
    case Scalar(bytes) => bytes
    case Pointer => POINTER_SIZE
    case ArrayOf(element, _) => AlignOf(element)
    case Held(record) => LayoutOf(record).align
  }

  ghost function LayoutOf(r: Record): Layout
    decreases r, 1
  {
    if r.kind == Union then UnionLayout(r) else RecordLayout(r)
  }

  // ----- Empty records -----

  /** Further on. */
  function Shifted(empties: seq<Empty>, further: nat): (r: seq<Empty>)
    ensures |r| == |empties|
    ensures forall i {:trigger r[i]} :: 0 <= i < |r| ==> r[i] == Empty(empties[i].name, empties[i].at + further)
  {
    seq(|empties|, i requires 0 <= i < |empties| => Empty(empties[i].name, empties[i].at + further))
  }

  /** Every empty record inside a value of this type, by where it is in it. A union's members are
      not looked inside. */
  ghost function EmptiesOf(t: Type): seq<Empty>
    decreases t, 4
  {
    match t
    case ArrayOf(element, length) => EmptiesOfElements(element, length)
    case Held(record) => EmptiesIn(record)
    case _ => []
  }

  ghost function EmptiesOfElements(element: Type, length: nat): seq<Empty>
    decreases element, 5, length
  {
    if length == 0 then []
    else EmptiesOfElements(element, length - 1) + Shifted(EmptiesOf(element), (length - 1) * SizeOf(element))
  }

  ghost function EmptiesIn(r: Record): seq<Empty>
    decreases r, 3
  {
    if r.kind == Union then []
    else
      var layout := LayoutOf(r);
      (if layout.empty then [Empty(r.name, 0)] else [])
      + (if r.base.Some? then Shifted(EmptiesIn(r.base.value), layout.baseOffset) else [])
      + EmptiesOfFields(r.fields, layout.offsets)
  }

  ghost function EmptiesOfFields(fields: Types, offsets: seq<nat>): seq<Empty>
    decreases fields, 5
  {
    if fields == Nothing || offsets == [] then []
    else Shifted(EmptiesOf(fields.first), offsets[0]) + EmptiesOfFields(fields.rest, offsets[1..])
  }

  ghost predicate HoldsEmpty(t: Type)
    decreases t, 2
  {
    match t
    case ArrayOf(element, length) => length > 0 && HoldsEmpty(element)
    case Held(record) => InsideIsEmpty(record)
    case _ => false
  }

  ghost predicate InsideIsEmpty(r: Record)
    decreases r, 2
  {
    r.kind != Union && LayoutOf(r).holdsEmpty
  }

  ghost predicate AnyHoldsEmpty(fields: Types)
    decreases fields, 5
  {
    fields.More? && (HoldsEmpty(fields.first) || AnyHoldsEmpty(fields.rest))
  }

  // ----- Where a base or a field goes -----

  /** At this offset one of the empty records inside is on another of its type. */
  predicate Collides(inside: seq<Empty>, at: nat, taken: set<Empty>) {
    exists one <- inside :: Empty(one.name, one.at + at) in taken
  }

  /** Past everything taken. */
  ghost function Bound(taken: set<Empty>): (bound: nat)
    ensures forall one <- taken :: one.at < bound
  {
    if taken == {} then 0
    else
      var one :| one in taken;
      var rest := Bound(taken - {one});
      if one.at < rest then rest else one.at + 1
  }

  /** The first offset from `at` on, a multiple of `step` further, at which no empty record inside
      lands on one of its type. */
  ghost function Place(inside: seq<Empty>, step: Bytes, at: nat, taken: set<Empty>): (placed: nat)
    ensures at <= placed
    decreases Bound(taken) - at
  {
    if Collides(inside, at, taken) then Place(inside, step, at + step, taken) else at
  }

  /** What has been placed: the data so far, the alignment, the empty records inside and the
      fields' offsets. */
  datatype Placing = Placing(data: nat, align: Bytes, taken: set<Empty>, offsets: seq<nat>)

  ghost function ToSet(empties: seq<Empty>): set<Empty> {
    set one | one in empties
  }

  ghost function PlaceField(p: Placing, t: Type): Placing
    decreases t, 6
  {
    var at := Place(EmptiesOf(t), AlignOf(t), AlignUp(p.data, AlignOf(t)), p.taken);
    Placing(at + SizeOf(t), Larger(p.align, AlignOf(t)), p.taken + ToSet(Shifted(EmptiesOf(t), at)), p.offsets + [at])
  }

  ghost function PlaceFields(p: Placing, fields: Types): Placing
    decreases fields, 7
  {
    if fields == Nothing then p else PlaceFields(PlaceField(p, fields.first), fields.rest)
  }

  /** A class over a class has its base's vtable pointer. */
  ghost predicate SharesPointer(r: Record)
    decreases r, 0, 0
  {
    r.kind == Class && r.base.Some? && LayoutOf(r.base.value).dynamic
  }

  ghost function OwnPointer(r: Record): nat
    decreases r, 0, 1
  {
    if r.kind == Class && !SharesPointer(r) then POINTER_SIZE else 0
  }

  /** The base is placed first: at 0 the class base whose vtable pointer this is, or an empty one;
      any other past the vtable pointer. */
  ghost function BaseOffset(r: Record): nat
    requires r.base.Some?
    decreases r, 0, 2
  {
    var base := r.base.value;
    var above := LayoutOf(base);
    if SharesPointer(r) then 0
    else Place(EmptiesIn(base), above.align, if above.empty then 0 else AlignUp(OwnPointer(r), above.align), {})
  }

  /** A base that is not POD lends its tail padding. */
  ghost function AfterBase(r: Record): Placing
    decreases r, 0, 3
  {
    var align: Bytes := if OwnPointer(r) > 0 then POINTER_SIZE else 1;
    if r.base == None then Placing(OwnPointer(r), align, {}, [])
    else
      var base, at := r.base.value, BaseOffset(r);
      var above := LayoutOf(base);
      var data := if SharesPointer(r) then above.dataSize
                  else if above.empty then OwnPointer(r)
                  else at + if base.pod then above.size else above.dataSize;
      Placing(data, Larger(align, above.align), ToSet(Shifted(EmptiesIn(base), at)), [])
  }

  /** An empty base takes no data, but the record is as big as it. */
  ghost function Floor(r: Record): nat
    decreases r, 0, 3
  {
    if r.base.Some? && !SharesPointer(r) && LayoutOf(r.base.value).empty then BaseOffset(r) + LayoutOf(r.base.value).size else 0
  }

  ghost function RecordLayout(r: Record): Layout
    decreases r, 0, 4
  {
    var placed := PlaceFields(AfterBase(r), r.fields);
    var size := AlignUp(if placed.data > Floor(r) then placed.data else Floor(r), placed.align);
    var empty := r.kind != Class && r.fields == Nothing && (r.base == None || LayoutOf(r.base.value).empty);
    Layout(if size == 0 then placed.align else size, placed.align, placed.data, empty, r.kind == Class,
           empty || (r.base.Some? && InsideIsEmpty(r.base.value)) || AnyHoldsEmpty(r.fields),
           if r.base.Some? then BaseOffset(r) else 0, placed.offsets)
  }

  /** The fields of a union share their first byte: its data and alignment are the most any of them
      asks for. */
  ghost function UnionLayout(r: Record): Layout
    decreases r, 0, 3
  {
    var (largest, align) := Largest(r.fields, 0, 1);
    var size := AlignUp(largest, align);
    var held := if size == 0 then align else size;
    Layout(held, align, held, false, false, false, 0, seq(Count(r.fields), _ => 0))
  }

  ghost function Largest(fields: Types, size: nat, align: Bytes): (nat, Bytes)
    decreases fields, 5
  {
    if fields == Nothing then (size, align)
    else
      var (held, alignment) := (SizeOf(fields.first), AlignOf(fields.first));
      Largest(fields.rest, if held > size then held else size, Larger(align, alignment))
  }

  function Count(fields: Types): nat {
    if fields == Nothing then 0 else 1 + Count(fields.rest)
  }
}
