/** What a layout promises: everything in a type has bytes of its own, aligned and inside it; a
    base fits the record over it, and two empty records of one type never share an address.
  */
module LayoutSafety {
  import opened Wrappers
  import opened Layout

  // ----- Alignment -----

  lemma AlignUpIsLeast(value: nat, alignment: Bytes)
    ensures var up := AlignUp(value, alignment);
            value <= up < value + alignment && up % alignment == 0
  {
    assert alignment == 1 || alignment == 2 || alignment == 4 || alignment == 8;
  }

  /** Alignments divide the larger ones. */
  lemma AlignedLess(value: nat, larger: Bytes, smaller: Bytes)
    requires value % larger == 0 && smaller <= larger
    ensures value % smaller == 0
  {
    if smaller != larger {
      if larger == 8 {
        Eighths(value);
      } else if larger == 4 {
        Quarters(value);
      }
      if smaller == 1 {
        Ones(value);
      }
    }
  }

  lemma Eighths(value: nat)
    requires value % 8 == 0
    ensures value % 4 == 0 && value % 2 == 0
  {
    var k := value / 8;
    Fours(2 * k);
    Twos(4 * k);
  }

  lemma Quarters(value: nat)
    requires value % 4 == 0
    ensures value % 2 == 0
  {
    var k := value / 4;
    Twos(2 * k);
  }

  lemma Fours(k: nat)
    ensures 4 * k % 4 == 0
  {
  }

  lemma Twos(k: nat)
    ensures 2 * k % 2 == 0
  {
  }

  lemma Ones(value: nat)
    ensures value % 1 == 0
  {
  }

  lemma AlignedSum(first: nat, second: nat, alignment: Bytes)
    requires first % alignment == 0 && second % alignment == 0
    ensures (first + second) % alignment == 0
  {
    assert alignment == 1 || alignment == 2 || alignment == 4 || alignment == 8;
  }

  lemma {:induction false} AlignedTimes(size: nat, count: nat, alignment: Bytes)
    requires size % alignment == 0
    ensures (size * count) % alignment == 0
    decreases count
  {
    if count > 0 {
      AlignedTimes(size, count - 1, alignment);
      AlignedSum(size * (count - 1), size, alignment);
      assert size * count == size * (count - 1) + size;
    }
  }

  /** An aligned sum aligns as its parts. */
  lemma AlignUpAfter(start: nat, value: nat, smaller: Bytes, end: nat, larger: Bytes)
    requires start % smaller == 0 && smaller <= larger && start + value <= end
    ensures start + AlignUp(value, smaller) <= AlignUp(end, larger)
  {
    AlignUpIsLeast(value, smaller);
    AlignUpIsLeast(end, larger);
    AlignedLess(AlignUp(end, larger), larger, smaller);
    AlignedSum(start, AlignUp(value, smaller), smaller);
    AlignedApart(start + AlignUp(value, smaller), AlignUp(end, larger), smaller);
  }

  lemma AlignedApart(first: nat, second: nat, alignment: Bytes)
    requires first % alignment == 0 && second % alignment == 0 && first < second + alignment
    ensures first <= second
  {
    assert alignment == 1 || alignment == 2 || alignment == 4 || alignment == 8;
  }

  // ----- Placing -----

  lemma {:induction false} PlaceIsClear(inside: seq<Empty>, step: Bytes, at: nat, taken: set<Empty>)
    ensures !Collides(inside, Place(inside, step, at, taken), taken)
    ensures at % step == 0 ==> Place(inside, step, at, taken) % step == 0
    decreases Bound(taken) - at
  {
    if Collides(inside, at, taken) {
      if at % step == 0 {
        AlignedSum(at, step, step);
      }
      PlaceIsClear(inside, step, at + step, taken);
    }
  }

  /** It is the least such offset. */
  lemma {:induction false} PlaceIsLeast(inside: seq<Empty>, step: Bytes, at: nat, taken: set<Empty>, other: nat)
    requires at % step == 0 && other % step == 0 && at <= other < Place(inside, step, at, taken)
    ensures Collides(inside, other, taken)
    decreases Bound(taken) - at
  {
    if Collides(inside, at, taken) && at != other {
      AlignedSum(at, step, step);
      AlignedApart(at + step, other, step);
      PlaceIsLeast(inside, step, at + step, taken, other);
    }
  }

  lemma PlaceAmongNone(inside: seq<Empty>, step: Bytes, at: nat)
    ensures Place(inside, step, at, {}) == at
  {
  }

  lemma BasePlaced(r: Record)
    requires r.base.Some?
    ensures BaseOffset(r) == if SharesPointer(r) || LayoutOf(r.base.value).empty then 0
                             else AlignUp(OwnPointer(r), LayoutOf(r.base.value).align)
    ensures BaseOffset(r) % LayoutOf(r.base.value).align == 0
  {
    AlignUpIsLeast(OwnPointer(r), LayoutOf(r.base.value).align);
  }

  // ----- Sizes -----

  /** What the fields do to what is placed. */
  ghost predicate Goes(p: Placing, later: Placing) {
    p.data <= later.data && p.align <= later.align && p.taken <= later.taken && p.offsets <= later.offsets
  }

  lemma {:induction false} FieldsGo(p: Placing, fields: Types)
    ensures Goes(p, PlaceFields(p, fields)) && |PlaceFields(p, fields).offsets| == |p.offsets| + Count(fields)
    decreases fields
  {
    if fields.More? {
      AlignUpIsLeast(p.data, AlignOf(fields.first));
      FieldsGo(PlaceField(p, fields.first), fields.rest);
    }
  }

  lemma PointerIsData(r: Record)
    requires r.kind == Class && (SharesPointer(r) ==> POINTER_SIZE <= LayoutOf(r.base.value).dataSize)
    ensures POINTER_SIZE <= AfterBase(r).data
  {
    if r.base.Some? && !SharesPointer(r) {
      BasePlaced(r);
      AlignUpIsLeast(OwnPointer(r), LayoutOf(r.base.value).align);
      assert OwnPointer(r) == POINTER_SIZE <= BaseOffset(r) || LayoutOf(r.base.value).empty;
    }
  }

  lemma LayoutIsSound(r: Record)
    ensures var l := LayoutOf(r);
            l.size % l.align == 0 && 0 < l.size && l.dataSize <= l.size && (l.dynamic ==> POINTER_SIZE <= l.dataSize)
    ensures r.kind != Union ==> |LayoutOf(r).offsets| == Count(r.fields)
    decreases r
  {
    hide AlignUp, PlaceFields, Place, EmptiesIn, EmptiesOf, Largest, SizeOf, AlignOf;
    if r.kind == Union {
      var (largest, align) := Largest(r.fields, 0, 1);
      AlignUpIsLeast(largest, align);
    } else {
      if r.base.Some? {
        LayoutIsSound(r.base.value);
      }
      RecordIsSound(r);
    }
  }

  lemma RecordIsSound(r: Record)
    requires r.kind != Union && (r.kind == Class ==> SharesPointer(r) ==> POINTER_SIZE <= LayoutOf(r.base.value).dataSize)
    ensures var l := RecordLayout(r);
            && l.size % l.align == 0 && 0 < l.size && l.dataSize <= l.size && (l.dynamic ==> POINTER_SIZE <= l.dataSize)
            && |l.offsets| == Count(r.fields)
  {
    hide AlignUp, PlaceFields, Place, EmptiesIn, EmptiesOf, SizeOf, AlignOf;
    var placed := PlaceFields(AfterBase(r), r.fields);
    FieldsGo(AfterBase(r), r.fields);
    AlignUpIsLeast(if placed.data > Floor(r) then placed.data else Floor(r), placed.align);
    NothingPlaced(r);
    if r.kind == Class {
      PointerIsData(r);
    }
    OneTurn(placed.align);
  }

  lemma NothingPlaced(r: Record)
    ensures AfterBase(r).offsets == []
  {
  }

  lemma OneTurn(alignment: Bytes)
    ensures alignment % alignment == 0
  {
    assert alignment == 1 || alignment == 2 || alignment == 4 || alignment == 8;
  }

  /** An empty record is a byte with no data. */
  lemma {:induction false} EmptyIsAByte(r: Record)
    requires LayoutOf(r).empty
    ensures LayoutOf(r).size == 1 && LayoutOf(r).align == 1 && LayoutOf(r).dataSize == 0 && !LayoutOf(r).dynamic
    decreases r
  {
    if r.base.Some? {
      EmptyIsAByte(r.base.value);
      BasePlaced(r);
    }
    AlignUpIsLeast(Floor(r), 1);
    assert PlaceFields(AfterBase(r), r.fields) == AfterBase(r);
  }

  // ----- A base fits -----

  ghost predicate BaseFits(r: Record) {
    r.kind == Union || r.base == None || LayoutOf(r).baseOffset + LayoutOf(r.base.value).size <= LayoutOf(r).size
  }

  ghost predicate NoneHasBytes(fields: Types) {
    fields == Nothing || (SizeOf(fields.first) == 0 && NoneHasBytes(fields.rest))
  }

  /** Past a vtable pointer of its own, a base whose data are arrays of nothing, and then nothing
      but more of them. */
  ghost predicate HoldsOnlyNothing(r: Record) {
    && OwnPointer(r) > 0 && r.base.Some? && !LayoutOf(r.base.value).empty && !r.base.value.pod
    && LayoutOf(r.base.value).dataSize == 0 && NoneHasBytes(r.fields)
  }

  lemma SizeFromData(r: Record)
    ensures var l := LayoutOf(r);
            l.size == if l.dataSize == 0 then l.align else AlignUp(l.dataSize, l.align)
  {
    LayoutIsSound(r);
    var l := LayoutOf(r);
    AlignUpIsLeast(l.dataSize, l.align);
    if r.kind == Union {
      AlignedApart(AlignUp(l.dataSize, l.align), l.size, l.align);
    } else {
      FloorIsAByte(r);
      AlignUpIsLeast(1, l.align);
    }
  }

  lemma FloorIsAByte(r: Record)
    ensures Floor(r) <= 1
  {
    if r.base.Some? && !SharesPointer(r) && LayoutOf(r.base.value).empty {
      EmptyIsAByte(r.base.value);
      BasePlaced(r);
    }
  }

  lemma {:induction false} NothingHasNoEmpties(t: Type)
    requires SizeOf(t) == 0
    ensures EmptiesOf(t) == []
    decreases t
  {
    match t
    case Scalar(_) =>
    case Pointer =>
    case ArrayOf(element, length) =>
      if length > 0 {
        TimesGrows(SizeOf(element), length);
        NothingHasNoEmpties(element);
      }
      ElementsOfNothing(element, length);
    case Held(record) => LayoutIsSound(record);
  }

  lemma TimesGrows(size: nat, length: nat)
    ensures size == 0 || size * length >= length
  {
  }

  lemma {:induction false} ElementsOfNothing(element: Type, length: nat)
    requires length == 0 || EmptiesOf(element) == []
    ensures EmptiesOfElements(element, length) == []
    decreases length
  {
    if length > 0 {
      ElementsOfNothing(element, length - 1);
    }
  }

  /** Fields move the data on exactly when one of them has bytes. */
  lemma {:induction false} FieldsMoveOn(p: Placing, fields: Types)
    requires p.data % POINTER_SIZE == 0
    ensures PlaceFields(p, fields).data == p.data <==> NoneHasBytes(fields)
    decreases fields
  {
    if fields.More? {
      var align, next := AlignOf(fields.first), PlaceField(p, fields.first);
      AlignUpIsLeast(p.data, align);
      AlignedLess(p.data, POINTER_SIZE, align);
      AlignedApart(AlignUp(p.data, align), p.data, align);
      FieldsGo(next, fields.rest);
      if SizeOf(fields.first) == 0 {
        NothingHasNoEmpties(fields.first);
        assert next.data == p.data;
        FieldsMoveOn(next, fields.rest);
      }
    }
  }

  /** A record holds its base, but for one kind of record. */
  lemma BaseFitsExactly(r: Record)
    requires r.kind != Union && r.base.Some?
    ensures BaseFits(r) <==> !HoldsOnlyNothing(r)
  {
    var l, base := LayoutOf(r), r.base.value;
    var above, begun := LayoutOf(base), AfterBase(r);
    LayoutIsSound(r);
    SizeFromData(r);
    SizeFromData(base);
    LayoutIsSound(base);
    FieldsGo(begun, r.fields);
    BasePlaced(r);
    AlignUpIsLeast(OwnPointer(r), above.align);
    AlignUpIsLeast(l.dataSize, l.align);
    if SharesPointer(r) {
      AlignUpAfter(0, above.dataSize, above.align, l.dataSize, l.align);
    } else if above.empty {
      EmptyIsAByte(base);
    } else if !base.pod {
      if above.dataSize > 0 {
        AlignUpAfter(l.baseOffset, above.dataSize, above.align, l.dataSize, l.align);
      } else {
        NoDataFits(r);
      }
    }
  }

  lemma NoDataFits(r: Record)
    requires r.kind != Union && r.base.Some? && !SharesPointer(r)
    requires var above := LayoutOf(r.base.value); !above.empty && !r.base.value.pod && above.dataSize == 0
    ensures BaseFits(r) <==> !HoldsOnlyNothing(r)
  {
    hide AlignUp, LayoutOf;
    var l, above := LayoutOf(r), LayoutOf(r.base.value);
    SizeFromData(r.base.value);
    LayoutIsSound(r);
    if OwnPointer(r) > 0 {
      PastThePointer(r);
      AlignUpIsLeast(l.dataSize, POINTER_SIZE);
      if NoneHasBytes(r.fields) {
        AlignedApart(l.size, POINTER_SIZE, POINTER_SIZE);
      } else {
        AlignedApart(2 * POINTER_SIZE, l.size, POINTER_SIZE);
      }
    } else {
      NoPointerFits(r);
    }
  }

  lemma PastThePointer(r: Record)
    requires r.kind != Union && r.base.Some? && OwnPointer(r) > 0
    requires var above := LayoutOf(r.base.value); !above.empty && !r.base.value.pod && above.dataSize == 0
    ensures var l := LayoutOf(r);
            && l.baseOffset == POINTER_SIZE && l.align == POINTER_SIZE && l.size == AlignUp(l.dataSize, POINTER_SIZE)
            && POINTER_SIZE <= l.dataSize && (l.dataSize == POINTER_SIZE <==> NoneHasBytes(r.fields))
  {
    var above, begun := LayoutOf(r.base.value), AfterBase(r);
    BasePlaced(r);
    AlignUpIsLeast(POINTER_SIZE, above.align);
    AlignedLess(POINTER_SIZE, POINTER_SIZE, above.align);
    AlignedApart(AlignUp(POINTER_SIZE, above.align), POINTER_SIZE, above.align);
    assert begun.data == POINTER_SIZE && begun.align == POINTER_SIZE;
    FieldsGo(begun, r.fields);
    FieldsMoveOn(begun, r.fields);
    SizeFromData(r);
  }

  lemma NoPointerFits(r: Record)
    requires r.kind != Union && r.base.Some? && OwnPointer(r) == 0 && !SharesPointer(r) && LayoutOf(r.base.value).dataSize == 0
    ensures LayoutOf(r).baseOffset + LayoutOf(r.base.value).align <= LayoutOf(r).size
  {
    var l, above, begun := LayoutOf(r), LayoutOf(r.base.value), AfterBase(r);
    BasePlaced(r);
    AlignUpIsLeast(0, above.align);
    AlignedApart(AlignUp(0, above.align), 0, above.align);
    FieldsGo(begun, r.fields);
    LayoutIsSound(r);
    AlignedApart(l.align, l.size, l.align);
  }
}
