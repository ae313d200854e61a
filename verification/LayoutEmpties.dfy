/** Two empty records of one type never share an address, at whatever depth they are -- unless a
    base that holds one does not fit the record over it. `MisfitsDecide`: the types around a record
    keep their empty records apart if and only if it is no such record.
  */
module LayoutEmpties {
  import opened Wrappers
  import opened Layout
  import opened LayoutSafety

  ghost predicate NoRepeats(empties: seq<Empty>) {
    forall i, j {:trigger empties[i], empties[j]} :: 0 <= i < j < |empties| ==> empties[i] != empties[j]
  }

  ghost predicate Below(empties: seq<Empty>, bound: nat) {
    forall one <- empties :: one.at < bound
  }

  ghost predicate Misses(empties: seq<Empty>, taken: set<Empty>) {
    forall one <- empties :: one !in taken
  }

  /** The records under a record, base by base. */
  function Bases(r: Record): set<nat> {
    if r.base == None then {} else {r.base.value.name} + Bases(r.base.value)
  }

  /** A base outside the record over it, with an empty record inside. */
  ghost predicate Misfits(r: Record) {
    !BaseFits(r) && EmptiesIn(r.base.value) != []
  }

  /** No record inside, but in a union, is such a one or its own base; `excused` is not asked. */
  ghost predicate SoundBut(t: Type, excused: Option<Record>)
    decreases t
  {
    match t
    case ArrayOf(element, _) => SoundBut(element, excused)
    case Held(record) => SoundRecordBut(record, excused)
    case _ => true
  }

  ghost predicate SoundRecordBut(r: Record, excused: Option<Record>)
    decreases r
  {
    Some(r) == excused || r.kind == Union ||
      (!Misfits(r) && r.name !in Bases(r) && (r.base.Some? ==> SoundRecordBut(r.base.value, excused)) && SoundFieldsBut(r.fields, excused))
  }

  ghost predicate SoundFieldsBut(fields: Types, excused: Option<Record>)
    decreases fields
  {
    fields.More? ==> SoundBut(fields.first, excused) && SoundFieldsBut(fields.rest, excused)
  }

  ghost predicate Sound(t: Type) {
    SoundBut(t, None)
  }

  ghost predicate SoundRecord(r: Record) {
    SoundRecordBut(r, None)
  }

  ghost predicate SoundFields(fields: Types) {
    SoundFieldsBut(fields, None)
  }

  lemma ShiftedTwice(empties: seq<Empty>, first: nat, second: nat)
    ensures Shifted(Shifted(empties, first), second) == Shifted(empties, first + second)
  {
  }

  lemma ShiftedSum(first: seq<Empty>, second: seq<Empty>, further: nat)
    ensures Shifted(first + second, further) == Shifted(first, further) + Shifted(second, further)
  {
  }

  /** Looking only where an empty record is finds them all. */
  lemma {:induction false} NothingToFind(t: Type)
    requires !HoldsEmpty(t)
    ensures EmptiesOf(t) == []
    decreases t, 1
  {
    match t
    case ArrayOf(element, length) =>
      if length > 0 {
        NothingToFind(element);
      }
      ElementsOfNothing(element, length);
    case Held(record) => NothingInside(record);
    case Scalar(_) =>
    case Pointer =>
  }

  lemma {:induction false} NothingInside(r: Record)
    requires !InsideIsEmpty(r)
    ensures EmptiesIn(r) == []
    decreases r, 0
  {
    if r.kind != Union {
      Unfolds(r);
      assert !RecordLayout(r).holdsEmpty;
      if r.base.Some? {
        NothingInside(r.base.value);
      }
      NothingInFields(r.fields, LayoutOf(r).offsets);
    }
  }

  lemma {:induction false} NothingInFields(fields: Types, offsets: seq<nat>)
    requires !AnyHoldsEmpty(fields)
    ensures EmptiesOfFields(fields, offsets) == []
    decreases fields, 1
  {
    if fields.More? && offsets != [] {
      NothingToFind(fields.first);
      NothingInFields(fields.rest, offsets[1..]);
    }
  }

  lemma ShiftedApart(empties: seq<Empty>, further: nat, bound: nat)
    requires NoRepeats(empties) && Below(empties, bound)
    ensures NoRepeats(Shifted(empties, further)) && Below(Shifted(empties, further), bound + further)
    ensures forall one <- Shifted(empties, further) :: further <= one.at
  {
  }

  lemma Together(first: seq<Empty>, second: seq<Empty>)
    requires NoRepeats(first) && NoRepeats(second) && Misses(second, ToSet(first))
    ensures NoRepeats(first + second) && ToSet(first + second) == ToSet(first) + ToSet(second)
  {
    forall i, j | 0 <= i < j < |first + second|
      ensures (first + second)[i] != (first + second)[j]
    {
      if i < |first| <= j {
        assert first[i] in first && second[j - |first|] in second;
      }
    }
  }

  /** A record's own, its base's and its fields'. */
  lemma AllTogether(own: seq<Empty>, under: seq<Empty>, held: seq<Empty>, data: nat, bound: nat)
    requires own == [] || (|own| == 1 && own[0].at == 0 && Misses(under + held, ToSet(own)))
    requires NoRepeats(under) && NoRepeats(held) && Misses(held, ToSet(under))
    requires Below(under, bound) && Below(held, data) && data <= bound && 0 < bound
    ensures NoRepeats(own + under + held) && Below(own + under + held, bound)
  {
    hide Misses;
    Together(under, held);
    Together(own, under + held) by { assert own == [] ==> Misses(under + held, ToSet(own)) by { OfNone(under + held); } }
    assert own + under + held == own + (under + held);
  }

  lemma OfNone(empties: seq<Empty>)
    ensures Misses(empties, ToSet([]))
  {
  }

  lemma {:induction false} EmptiesAreApart(t: Type)
    requires Sound(t)
    ensures NoRepeats(EmptiesOf(t)) && Below(EmptiesOf(t), SizeOf(t))
    decreases t, 2
  {
    match t
    case ArrayOf(element, length) => ElementsAreApart(element, length);
    case Held(record) => InsideIsApart(record);
    case Scalar(_) =>
    case Pointer =>
  }

  lemma {:induction false} ElementsAreApart(element: Type, length: nat)
    requires Sound(element)
    ensures NoRepeats(EmptiesOfElements(element, length)) && Below(EmptiesOfElements(element, length), SizeOf(element) * length)
    decreases element, 3, length
  {
    hide NoRepeats, Below, SizeOf, EmptiesOf;
    if length > 0 {
      var before, size := EmptiesOfElements(element, length - 1), SizeOf(element);
      EmptiesAreApart(element);
      ElementsAreApart(element, length - 1);
      OneMore(size, length);
      ShiftedApart(EmptiesOf(element), (length - 1) * size, size);
      OneAfter(before, Shifted(EmptiesOf(element), (length - 1) * size), (length - 1) * size, length * size);
    } else {
      NoneIsApart(SizeOf(element) * length);
    }
  }

  lemma NoneIsApart(bound: nat)
    ensures NoRepeats([]) && Below([], bound)
  {
  }

  lemma OneMore(size: nat, length: nat)
    requires 0 < length
    ensures size * length == (length - 1) * size + size == length * size && size * (length - 1) == (length - 1) * size
  {
  }

  lemma OneAfter(before: seq<Empty>, more: seq<Empty>, middle: nat, bound: nat)
    requires NoRepeats(before) && Below(before, middle) && middle <= bound
    requires NoRepeats(more) && Below(more, bound) && (forall one <- more :: middle <= one.at)
    ensures NoRepeats(before + more) && Below(before + more, bound)
  {
    Together(before, more);
  }

  lemma {:induction false} InsideIsApart(r: Record)
    requires SoundRecord(r)
    ensures NoRepeats(EmptiesIn(r)) && Below(EmptiesIn(r), LayoutOf(r).size)
    decreases r, 1
  {
    hide NoRepeats, AlignUp, Misfits, LayoutOf, EmptiesOfFields, PlaceFields, AfterBase, Below, Misses, ToSet, Floor;
    if r.kind == Union {
      NotLookedInside(r);
    } else {
      var l, begun := LayoutOf(r), AfterBase(r);
      Unfolds(r);
      UnderIsApart(r);
      FieldsAreApart(begun, r.fields);
      LayoutIsSound(r);
      assert l.offsets[0..] == l.offsets;
      if l.empty {
        NotAmongBases(r);
      }
      AllTogether(if l.empty then [Empty(r.name, 0)] else [],
                  if r.base.Some? then Shifted(EmptiesIn(r.base.value), l.baseOffset) else [],
                  EmptiesOfFields(r.fields, l.offsets), l.dataSize, l.size);
    }
  }

  lemma NotLookedInside(r: Record)
    requires r.kind == Union
    ensures NoRepeats(EmptiesIn(r)) && Below(EmptiesIn(r), LayoutOf(r).size)
  {
  }

  lemma Unfolds(r: Record)
    requires r.kind != Union
    ensures LayoutOf(r) == RecordLayout(r) && AfterBase(r).offsets == []
    ensures EmptiesIn(r) == (if LayoutOf(r).empty then [Empty(r.name, 0)] else [])
                            + (if r.base.Some? then Shifted(EmptiesIn(r.base.value), LayoutOf(r).baseOffset) else [])
                            + EmptiesOfFields(r.fields, LayoutOf(r).offsets)
  {
  }

  lemma {:induction false} UnderIsApart(r: Record)
    requires SoundRecord(r) && r.kind != Union
    ensures var under := if r.base.Some? then Shifted(EmptiesIn(r.base.value), BaseOffset(r)) else [];
            NoRepeats(under) && Below(under, LayoutOf(r).size) && AfterBase(r).taken == ToSet(under)
    decreases r, 0
  {
    if r.base.Some? {
      InsideIsApart(r.base.value);
      ShiftedApart(EmptiesIn(r.base.value), BaseOffset(r), LayoutOf(r.base.value).size);
      assert BaseFits(r) || EmptiesIn(r.base.value) == [];
    }
  }

  /** The empty records inside an empty one are its bases, and it is none of them. */
  lemma NotAmongBases(r: Record)
    requires r.kind != Union && LayoutOf(r).empty && r.name !in Bases(r)
    ensures var under := if r.base.Some? then Shifted(EmptiesIn(r.base.value), LayoutOf(r).baseOffset) else [];
            Misses(under + EmptiesOfFields(r.fields, LayoutOf(r).offsets), ToSet([Empty(r.name, 0)]))
  {
    if r.base.Some? {
      EmptyHoldsBases(r.base.value);
    }
  }

  lemma {:induction false} EmptyHoldsBases(r: Record)
    requires LayoutOf(r).empty
    ensures forall one <- EmptiesIn(r) :: one.name == r.name || one.name in Bases(r)
    decreases r
  {
    if r.base.Some? {
      EmptyHoldsBases(r.base.value);
    }
  }

  lemma {:induction false} FieldsAreApart(p: Placing, fields: Types)
    requires SoundFields(fields)
    ensures var later := PlaceFields(p, fields);
            && |p.offsets| <= |later.offsets|
            && var held := EmptiesOfFields(fields, later.offsets[|p.offsets|..]);
               NoRepeats(held) && Below(held, later.data) && Misses(held, p.taken)
    decreases fields, 3
  {
    if fields.More? {
      var t, next, later, n := fields.first, PlaceField(p, fields.first), PlaceFields(p, fields), |p.offsets|;
      var at := next.offsets[n];
      var here := Shifted(EmptiesOf(t), at);
      EmptiesAreApart(t);
      ShiftedApart(EmptiesOf(t), at, SizeOf(t));
      PlaceIsClear(EmptiesOf(t), AlignOf(t), AlignUp(p.data, AlignOf(t)), p.taken);
      NoneTaken(EmptiesOf(t), at, p.taken);
      FieldsAreApart(next, fields.rest);
      FieldsGo(next, fields.rest);
      var rest := later.offsets[n + 1..];
      assert later.offsets[n..][0] == at && later.offsets[n..][1..] == rest;
      Together(here, EmptiesOfFields(fields.rest, rest));
    }
  }

  lemma NoneTaken(empties: seq<Empty>, at: nat, taken: set<Empty>)
    requires !Collides(empties, at, taken)
    ensures Misses(Shifted(empties, at), taken)
  {
    forall one <- Shifted(empties, at)
      ensures one !in taken
    {
      var i :| 0 <= i < |empties| && Shifted(empties, at)[i] == one;
      assert empties[i] in empties;
    }
  }

  // ----- Where every base fits -----

  /** No array inside has no elements. */
  predicate Lengthy(t: Type) {
    match t
    case ArrayOf(element, length) => length > 0 && Lengthy(element)
    case Held(record) => LengthyRecord(record)
    case _ => true
  }

  predicate LengthyRecord(r: Record) {
    (r.base.Some? ==> LengthyRecord(r.base.value)) && LengthyFields(r.fields)
  }

  predicate LengthyFields(fields: Types) {
    fields.More? ==> Lengthy(fields.first) && LengthyFields(fields.rest)
  }

  /** No record inside, but in a union, is among its own bases. */
  predicate Founded(t: Type) {
    match t
    case ArrayOf(element, _) => Founded(element)
    case Held(record) => FoundedRecord(record)
    case _ => true
  }

  predicate FoundedRecord(r: Record) {
    r.kind != Union ==> r.name !in Bases(r) && (r.base.Some? ==> FoundedRecord(r.base.value)) && FoundedFields(r.fields)
  }

  predicate FoundedFields(fields: Types) {
    fields.More? ==> Founded(fields.first) && FoundedFields(fields.rest)
  }

  /** With no array of nothing, what has no data is empty. */
  lemma {:induction false} LengthyHasBytes(t: Type)
    requires Lengthy(t)
    ensures 0 < SizeOf(t)
    decreases t, 1
  {
    match t
    case ArrayOf(element, length) =>
      LengthyHasBytes(element);
      TimesGrows(SizeOf(element), length);
    case Held(record) => LayoutIsSound(record);
    case Scalar(_) =>
    case Pointer =>
  }

  lemma {:induction false} NoDataIsEmpty(r: Record)
    requires LengthyRecord(r)
    ensures LayoutOf(r).dataSize == 0 ==> LayoutOf(r).empty
    decreases r
  {
    if r.kind != Union {
      var begun := AfterBase(r);
      FieldsGo(begun, r.fields);
      if r.fields.More? {
        LengthyHasBytes(r.fields.first);
        FieldsGo(PlaceField(begun, r.fields.first), r.fields.rest);
      }
      if r.kind == Class && r.base.Some? {
        LayoutIsSound(r.base.value);
      }
      if r.kind == Class {
        PointerIsData(r);
      } else if r.base.Some? {
        NoDataIsEmpty(r.base.value);
        LayoutIsSound(r.base.value);
      }
    } else {
      LayoutIsSound(r);
      assert LayoutOf(r).dataSize == LayoutOf(r).size;
    }
  }

  /** So every base fits, and no two empty records share an address. */
  lemma {:induction false} LengthyIsSound(t: Type)
    requires Lengthy(t) && Founded(t)
    ensures Sound(t)
    decreases t
  {
    match t
    case ArrayOf(element, _) => LengthyIsSound(element);
    case Held(record) => LengthyRecordIsSound(record);
    case Scalar(_) =>
    case Pointer =>
  }

  lemma {:induction false} LengthyRecordIsSound(r: Record)
    requires LengthyRecord(r) && FoundedRecord(r)
    ensures SoundRecord(r)
    decreases r
  {
    if r.kind != Union {
      if r.base.Some? {
        LengthyRecordIsSound(r.base.value);
        NoDataIsEmpty(r.base.value);
        BaseFitsExactly(r);
      }
      LengthyFieldsAreSound(r.fields);
    }
  }

  lemma {:induction false} LengthyFieldsAreSound(fields: Types)
    requires LengthyFields(fields) && FoundedFields(fields)
    ensures SoundFields(fields)
    decreases fields
  {
    if fields.More? {
      LengthyIsSound(fields.first);
      LengthyFieldsAreSound(fields.rest);
    }
  }

  // ----- Where a base does not fit -----

  lemma HeldUnfolds(r: Record)
    ensures SizeOf(Held(r)) == LayoutOf(r).size && AlignOf(Held(r)) == LayoutOf(r).align && EmptiesOf(Held(r)) == EmptiesIn(r)
  {
  }

  lemma FieldUnfolds(p: Placing, t: Type, rest: Types)
    requires !Collides(EmptiesOf(t), AlignUp(p.data, AlignOf(t)), p.taken)
    ensures var at := AlignUp(p.data, AlignOf(t));
            PlaceFields(p, More(t, rest)) ==
            PlaceFields(Placing(at + SizeOf(t), Larger(p.align, AlignOf(t)), p.taken + ToSet(Shifted(EmptiesOf(t), at)), p.offsets + [at]), rest)
  {
    hide EmptiesOf, AlignUp, SizeOf, AlignOf, Place, Collides;
    PlacedAtOnce(EmptiesOf(t), AlignOf(t), AlignUp(p.data, AlignOf(t)), p.taken);
    assert PlaceFields(p, More(t, rest)) == PlaceFields(PlaceField(p, t), rest);
  }

  lemma NothingUnfolds(p: Placing)
    ensures PlaceFields(p, Nothing) == p
  {
  }

  lemma PlacedAtOnce(inside: seq<Empty>, step: Bytes, at: nat, taken: set<Empty>)
    requires !Collides(inside, at, taken)
    ensures Place(inside, step, at, taken) == at
  {
  }

  lemma FieldsUnfold(t: Type, rest: Types, offsets: seq<nat>)
    requires offsets != []
    ensures EmptiesOfFields(More(t, rest), offsets) == Shifted(EmptiesOf(t), offsets[0]) + EmptiesOfFields(rest, offsets[1..])
    ensures EmptiesOfFields(Nothing, offsets[1..]) == []
  {
  }

  lemma SomeAligned()
    ensures AlignUp(0, 1) == 0 && AlignUp(1, 1) == 1 && AlignUp(8, 1) == 8 && AlignUp(1, 8) == 8 && AlignUp(8, 8) == 8 && AlignUp(16, 8) == 16
  {
  }

  /** What has no data and holds an empty record is one, or has one of its bases at 0. */
  lemma {:induction false} NoDataHoldsOne(r: Record) returns (e: Record)
    requires LayoutOf(r).dataSize == 0 && EmptiesIn(r) != [] && SoundRecord(r)
    ensures LayoutOf(e).empty && SoundRecord(e) && EmptiesIn(r)[0] == Empty(e.name, 0)
    decreases r
  {
    hide PlaceFields, EmptiesOfFields, AlignUp, Place;
    LayoutIsSound(r);
    Unfolds(r);
    if LayoutOf(r).empty {
      e := r;
    } else {
      NoDataUnder(r);
      e := NoDataHoldsOne(r.base.value);
    }
  }

  lemma NoDataUnder(r: Record)
    requires r.kind != Union && LayoutOf(r).dataSize == 0 && !LayoutOf(r).empty && EmptiesIn(r) != []
    ensures r.base.Some? && LayoutOf(r.base.value).dataSize == 0 && LayoutOf(r).baseOffset == 0
    ensures EmptiesIn(r) == Shifted(EmptiesIn(r.base.value), 0) && EmptiesIn(r.base.value) != []
  {
    hide LayoutOf, EmptiesIn, PlaceFields, EmptiesOfFields, AlignUp, AfterBase, Floor;
    Unfolds(r);
    FieldsGo(AfterBase(r), r.fields);
    FieldsMoveOn(AfterBase(r), r.fields);
    NoBytesHoldNone(r.fields, LayoutOf(r).offsets);
    if r.base.Some? {
      NoDataAtZero(r);
    }
  }

  lemma NoDataAtZero(r: Record)
    requires r.kind != Union && r.base.Some? && AfterBase(r).data == 0
    ensures LayoutOf(r.base.value).dataSize == 0 && BaseOffset(r) == 0
  {
    hide LayoutOf, EmptiesIn, PlaceFields, AlignUp;
    var base := r.base.value;
    BasePlaced(r);
    LayoutIsSound(base);
    AlignUpIsLeast(OwnPointer(r), LayoutOf(base).align);
    AlignedApart(AlignUp(0, LayoutOf(base).align), 0, LayoutOf(base).align);
    if LayoutOf(base).empty {
      EmptyIsAByte(base);
    }
  }

  lemma {:induction false} NoBytesHoldNone(fields: Types, offsets: seq<nat>)
    requires NoneHasBytes(fields)
    ensures EmptiesOfFields(fields, offsets) == []
    decreases fields
  {
    if fields.More? && offsets != [] {
      NothingHasNoEmpties(fields.first);
      NoBytesHoldNone(fields.rest, offsets[1..]);
    }
  }

  /** A misfit is a vtable pointer, and its base is past it. */
  lemma MisfitLaidOut(r: Record)
    requires Misfits(r)
    ensures var l := LayoutOf(r);
            && l.size == POINTER_SIZE && l.align == POINTER_SIZE && !l.empty
            && EmptiesIn(r) == Shifted(EmptiesIn(r.base.value), POINTER_SIZE) && LayoutOf(r.base.value).dataSize == 0
  {
    hide LayoutOf, EmptiesIn, PlaceFields, EmptiesOfFields, AlignUp;
    BaseFitsExactly(r);
    PastThePointer(r);
    AlignUpIsLeast(POINTER_SIZE, POINTER_SIZE);
    AlignedApart(AlignUp(POINTER_SIZE, POINTER_SIZE), POINTER_SIZE, POINTER_SIZE);
    NoBytesHoldNone(r.fields, LayoutOf(r).offsets);
    Unfolds(r);
  }

  /** A struct of an empty record and a misfit. */
  function Both(e: Record, r: Record): Record {
    Record(0, Struct, None, More(Held(e), More(Held(r), Nothing)), false)
  }

  lemma BothLaidOut(e: Record, r: Record)
    requires LayoutOf(e).empty && SoundRecord(e) && Misfits(r)
    ensures LayoutOf(Both(e, r)).size == 2 * POINTER_SIZE
    ensures EmptiesIn(Both(e, r)) == EmptiesIn(e) + Shifted(EmptiesIn(r), POINTER_SIZE)
  {
    hide LayoutOf, EmptiesIn, PlaceFields, EmptiesOfFields, EmptiesOf, SizeOf, AlignOf, Place, AlignUp, SoundRecordBut, Misfits;
    var both := Both(e, r);
    EmptyIsAByte(e);
    InsideIsApart(e);
    MisfitLaidOut(r);
    SomeAligned();
    Unfolds(both);
    HeldUnfolds(e);
    HeldUnfolds(r);
    var begun := AfterBase(both);
    var inE, inR := EmptiesIn(e), EmptiesIn(r);
    ShiftedByNone(inE);
    NoneCollide(inE);
    PastCollide(inE, inR);
    FieldUnfolds(begun, Held(e), both.fields.rest);
    var first := Placing(1, 1, {} + ToSet(inE), [] + [0]);
    assert PlaceFields(begun, both.fields) == PlaceFields(first, both.fields.rest);
    FieldUnfolds(first, Held(r), Nothing);
    assert [] + [0] == [0];
    var second := Placing(16, 8, first.taken + ToSet(Shifted(inR, 8)), [0] + [8]);
    assert PlaceFields(begun, both.fields) == PlaceFields(second, Nothing);
    NothingUnfolds(second);
    FieldsUnfold(Held(e), both.fields.rest, [0] + [8]);
    assert ([0] + [8])[1..] == [8];
    FieldsUnfold(Held(r), Nothing, [8]);
    assert EmptiesOfFields(both.fields, [0] + [8]) == inE + (Shifted(inR, 8) + []);
  }

  lemma ShiftedByNone(empties: seq<Empty>)
    ensures Shifted(empties, 0) == empties
  {
  }

  lemma NoneCollide(empties: seq<Empty>)
    ensures !Collides(empties, 0, {})
  {
  }

  lemma PastCollide(under: seq<Empty>, inside: seq<Empty>)
    requires Below(under, 1)
    ensures !Collides(inside, POINTER_SIZE, {} + ToSet(under))
  {
  }

  lemma EmptyIsFirst(e: Record)
    requires LayoutOf(e).empty
    ensures EmptiesIn(e) != [] && EmptiesIn(e)[0] == Empty(e.name, 0)
  {
  }

  lemma TwoOf(t: Type)
    ensures EmptiesOf(ArrayOf(t, 2)) == EmptiesOf(t) + Shifted(EmptiesOf(t), SizeOf(t))
  {
    var inside, one := EmptiesOf(t), EmptiesOfElements(t, 1);
    ShiftedByNone(inside);
    assert one == EmptiesOfElements(t, 0) + Shifted(inside, 0);
    assert EmptiesOfElements(t, 2) == one + Shifted(inside, SizeOf(t));
  }

  /** What is sound with nothing excused is sound. */
  lemma {:induction false} ExcusesMore(r: Record, excused: Record)
    requires SoundRecord(r)
    ensures SoundRecordBut(r, Some(excused))
    decreases r
  {
    if r.kind != Union {
      if r.base.Some? {
        ExcusesMore(r.base.value, excused);
      }
      ExcusesMoreFields(r.fields, excused);
    }
  }

  lemma {:induction false} ExcusesMoreFields(fields: Types, excused: Record)
    requires SoundFields(fields)
    ensures SoundFieldsBut(fields, Some(excused))
    decreases fields
  {
    if fields.More? {
      ExcusesMoreOf(fields.first, excused);
      ExcusesMoreFields(fields.rest, excused);
    }
  }

  lemma {:induction false} ExcusesMoreOf(t: Type, excused: Record)
    requires Sound(t)
    ensures SoundBut(t, Some(excused))
    decreases t
  {
    match t
    case ArrayOf(element, _) => ExcusesMoreOf(element, excused);
    case Held(record) => ExcusesMore(record, excused);
    case Scalar(_) =>
    case Pointer =>
  }

  /** A sound record needs no excuse. */
  lemma {:induction false} NeedsNoExcuse(t: Type, r: Record)
    requires SoundBut(t, Some(r)) && SoundRecord(r)
    ensures Sound(t)
    decreases t
  {
    match t
    case ArrayOf(element, _) => NeedsNoExcuse(element, r);
    case Held(record) => RecordNeedsNoExcuse(record, r);
    case Scalar(_) =>
    case Pointer =>
  }

  lemma {:induction false} RecordNeedsNoExcuse(record: Record, r: Record)
    requires SoundRecordBut(record, Some(r)) && SoundRecord(r)
    ensures SoundRecord(record)
    decreases record
  {
    if record != r && record.kind != Union {
      if record.base.Some? {
        RecordNeedsNoExcuse(record.base.value, r);
      }
      FieldsNeedNoExcuse(record.fields, r);
    }
  }

  lemma {:induction false} FieldsNeedNoExcuse(fields: Types, r: Record)
    requires SoundFieldsBut(fields, Some(r)) && SoundRecord(r)
    ensures SoundFields(fields)
    decreases fields
  {
    if fields.More? {
      NeedsNoExcuse(fields.first, r);
      FieldsNeedNoExcuse(fields.rest, r);
    }
  }

  lemma BothIsSound(e: Record, r: Record)
    requires SoundRecord(e)
    ensures SoundBut(ArrayOf(Held(Both(e, r)), 2), Some(r))
  {
    hide Misfits;
    ExcusesMore(e, r);
    var both := Both(e, r);
    assert !Misfits(both) by { NoBaseNoMisfit(both); }
    assert SoundRecordBut(r, Some(r)) && SoundBut(Held(r), Some(r)) && SoundFieldsBut(Nothing, Some(r));
    assert SoundFieldsBut(More(Held(r), Nothing), Some(r));
    assert SoundBut(Held(e), Some(r)) && SoundFieldsBut(both.fields, Some(r));
    assert SoundRecordBut(both, Some(r)) && SoundBut(Held(both), Some(r));
  }

  lemma NoBaseNoMisfit(r: Record)
    requires r.base == None
    ensures !Misfits(r)
  {
  }

  /** Two of that struct, one after the other: in the first the misfit ends where the second begins,
      so its base's empty record is at the second's own. */
  lemma MisfitsMeet(r: Record) returns (t: Type)
    requires Misfits(r) && SoundRecord(r.base.value)
    ensures SoundBut(t, Some(r)) && !NoRepeats(EmptiesOf(t))
  {
    hide LayoutOf, EmptiesIn, EmptiesOf, SizeOf, SoundRecordBut, Bases;
    MisfitLaidOut(r);
    var e := NoDataHoldsOne(r.base.value);
    BothLaidOut(e, r);
    var both := Both(e, r);
    t := ArrayOf(Held(both), 2);
    BothIsSound(e, r);
    EmptyIsFirst(e);
    HeldUnfolds(both);
    TwoOf(Held(both));
    var inside, two := EmptiesIn(both), EmptiesOf(t);
    var k := |EmptiesIn(e)|;
    assert inside[k] == Empty(e.name, 16);
    assert two[k] == inside[k] && two[|inside|] == Empty(inside[0].name, inside[0].at + 16);
  }

  // ----- The least record a base does not fit -----

  /** A struct of nothing. */
  function Bare(): Record {
    Record(1, Struct, None, Nothing, false)
  }

  /** Over it, a struct with an array of no elements: no data, and by that array not empty. */
  function NoElements(): Record {
    Record(2, Struct, Some(Bare()), More(ArrayOf(Scalar(1), 0), Nothing), false)
  }

  /** A class over that one, with no fields of its own. */
  function OverNoElements(): Record {
    Record(3, Class, Some(NoElements()), Nothing, false)
  }

  lemma BareLaidOut()
    ensures var l := LayoutOf(Bare()); l.empty && l.size == 1 && l.align == 1 && l.dataSize == 0 && !l.dynamic
    ensures EmptiesIn(Bare()) == [Empty(1, 0)] && SoundRecord(Bare()) && Bases(Bare()) == {}
  {
  }

  lemma NoElementsLaidOut()
    ensures var l := LayoutOf(NoElements()); l.dataSize == 0 && !l.empty && !l.dynamic && EmptiesIn(NoElements()) != []
    ensures SoundRecord(NoElements()) && Bases(NoElements()) == {1}
  {
    hide LayoutOf, EmptiesIn, PlaceFields, EmptiesOfFields, EmptiesOf, SizeOf, AlignOf, Place, AlignUp;
    var r, t := NoElements(), ArrayOf(Scalar(1), 0);
    BareLaidOut();
    SomeAligned();
    NoElementsInArray();
    Unfolds(r);
    BasePlaced(r);
    var begun := AfterBase(r);
    assert !SharesPointer(r) && begun.data == 0 && begun.align == 1;
    NothingToShift(begun.taken);
    FieldUnfolds(begun, t, Nothing);
    NothingUnfolds(Placing(0, 1, begun.taken + ToSet(Shifted([], 0)), begun.offsets + [0]));
    BaseFitsExactly(r);
  }

  lemma NoElementsInArray()
    ensures var t := ArrayOf(Scalar(1), 0); SizeOf(t) == 0 && AlignOf(t) == 1 && EmptiesOf(t) == [] && SoundFields(More(t, Nothing))
  {
  }

  lemma NothingToShift(taken: set<Empty>)
    ensures !Collides([], 0, taken) && Shifted([], 0) == []
  {
  }

  lemma OverNoElementsMisfits()
    ensures Misfits(OverNoElements())
  {
    hide LayoutOf, EmptiesIn, PlaceFields;
    NoElementsLaidOut();
    BaseFitsExactly(OverNoElements());
  }

  /** It is a misfit, and around it two equal empty records meet. */
  lemma OverNoElementsMeets() returns (t: Type)
    ensures Misfits(OverNoElements()) && SoundRecord(NoElements())
    ensures SoundBut(t, Some(OverNoElements())) && !NoRepeats(EmptiesOf(t))
  {
    hide LayoutOf, EmptiesIn, EmptiesOf, Misfits, SoundRecordBut, SoundBut;
    NoElementsLaidOut();
    OverNoElementsMisfits();
    t := MisfitsMeet(OverNoElements());
  }

  /** Every type around a record, whose other records are sound, keeps its empty records apart if
      and only if the record is no misfit. */
  lemma MisfitsDecide(r: Record)
    requires r.kind != Union ==> r.name !in Bases(r) && (r.base.Some? ==> SoundRecord(r.base.value)) && SoundFields(r.fields)
    ensures (forall t: Type :: SoundBut(t, Some(r)) ==> NoRepeats(EmptiesOf(t))) <==> !Misfits(r)
  {
    if Misfits(r) {
      var t := MisfitsMeet(r);
    } else {
      forall t: Type | SoundBut(t, Some(r))
        ensures NoRepeats(EmptiesOf(t))
      {
        NeedsNoExcuse(t, r);
        EmptiesAreApart(t);
      }
    }
  }
}
