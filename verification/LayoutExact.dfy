/** A layout, said without the steps that compute it: where every part of a record lies by what is
    before it, what is its alignment and its size. `LayoutIsExact`: this is what `LayoutOf` gives,
    and nothing else is.
  */
module LayoutExact {
  import opened Wrappers
  import opened Layout
  import opened LayoutSafety
  import LayoutEmpties

  function Listed(fields: Types): seq<Type> {
    if fields == Nothing then [] else [fields.first] + Listed(fields.rest)
  }

  // ----- What is asked of a layout -----

  /** At this offset none of the empty records inside is on one of its type. */
  ghost predicate IsClear(inside: seq<Empty>, at: nat, taken: set<Empty>) {
    forall one <- inside :: Empty(one.name, one.at + at) !in taken
  }

  /** The least aligned and clear offset from `from` on. */
  ghost predicate IsLeast(at: nat, from: nat, align: Bytes, inside: seq<Empty>, taken: set<Empty>) {
    && from <= at && at % align == 0 && IsClear(inside, at, taken)
    && forall other: nat {:trigger IsClear(inside, other, taken)} :: from <= other < at && other % align == 0 ==> !IsClear(inside, other, taken)
  }

  ghost function Moved(empties: seq<Empty>, at: nat): set<Empty> {
    set one <- empties :: Empty(one.name, one.at + at)
  }

  /** The empty records of the base and of the first `i` fields. */
  ghost function Taken(begun: set<Empty>, fields: seq<Type>, offsets: seq<nat>, i: nat): set<Empty>
    requires i <= |fields| && i <= |offsets|
  {
    if i == 0 then begun else Taken(begun, fields, offsets, i - 1) + Moved(EmptiesOf(fields[i - 1]), offsets[i - 1])
  }

  /** Where the field's predecessor ends. */
  ghost function End(begun: nat, fields: seq<Type>, offsets: seq<nat>, i: nat): nat
    requires i <= |fields| && i <= |offsets|
  {
    if i == 0 then begun else offsets[i - 1] + SizeOf(fields[i - 1])
  }

  /** Each field lies at the least offset for it from the end of what is before it. */
  ghost predicate FieldsFollow(begun: nat, taken: set<Empty>, fields: seq<Type>, offsets: seq<nat>) {
    && |offsets| == |fields|
    && forall i {:trigger offsets[i]} :: 0 <= i < |fields| ==>
         IsLeast(offsets[i], End(begun, fields, offsets, i), AlignOf(fields[i]), EmptiesOf(fields[i]), Taken(taken, fields, offsets, i))
  }

  /** A class over a class has its vtable pointer in the base. */
  predicate IsPrimary(r: Record) {
    r.kind == Class && r.base.Some? && r.base.value.kind == Class
  }

  predicate HasPointer(r: Record) {
    r.kind == Class && !IsPrimary(r)
  }

  /** The base: right after the pointer, which no alignment exceeds, and at 0 where there is none or
      the base is empty. */
  ghost predicate BaseFollows(r: Record, l: Layout) {
    if r.base == None then l.baseOffset == 0
    else
      var above := LayoutOf(r.base.value);
      l.baseOffset == if HasPointer(r) && !above.empty then POINTER_SIZE else 0
  }

  /** Where the base's data end, or the pointer: fields go into a base's tail padding, but a POD's. */
  ghost function DataUnder(r: Record, baseOffset: nat): nat {
    var pointer := if HasPointer(r) then POINTER_SIZE else 0;
    if r.base == None then pointer
    else
      var above := LayoutOf(r.base.value);
      if above.empty then pointer
      else if IsPrimary(r) then above.dataSize
      else if r.base.value.pod then baseOffset + above.size
      else baseOffset + above.dataSize
  }

  /** It is the greatest of these, and 1. */
  ghost predicate IsGreatest(align: Bytes, aligns: seq<Bytes>) {
    (forall one <- aligns :: one <= align) && (align == 1 || align in aligns)
  }

  ghost function Aligns(r: Record): seq<Bytes> {
    (if HasPointer(r) then [POINTER_SIZE] else []) + (if r.base.Some? then [LayoutOf(r.base.value).align] else [])
    + AlignsOf(Listed(r.fields))
  }

  ghost function AlignsOf(fields: seq<Type>): seq<Bytes> {
    seq(|fields|, i requires 0 <= i < |fields| => AlignOf(fields[i]))
  }

  /** The least positive multiple of the alignment that holds them. */
  ghost predicate IsRounded(size: nat, align: Bytes, holds: nat) {
    && 0 < size && size % align == 0 && holds <= size
    && forall other: nat :: 0 < other && other % align == 0 && holds <= other ==> size <= other
  }

  ghost predicate RecordFollows(r: Record, l: Layout) {
    var fields := Listed(r.fields);
    var taken := if r.base.Some? then Moved(EmptiesIn(r.base.value), l.baseOffset) else {};
    var begun := DataUnder(r, l.baseOffset);
    && BaseFollows(r, l)
    && FieldsFollow(begun, taken, fields, l.offsets)
    && l.dataSize == End(begun, fields, l.offsets, |fields|)
    && IsGreatest(l.align, Aligns(r))
    && IsRounded(l.size, l.align, l.dataSize)
    && l.dynamic == (r.kind == Class)
    && l.empty == (r.kind == Struct && fields == [] && (r.base == None || LayoutOf(r.base.value).empty))
    && l.holdsEmpty == (EmptiesIn(r) != [])
  }

  /** Every member at 0, and room for each. */
  ghost predicate UnionFollows(r: Record, l: Layout) {
    var fields := Listed(r.fields);
    && l.offsets == seq(|fields|, _ => 0) && l.baseOffset == 0
    && IsGreatest(l.align, AlignsOf(fields))
    && (forall t <- fields :: SizeOf(t) <= l.size) && 0 < l.size && l.size % l.align == 0
    && (forall other: nat :: 0 < other && other % l.align == 0 && (forall t <- fields :: SizeOf(t) <= other) ==> l.size <= other)
    && l.dataSize == l.size && !l.dynamic && !l.empty && !l.holdsEmpty
  }

  ghost predicate Follows(r: Record, l: Layout) {
    if r.kind == Union then UnionFollows(r, l) else RecordFollows(r, l)
  }

  // ----- The layout is one -----

  lemma PlaceIsTheLeast(inside: seq<Empty>, align: Bytes, from: nat, taken: set<Empty>)
    ensures IsLeast(Place(inside, align, AlignUp(from, align), taken), from, align, inside, taken)
  {
    var begun := AlignUp(from, align);
    var at := Place(inside, align, begun, taken);
    AlignUpIsLeast(from, align);
    PlaceIsClear(inside, align, begun, taken);
    ClearIsNoCollision(inside, at, taken);
    forall other: nat | from <= other < at && other % align == 0
      ensures !IsClear(inside, other, taken)
    {
      AlignedApart(begun, other, align);
      PlaceIsLeast(inside, align, begun, taken, other);
      ClearIsNoCollision(inside, other, taken);
    }
  }

  lemma ClearIsNoCollision(inside: seq<Empty>, at: nat, taken: set<Empty>)
    ensures IsClear(inside, at, taken) <==> !Collides(inside, at, taken)
  {
  }

  lemma MovedIsShifted(empties: seq<Empty>, at: nat)
    ensures ToSet(Shifted(empties, at)) == Moved(empties, at)
  {
    forall one | one in Moved(empties, at)
      ensures one in Shifted(empties, at)
    {
      var i :| 0 <= i < |empties| && one == Empty(empties[i].name, empties[i].at + at);
      assert Shifted(empties, at)[i] == one;
    }
    forall one | one in Shifted(empties, at)
      ensures one in Moved(empties, at)
    {
      var i :| 0 <= i < |empties| && Shifted(empties, at)[i] == one;
      assert empties[i] in empties;
    }
  }

  /** What the first field takes is taken for the others. */
  lemma {:induction false} TakenRest(begun: set<Empty>, fields: seq<Type>, offsets: seq<nat>, i: nat)
    requires 0 < i <= |fields| && i <= |offsets|
    ensures Taken(begun, fields, offsets, i) == Taken(begun + Moved(EmptiesOf(fields[0]), offsets[0]), fields[1..], offsets[1..], i - 1)
    decreases i
  {
    hide EmptiesOf, Moved;
    if i > 1 {
      TakenRest(begun, fields, offsets, i - 1);
      assert fields[1..][i - 2] == fields[i - 1] && offsets[1..][i - 2] == offsets[i - 1];
    }
  }

  lemma EndRest(begun: nat, fields: seq<Type>, offsets: seq<nat>, i: nat)
    requires 0 < i <= |fields| && i <= |offsets|
    ensures End(begun, fields, offsets, i) == End(offsets[0] + SizeOf(fields[0]), fields[1..], offsets[1..], i - 1)
  {
  }

  /** One field more, and where the others' offsets begin. */
  lemma OneFieldGoes(p: Placing, fields: Types)
    requires fields.More?
    ensures var (t, later, next, n) := (fields.first, PlaceFields(p, fields), PlaceField(p, fields.first), |p.offsets|);
            && later == PlaceFields(next, fields.rest) && |next.offsets| == n + 1 <= |later.offsets|
            && var at := later.offsets[n];
               && at == Place(EmptiesOf(t), AlignOf(t), AlignUp(p.data, AlignOf(t)), p.taken)
               && next.data == at + SizeOf(t) && next.taken == p.taken + Moved(EmptiesOf(t), at)
  {
    hide EmptiesOf, SizeOf, AlignOf, AlignUp, Moved, ToSet;
    var next := PlaceField(p, fields.first);
    FieldsGo(next, fields.rest);
    MovedIsShifted(EmptiesOf(fields.first), next.offsets[|p.offsets|]);
  }

  lemma {:induction false} FieldsAreExact(p: Placing, fields: Types)
    ensures var (later, n) := (PlaceFields(p, fields), |p.offsets|);
            && n <= |later.offsets|
            && var offsets := later.offsets[n..];
               && FieldsFollow(p.data, p.taken, Listed(fields), offsets)
               && |offsets| == |Listed(fields)| && later.data == End(p.data, Listed(fields), offsets, |offsets|)
    decreases fields
  {
    if fields.More? {
      hide EmptiesOf, SizeOf, AlignOf, Place, PlaceField, PlaceFields, AlignUp, IsLeast, Moved, FieldsFollow, Taken, End;
      var later, n := PlaceFields(p, fields), |p.offsets|;
      OneFieldGoes(p, fields);
      FieldsAreExact(PlaceField(p, fields.first), fields.rest);
      PlaceIsTheLeast(EmptiesOf(fields.first), AlignOf(fields.first), p.data, p.taken);
      var offsets := later.offsets[n..];
      assert offsets[1..] == later.offsets[n + 1..];
      assert Listed(fields)[1..] == Listed(fields.rest);
      FollowsFirst(p.data, p.taken, Listed(fields), offsets);
    }
  }

  /** The first field, and then the others from its end. */
  lemma FollowsFirst(begun: nat, taken: set<Empty>, fields: seq<Type>, offsets: seq<nat>)
    requires fields != [] && |offsets| == |fields|
    requires IsLeast(offsets[0], begun, AlignOf(fields[0]), EmptiesOf(fields[0]), taken)
    requires FieldsFollow(offsets[0] + SizeOf(fields[0]), taken + Moved(EmptiesOf(fields[0]), offsets[0]), fields[1..], offsets[1..])
    ensures FieldsFollow(begun, taken, fields, offsets)
    ensures End(begun, fields, offsets, |offsets|) == End(offsets[0] + SizeOf(fields[0]), fields[1..], offsets[1..], |offsets| - 1)
  {
    hide EmptiesOf, SizeOf, AlignOf, IsLeast, Moved;
    forall i | 0 <= i < |fields|
      ensures IsLeast(offsets[i], End(begun, fields, offsets, i), AlignOf(fields[i]), EmptiesOf(fields[i]), Taken(taken, fields, offsets, i))
    {
      if i > 0 {
        TakenRest(taken, fields, offsets, i);
        EndRest(begun, fields, offsets, i);
        assert offsets[1..][i - 1] == offsets[i] && fields[1..][i - 1] == fields[i];
      }
    }
    EndRest(begun, fields, offsets, |offsets|);
  }

  lemma OneMoreAlign(align: Bytes, aligns: seq<Bytes>, one: Bytes)
    requires IsGreatest(align, aligns)
    ensures IsGreatest(Larger(align, one), aligns + [one])
  {
    assert (aligns + [one])[|aligns|] == one;
  }

  lemma {:induction false} FieldsAlign(p: Placing, fields: Types, before: seq<Bytes>)
    requires IsGreatest(p.align, before)
    ensures IsGreatest(PlaceFields(p, fields).align, before + AlignsOf(Listed(fields)))
    decreases fields
  {
    hide IsGreatest, EmptiesOf, SizeOf, AlignOf, Place, AlignUp;
    if fields.More? {
      var one := AlignOf(fields.first);
      OneMoreAlign(p.align, before, one);
      FieldsAlign(PlaceField(p, fields.first), fields.rest, before + [one]);
      assert AlignsOf(Listed(fields)) == [one] + AlignsOf(Listed(fields.rest));
      assert before + AlignsOf(Listed(fields)) == before + [one] + AlignsOf(Listed(fields.rest));
    } else {
      assert before + AlignsOf(Listed(fields)) == before;
    }
  }

  /** What an empty record is looked for in is what holds one. */
  lemma {:induction false} HeldIsFound(t: Type)
    ensures HoldsEmpty(t) <==> EmptiesOf(t) != []
    decreases t, 1
  {
    if !HoldsEmpty(t) {
      LayoutEmpties.NothingToFind(t);
    } else {
      match t
      case ArrayOf(element, length) => HeldIsFound(element);
      case Held(record) => InsideIsFound(record);
      case Scalar(_) =>
      case Pointer =>
    }
  }

  lemma {:induction false} InsideIsFound(r: Record)
    ensures InsideIsEmpty(r) <==> EmptiesIn(r) != []
    decreases r, 0
  {
    if !InsideIsEmpty(r) {
      LayoutEmpties.NothingInside(r);
    } else {
      hide LayoutOf, PlaceFields, EmptiesOfFields, AnyHoldsEmpty, AfterBase, Floor, AlignUp, BaseOffset;
      LayoutEmpties.Unfolds(r);
      LayoutIsSound(r);
      if r.base.Some? {
        InsideIsFound(r.base.value);
      }
      if AnyHoldsEmpty(r.fields) {
        FieldsAreFound(r.fields, LayoutOf(r).offsets);
      }
    }
  }

  lemma {:induction false} FieldsAreFound(fields: Types, offsets: seq<nat>)
    requires AnyHoldsEmpty(fields) && |offsets| == Count(fields)
    ensures EmptiesOfFields(fields, offsets) != []
    decreases fields, 2
  {
    if HoldsEmpty(fields.first) {
      HeldIsFound(fields.first);
    } else {
      FieldsAreFound(fields.rest, offsets[1..]);
    }
  }

  lemma DynamicIsClass(r: Record)
    ensures LayoutOf(r).dynamic <==> r.kind == Class
  {
  }

  /** The same pointer, told by the kinds. */
  lemma PointerIsExact(r: Record)
    ensures SharesPointer(r) == IsPrimary(r)
    ensures OwnPointer(r) == if HasPointer(r) then POINTER_SIZE else 0
  {
    hide LayoutOf;
    if r.base.Some? {
      DynamicIsClass(r.base.value);
    }
  }

  lemma BaseIsExact(r: Record)
    requires r.kind != Union && r.base.Some?
    ensures BaseOffset(r) == if HasPointer(r) && !LayoutOf(r.base.value).empty then POINTER_SIZE else 0
    ensures IsPrimary(r) ==> !LayoutOf(r.base.value).empty
  {
    hide LayoutOf, AlignUp, Place, EmptiesIn;
    PointerIsExact(r);
    BasePlaced(r);
    PointerAligns(LayoutOf(r.base.value).align);
    DynamicIsClass(r.base.value);
    if LayoutOf(r.base.value).empty {
      EmptyIsAByte(r.base.value);
    }
  }

  /** The base and what is under the fields. */
  lemma BeginIsExact(r: Record)
    requires r.kind != Union
    ensures BaseFollows(r, LayoutOf(r))
    ensures AfterBase(r).data == DataUnder(r, LayoutOf(r).baseOffset)
    ensures AfterBase(r).taken == if r.base.Some? then Moved(EmptiesIn(r.base.value), LayoutOf(r).baseOffset) else {}
    ensures IsGreatest(AfterBase(r).align, (if HasPointer(r) then [POINTER_SIZE] else []) + if r.base.Some? then [LayoutOf(r.base.value).align] else [])
  {
    hide EmptiesIn, PlaceFields, Moved, ToSet, LayoutOf, BaseOffset, OwnPointer, SharesPointer, AlignUp;
    LayoutEmpties.Unfolds(r);
    PointerIsExact(r);
    if r.base.Some? {
      var base := r.base.value;
      BaseIsExact(r);
      MovedIsShifted(EmptiesIn(base), BaseOffset(r));
      OneMoreAlign(if HasPointer(r) then POINTER_SIZE else 1, if HasPointer(r) then [POINTER_SIZE] else [], LayoutOf(base).align);
    }
  }

  lemma PointerAligns(align: Bytes)
    ensures AlignUp(POINTER_SIZE, align) == POINTER_SIZE && AlignUp(0, align) == 0
  {
    assert align == 1 || align == 2 || align == 4 || align == 8;
  }

  lemma SizeIsRounded(r: Record)
    ensures IsRounded(LayoutOf(r).size, LayoutOf(r).align, LayoutOf(r).dataSize)
  {
    hide LayoutOf;
    var l := LayoutOf(r);
    LayoutIsSound(r);
    SizeFromData(r);
    AlignUpIsLeast(l.dataSize, l.align);
    forall other: nat | 0 < other && other % l.align == 0 && l.dataSize <= other
      ensures l.size <= other
    {
      if l.dataSize == 0 {
        AlignedApart(l.align, other, l.align) by { OneTurn(l.align); }
      } else {
        AlignedApart(l.size, other, l.align);
      }
    }
  }

  lemma RecordIsExact(r: Record)
    requires r.kind != Union
    ensures RecordFollows(r, LayoutOf(r))
  {
    hide LayoutOf, EmptiesIn, PlaceFields, AfterBase, Floor, FieldsFollow, IsGreatest, IsRounded, BaseFollows, DataUnder, BaseOffset, AlignUp, InsideIsEmpty;
    var l, begun := LayoutOf(r), AfterBase(r);
    LayoutEmpties.Unfolds(r);
    BeginIsExact(r);
    FieldsAreExact(begun, r.fields);
    var placed := PlaceFields(begun, r.fields);
    assert placed.offsets[0..] == l.offsets;
    FieldsAlign(begun, r.fields, (if HasPointer(r) then [POINTER_SIZE] else []) + if r.base.Some? then [LayoutOf(r.base.value).align] else []);
    SizeIsRounded(r);
    InsideIsFound(r);
    DynamicIsClass(r);
    assert InsideIsEmpty(r) == l.holdsEmpty by { InsideIsHeld(r); }
    assert |l.offsets| == |Listed(r.fields)| by { assert FieldsFollow(begun.data, begun.taken, Listed(r.fields), l.offsets); SameCount(begun.data, begun.taken, Listed(r.fields), l.offsets); }
  }

  lemma InsideIsHeld(r: Record)
    requires r.kind != Union
    ensures InsideIsEmpty(r) == LayoutOf(r).holdsEmpty
  {
  }

  lemma SameCount(begun: nat, taken: set<Empty>, fields: seq<Type>, offsets: seq<nat>)
    requires FieldsFollow(begun, taken, fields, offsets)
    ensures |offsets| == |fields|
  {
  }

  /** The largest member and the strictest. */
  lemma {:induction false} LargestIs(fields: Types, size: nat, align: Bytes, before: seq<Bytes>)
    requires IsGreatest(align, before)
    ensures var ((largest, strictest), ts) := (Largest(fields, size, align), Listed(fields));
            && size <= largest && (forall t <- ts :: SizeOf(t) <= largest) && (largest == size || exists t <- ts :: SizeOf(t) == largest)
            && IsGreatest(strictest, before + AlignsOf(ts))
    decreases fields
  {
    hide IsGreatest, SizeOf, AlignOf;
    if fields.More? {
      var held, one := SizeOf(fields.first), AlignOf(fields.first);
      OneMoreAlign(align, before, one);
      var bigger := if held > size then held else size;
      var (largest, _) := Largest(fields, size, align);
      LargestIs(fields.rest, bigger, Larger(align, one), before + [one]);
      assert AlignsOf(Listed(fields)) == [one] + AlignsOf(Listed(fields.rest));
      assert before + AlignsOf(Listed(fields)) == before + [one] + AlignsOf(Listed(fields.rest));
      assert Listed(fields)[0] == fields.first;
      assert forall t <- Listed(fields.rest) :: t in Listed(fields);
      if largest != bigger {
        var t :| t in Listed(fields.rest) && SizeOf(t) == largest;
        assert t in Listed(fields);
      } else {
        assert fields.first in Listed(fields);
      }
    } else {
      assert before + AlignsOf(Listed(fields)) == before;
    }
  }

  lemma {:induction false} CountIsLength(fields: Types)
    ensures Count(fields) == |Listed(fields)|
    decreases fields
  {
    if fields.More? {
      CountIsLength(fields.rest);
    }
  }

  lemma UnionIsExact(r: Record)
    requires r.kind == Union
    ensures UnionFollows(r, LayoutOf(r))
  {
    hide IsGreatest, SizeOf, AlignOf, AlignUp, Largest;
    var (l, (largest, align)) := (LayoutOf(r), Largest(r.fields, 0, 1));
    NoneAligned();
    LargestIs(r.fields, 0, 1, []);
    assert [] + AlignsOf(Listed(r.fields)) == AlignsOf(Listed(r.fields));
    CountIsLength(r.fields);
    AlignUpIsLeast(largest, align);
    OneTurn(align);
    assert l == UnionLayout(r) && l.align == align;
    assert l.size == (if AlignUp(largest, align) == 0 then align else AlignUp(largest, align)) && l.size % align == 0;
    forall other: nat | 0 < other && other % align == 0 && forall t <- Listed(r.fields) :: SizeOf(t) <= other
      ensures l.size <= other
    {
      assert largest <= other;
      AlignedApart(l.size, other, align);
    }
  }

  lemma NoneAligned()
    ensures IsGreatest(1, [])
  {
  }

  // ----- And no other -----

  lemma LeastIsOne(one: nat, other: nat, from: nat, align: Bytes, inside: seq<Empty>, taken: set<Empty>)
    requires IsLeast(one, from, align, inside, taken) && IsLeast(other, from, align, inside, taken)
    ensures one == other
  {
  }

  lemma GreatestIsOne(one: Bytes, other: Bytes, aligns: seq<Bytes>)
    requires IsGreatest(one, aligns) && IsGreatest(other, aligns)
    ensures one == other
  {
  }

  lemma RoundedIsOne(one: nat, other: nat, align: Bytes, holds: nat)
    requires IsRounded(one, align, holds) && IsRounded(other, align, holds)
    ensures one == other
  {
  }

  lemma {:induction false} SameSoFar(begun: nat, taken: set<Empty>, fields: seq<Type>, one: seq<nat>, other: seq<nat>, i: nat)
    requires FieldsFollow(begun, taken, fields, one) && FieldsFollow(begun, taken, fields, other) && i <= |fields|
    ensures one[..i] == other[..i] && Taken(taken, fields, one, i) == Taken(taken, fields, other, i) && End(begun, fields, one, i) == End(begun, fields, other, i)
    decreases i
  {
    hide IsLeast, EmptiesOf, SizeOf, AlignOf, Moved;
    if i > 0 {
      SameSoFar(begun, taken, fields, one, other, i - 1);
      LeastIsOne(one[i - 1], other[i - 1], End(begun, fields, one, i - 1), AlignOf(fields[i - 1]), EmptiesOf(fields[i - 1]), Taken(taken, fields, one, i - 1));
      assert one[..i] == one[..i - 1] + [one[i - 1]] && other[..i] == other[..i - 1] + [other[i - 1]];
    }
  }

  lemma FollowsOnce(r: Record, one: Layout, other: Layout)
    requires Follows(r, one) && Follows(r, other)
    ensures one == other
  {
    hide EmptiesOf, EmptiesIn, SizeOf, AlignOf, LayoutOf, Moved, IsRounded, IsGreatest, FieldsFollow, Taken, End;
    var fields := Listed(r.fields);
    if r.kind == Union {
      GreatestIsOne(one.align, other.align, AlignsOf(fields));
    } else {
      GreatestIsOne(one.align, other.align, Aligns(r));
      assert one.baseOffset == other.baseOffset;
      var taken := if r.base.Some? then Moved(EmptiesIn(r.base.value), one.baseOffset) else {};
      var begun := DataUnder(r, one.baseOffset);
      SameCount(begun, taken, fields, one.offsets);
      SameCount(begun, taken, fields, other.offsets);
      SameSoFar(begun, taken, fields, one.offsets, other.offsets, |fields|);
      assert one.offsets[..|fields|] == one.offsets && other.offsets[..|fields|] == other.offsets;
      RoundedIsOne(one.size, other.size, one.align, one.dataSize);
    }
  }

  /** A record's layout is what is asked of one, and nothing else is. */
  lemma LayoutIsExact(r: Record, l: Layout)
    ensures Follows(r, l) <==> l == LayoutOf(r)
  {
    hide LayoutOf, RecordFollows, UnionFollows;
    if r.kind == Union {
      UnionIsExact(r);
    } else {
      RecordIsExact(r);
    }
    if Follows(r, l) {
      FollowsOnce(r, l, LayoutOf(r));
    }
  }

  /** A scalar is as big and as aligned as its bytes, a pointer as a word, and an array as its elements
      one after another. */
  ghost predicate TypeFollows(t: Type, size: nat, align: Bytes) {
    match t
    case Scalar(bytes) => size == align == bytes
    case Pointer => size == align == 8
    case ArrayOf(element, length) => size == Total(SizeOf(element), length) && align == AlignOf(element)
    case Held(record) => size == LayoutOf(record).size && align == LayoutOf(record).align
  }

  function Total(each: nat, count: nat): nat {
    if count == 0 then 0 else Total(each, count - 1) + each
  }

  lemma {:induction false} TotalIsTimes(each: nat, count: nat)
    ensures Total(each, count) == each * count
    decreases count
  {
    if count > 0 {
      TotalIsTimes(each, count - 1);
      assert each * count == each * (count - 1) + each;
    }
  }

  lemma TypeIsExact(t: Type)
    ensures TypeFollows(t, SizeOf(t), AlignOf(t))
  {
    if t.ArrayOf? {
      TotalIsTimes(SizeOf(t.element), t.length);
    }
  }

  // ----- Where empty records are -----

  /** One of these, in what lies at `at`. */
  predicate IsInside(one: Empty, inside: seq<Empty>, at: nat) {
    at <= one.at && Empty(one.name, one.at - at) in inside
  }

  lemma ShiftedIsInside(one: Empty, inside: seq<Empty>, at: nat)
    ensures one in Shifted(inside, at) <==> IsInside(one, inside, at)
  {
    if IsInside(one, inside, at) {
      var i :| 0 <= i < |inside| && inside[i] == Empty(one.name, one.at - at);
      assert Shifted(inside, at)[i] == one;
    }
  }

  ghost predicate InAField(one: Empty, fields: seq<Type>, offsets: seq<nat>) {
    exists i :: 0 <= i < |fields| && i < |offsets| && IsInside(one, EmptiesOf(fields[i]), offsets[i])
  }

  lemma {:induction false} FieldsHold(fields: Types, offsets: seq<nat>, one: Empty)
    ensures one in EmptiesOfFields(fields, offsets) <==> InAField(one, Listed(fields), offsets)
    decreases fields
  {
    if fields.More? && offsets != [] {
      var all, rest := Listed(fields), Listed(fields.rest);
      ShiftedIsInside(one, EmptiesOf(fields.first), offsets[0]);
      FieldsHold(fields.rest, offsets[1..], one);
      assert all[0] == fields.first && all[1..] == rest;
      if InAField(one, rest, offsets[1..]) {
        var i :| 0 <= i < |rest| && i < |offsets| - 1 && IsInside(one, EmptiesOf(rest[i]), offsets[1..][i]);
        assert all[i + 1] == rest[i] && offsets[i + 1] == offsets[1..][i];
      }
      if InAField(one, all, offsets) {
        var i :| 0 <= i < |all| && i < |offsets| && IsInside(one, EmptiesOf(all[i]), offsets[i]);
        if i > 0 {
          assert all[i] == rest[i - 1] && offsets[i] == offsets[1..][i - 1];
        }
      }
    }
  }

  /** Inside a record that is no union: itself, those of its base where that is, and those of each
      field where it is. */
  lemma EmptiesAreThere(r: Record, one: Empty)
    ensures one in EmptiesIn(r) <==>
            && r.kind != Union
            && var l := LayoutOf(r);
               || (l.empty && one == Empty(r.name, 0))
               || (r.base.Some? && IsInside(one, EmptiesIn(r.base.value), l.baseOffset))
               || InAField(one, Listed(r.fields), l.offsets)
  {
    hide LayoutOf, InAField, EmptiesOfFields;
    var l := LayoutOf(r);
    FieldsHold(r.fields, l.offsets, one);
    if r.base.Some? {
      ShiftedIsInside(one, EmptiesIn(r.base.value), l.baseOffset);
    }
  }

  ghost predicate InAnElement(one: Empty, inside: seq<Empty>, size: nat, length: nat) {
    exists k: nat {:trigger k * size} :: k < length && IsInside(one, inside, k * size)
  }

  lemma LastElementToo(one: Empty, inside: seq<Empty>, size: nat, length: nat)
    requires 0 < length
    ensures InAnElement(one, inside, size, length)
            <==> InAnElement(one, inside, size, length - 1) || IsInside(one, inside, (length - 1) * size)
  {
  }

  lemma {:induction false} ElementsHold(element: Type, inside: seq<Empty>, size: nat, length: nat, one: Empty)
    requires inside == EmptiesOf(element) && size == SizeOf(element)
    ensures one in EmptiesOfElements(element, length) <==> InAnElement(one, inside, size, length)
    decreases length
  {
    hide IsInside, InAnElement, EmptiesOf, SizeOf, Shifted;
    if length == 0 {
      NoElement(one, inside, size);
    } else {
      ElementsHold(element, inside, size, length - 1, one);
      ShiftedIsInside(one, inside, (length - 1) * size);
      LastElementToo(one, inside, size, length);
    }
  }

  lemma NoElement(one: Empty, inside: seq<Empty>, size: nat)
    ensures !InAnElement(one, inside, size, 0)
  {
  }

  /** Inside an array those of each element where it is, one element's size after another. */
  lemma ElementsAreThere(element: Type, length: nat, one: Empty)
    ensures one in EmptiesOf(ArrayOf(element, length)) <==> InAnElement(one, EmptiesOf(element), SizeOf(element), length)
  {
    hide InAnElement, EmptiesOfElements, SizeOf;
    ElementsHold(element, EmptiesOf(element), SizeOf(element), length, one);
  }

  // ----- Tail padding -----

  /** A class's first field begins where its base class's data end, in the base's tail padding if
      it fits there. */
  lemma TailIsUsed(r: Record)
    requires IsPrimary(r) && r.fields.More? && EmptiesOf(r.fields.first) == []
    ensures var above := LayoutOf(r.base.value);
            |LayoutOf(r).offsets| > 0 && LayoutOf(r).offsets[0] == AlignUp(above.dataSize, AlignOf(r.fields.first))
  {
    hide LayoutOf, EmptiesOf, AlignOf, AlignUp, EmptiesIn, BaseFollows, IsGreatest, IsRounded;
    var above, l, fields := LayoutOf(r.base.value), LayoutOf(r), Listed(r.fields);
    var align := AlignOf(fields[0]);
    LayoutIsExact(r, l);
    BaseIsExact(r);
    AlignUpIsLeast(above.dataSize, align);
    var taken := Moved(EmptiesIn(r.base.value), l.baseOffset);
    assert IsLeast(l.offsets[0], above.dataSize, align, [], taken) by { assert Taken(taken, fields, l.offsets, 0) == taken; }
    assert IsClear([], AlignUp(above.dataSize, align), taken);
    AlignedApart(AlignUp(above.dataSize, align), l.offsets[0], align);
  }
}
