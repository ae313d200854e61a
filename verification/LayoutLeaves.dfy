/** Everything in a type has bytes of its own: the vtable pointer, and every scalar at whatever
    depth, a union being taken as one.
  */
module LayoutLeaves {
  import opened Layout
  import opened LayoutSafety

  datatype Leaf = Leaf(at: nat, size: nat, align: Bytes)

  function Later(leaves: seq<Leaf>, further: nat): (r: seq<Leaf>)
    ensures |r| == |leaves|
    ensures forall i {:trigger r[i]} :: 0 <= i < |r| ==> r[i] == leaves[i].(at := leaves[i].at + further)
  {
    seq(|leaves|, i requires 0 <= i < |leaves| => leaves[i].(at := leaves[i].at + further))
  }

  ghost function LeavesOf(t: Type): seq<Leaf>
    decreases t, 2
  {
    match t
    case Scalar(bytes) => [Leaf(0, bytes, bytes)]
    case Pointer => [Leaf(0, POINTER_SIZE, POINTER_SIZE)]
    case ArrayOf(element, length) => LeavesOfElements(element, length)
    case Held(record) => LeavesIn(record)
  }

  ghost function LeavesOfElements(element: Type, length: nat): seq<Leaf>
    decreases element, 3, length
  {
    if length == 0 then []
    else LeavesOfElements(element, length - 1) + Later(LeavesOf(element), SizeOf(element) * (length - 1))
  }

  ghost function LeavesIn(r: Record): seq<Leaf>
    decreases r, 1
  {
    var l := LayoutOf(r);
    if r.kind == Union then [Leaf(0, l.size, l.align)]
    else LeavesUnder(r) + LeavesOfFields(r.fields, l.offsets)
  }

  /** The vtable pointer, if it is this record's, and what the base holds. */
  ghost function LeavesUnder(r: Record): seq<Leaf>
    decreases r, 0
  {
    (if OwnPointer(r) > 0 then [Leaf(0, POINTER_SIZE, POINTER_SIZE)] else [])
    + if r.base.Some? then Later(LeavesIn(r.base.value), BaseOffset(r)) else []
  }

  ghost function LeavesOfFields(fields: Types, offsets: seq<nat>): seq<Leaf>
    decreases fields, 3
  {
    if fields == Nothing || offsets == [] then []
    else Later(LeavesOf(fields.first), offsets[0]) + LeavesOfFields(fields.rest, offsets[1..])
  }

  /** Each aligned, none over another, all from `from` to `to`. */
  ghost predicate Apart(leaves: seq<Leaf>, from: nat, to: nat, align: Bytes) {
    && (forall i {:trigger leaves[i]} :: 0 <= i < |leaves| ==> Within(leaves[i], from, to, align))
    && (forall i, j {:trigger leaves[i], leaves[j]} :: 0 <= i < j < |leaves| ==> Disjoint(leaves[i], leaves[j]))
  }

  predicate Within(leaf: Leaf, from: nat, to: nat, align: Bytes) {
    from <= leaf.at && leaf.at + leaf.size <= to && leaf.at % leaf.align == 0 && leaf.align <= align
  }

  predicate Disjoint(one: Leaf, other: Leaf) {
    one.at + one.size <= other.at || other.at + other.size <= one.at
  }

  lemma ApartLater(leaves: seq<Leaf>, from: nat, to: nat, align: Bytes, further: nat)
    requires Apart(leaves, from, to, align) && further % align == 0
    ensures Apart(Later(leaves, further), from + further, to + further, align)
  {
    var later := Later(leaves, further);
    forall i | 0 <= i < |later|
      ensures Within(later[i], from + further, to + further, align)
    {
      assert Within(leaves[i], from, to, align);
      AlignedLess(further, align, leaves[i].align);
      AlignedSum(leaves[i].at, further, leaves[i].align);
    }
    forall i, j | 0 <= i < j < |later|
      ensures Disjoint(later[i], later[j])
    {
      assert Disjoint(leaves[i], leaves[j]);
    }
  }

  lemma ApartTogether(first: seq<Leaf>, from: nat, middle: nat, second: seq<Leaf>, after: nat, to: nat, align: Bytes)
    requires Apart(first, from, middle, align) && Apart(second, after, to, align)
    requires from <= after && middle <= after && middle <= to
    ensures Apart(first + second, from, to, align)
  {
    var both := first + second;
    forall i | 0 <= i < |both|
      ensures Within(both[i], from, to, align)
    {
      assert if i < |first| then both[i] == first[i] else both[i] == second[i - |first|];
    }
    forall i, j | 0 <= i < j < |both|
      ensures Disjoint(both[i], both[j])
    {
      if j < |first| {
        assert both[i] == first[i] && both[j] == first[j];
      } else if i < |first| {
        assert both[i] == first[i] && both[j] == second[j - |first|];
        assert Within(first[i], from, middle, align) && Within(second[j - |first|], after, to, align);
      } else {
        assert both[i] == second[i - |first|] && both[j] == second[j - |first|];
      }
    }
  }

  lemma ApartMore(leaves: seq<Leaf>, from: nat, to: nat, align: Bytes, wider: nat, larger: Bytes)
    requires Apart(leaves, from, to, align) && to <= wider && align <= larger
    ensures Apart(leaves, from, wider, larger)
  {
    forall i | 0 <= i < |leaves|
      ensures Within(leaves[i], from, wider, larger)
    {
      assert Within(leaves[i], from, to, align);
    }
  }

  lemma {:induction false} SizeIsAligned(t: Type)
    ensures SizeOf(t) % AlignOf(t) == 0
    decreases t
  {
    match t
    case ArrayOf(element, length) =>
      SizeIsAligned(element);
      AlignedTimes(SizeOf(element), length, AlignOf(element));
    case Held(record) => LayoutIsSound(record);
    case Scalar(_) =>
    case Pointer =>
  }

  /** Everything inside a type is inside it, aligned, and apart. */
  lemma {:induction false} LeavesAreApart(t: Type)
    ensures Apart(LeavesOf(t), 0, SizeOf(t), AlignOf(t))
    decreases t, 2
  {
    match t
    case Scalar(_) =>
    case Pointer =>
    case ArrayOf(element, length) => ElementsAreApart(element, length);
    case Held(record) =>
      RecordIsApart(record);
      LayoutIsSound(record);
      ApartMore(LeavesIn(record), 0, LayoutOf(record).dataSize, AlignOf(t), SizeOf(t), AlignOf(t));
  }

  lemma {:induction false} ElementsAreApart(element: Type, length: nat)
    ensures Apart(LeavesOfElements(element, length), 0, SizeOf(element) * length, AlignOf(element))
    decreases element, 3, length
  {
    if length > 0 {
      var size := SizeOf(element);
      ElementsAreApart(element, length - 1);
      LeavesAreApart(element);
      SizeIsAligned(element);
      AlignedTimes(size, length - 1, AlignOf(element));
      ApartLater(LeavesOf(element), 0, size, AlignOf(element), size * (length - 1));
      assert size * length == size * (length - 1) + size;
      ApartTogether(LeavesOfElements(element, length - 1), 0, size * (length - 1),
                    Later(LeavesOf(element), size * (length - 1)), size * (length - 1), size * length, AlignOf(element));
    }
  }

  /** Inside a record's data, even where it starts in its base's tail padding. */
  lemma {:induction false} RecordIsApart(r: Record)
    ensures Apart(LeavesIn(r), 0, LayoutOf(r).dataSize, LayoutOf(r).align)
    decreases r, 1
  {
    if r.kind != Union {
      var begun := AfterBase(r);
      var placed := PlaceFields(begun, r.fields);
      UnderIsApart(r);
      FieldsAreApart(begun, r.fields);
      FieldsGo(begun, r.fields);
      assert placed.offsets[|begun.offsets|..] == placed.offsets;
      ApartMore(LeavesUnder(r), 0, begun.data, begun.align, begun.data, placed.align);
      ApartTogether(LeavesUnder(r), 0, begun.data, LeavesOfFields(r.fields, placed.offsets), begun.data, placed.data, placed.align);
    }
  }

  lemma {:induction false} UnderIsApart(r: Record)
    requires r.kind != Union
    ensures Apart(LeavesUnder(r), 0, AfterBase(r).data, AfterBase(r).align)
    decreases r, 0
  {
    var begun, pointer := AfterBase(r), if OwnPointer(r) > 0 then [Leaf(0, POINTER_SIZE, POINTER_SIZE)] else [];
    assert Apart(pointer, 0, OwnPointer(r), begun.align);
    if r.base.Some? {
      var base, at := r.base.value, BaseOffset(r);
      var above := LayoutOf(base);
      RecordIsApart(base);
      LayoutIsSound(base);
      BasePlaced(r);
      AlignUpIsLeast(OwnPointer(r), above.align);
      ApartLater(LeavesIn(base), 0, above.dataSize, above.align, at);
      var under := Later(LeavesIn(base), at);
      if above.empty {
        EmptyIsAByte(base);
        EmptyHasNoLeaves(base);
        assert pointer + under == pointer;
      } else {
        ApartMore(under, at, at + above.dataSize, above.align, begun.data, begun.align);
        if SharesPointer(r) {
          assert pointer + under == under;
        } else {
          ApartTogether(pointer, 0, OwnPointer(r), under, at, begun.data, begun.align);
        }
      }
    } else {
      assert LeavesUnder(r) == pointer;
    }
  }

  lemma {:induction false} EmptyHasNoLeaves(r: Record)
    requires LayoutOf(r).empty
    ensures LeavesIn(r) == []
    decreases r
  {
    if r.base.Some? {
      EmptyHasNoLeaves(r.base.value);
    }
  }

  lemma {:induction false} FieldsAreApart(p: Placing, fields: Types)
    ensures var later := PlaceFields(p, fields);
            && |p.offsets| <= |later.offsets|
            && Apart(LeavesOfFields(fields, later.offsets[|p.offsets|..]), p.data, later.data, later.align)
    decreases fields, 3
  {
    if fields.More? {
      var t, next, later := fields.first, PlaceField(p, fields.first), PlaceFields(p, fields);
      FieldIsApart(p, t);
      FieldsAreApart(next, fields.rest);
      FieldsGo(next, fields.rest);
      var at, n := next.offsets[|p.offsets|], |p.offsets|;
      var rest := later.offsets[n + 1..];
      assert later.offsets[n..][0] == at && later.offsets[n..][1..] == rest;
      ApartMore(Later(LeavesOf(t), at), p.data, next.data, AlignOf(t), next.data, later.align);
      ApartTogether(Later(LeavesOf(t), at), p.data, next.data, LeavesOfFields(fields.rest, rest), next.data, later.data, later.align);
    }
  }

  lemma {:induction false} FieldIsApart(p: Placing, t: Type)
    ensures var next := PlaceField(p, t);
            Apart(Later(LeavesOf(t), next.offsets[|p.offsets|]), p.data, next.data, AlignOf(t))
    decreases t, 3
  {
    var at := PlaceField(p, t).offsets[|p.offsets|];
    LeavesAreApart(t);
    AlignUpIsLeast(p.data, AlignOf(t));
    PlaceIsClear(EmptiesOf(t), AlignOf(t), AlignUp(p.data, AlignOf(t)), p.taken);
    ApartLater(LeavesOf(t), 0, SizeOf(t), AlignOf(t), at);
    FromEarlier(Later(LeavesOf(t), at), at, at + SizeOf(t), AlignOf(t), p.data);
  }

  lemma FromEarlier(leaves: seq<Leaf>, from: nat, to: nat, align: Bytes, earlier: nat)
    requires Apart(leaves, from, to, align) && earlier <= from
    ensures Apart(leaves, earlier, to, align)
  {
    forall i | 0 <= i < |leaves|
      ensures Within(leaves[i], earlier, to, align)
    {
      assert Within(leaves[i], from, to, align);
    }
  }
}
