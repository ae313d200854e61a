/** Every class's slots, and what a call through one reaches: the method of the nearest class up the
    chain, as if the chain were walked.
  */
module ClassTables {
  import opened Wrappers

  // ----- Types and parameters -----

  /** A type seen from its module: what it is, and for a named or a generic one the module that
      declares it. */
  datatype SourceType = SourceType(kind: Kind, subject: nat, module_: nat, arguments: seq<SourceType>)

  datatype Kind = Named | Generic | Other(which: nat)

  predicate SameHead(one: SourceType, other: SourceType) {
    && one.kind == other.kind && one.subject == other.subject && |one.arguments| == |other.arguments|
    && ((one.kind == Named || one.kind == Generic) ==> one.module_ == other.module_)
  }

  predicate SameType(one: SourceType, other: SourceType) {
    SameHead(one, other) && forall i :: 0 <= i < |one.arguments| && i < |other.arguments| ==> SameType(one.arguments[i], other.arguments[i])
  }

  lemma {:induction false} SameAsItself(one: SourceType)
    ensures SameType(one, one)
  {
    forall i | 0 <= i < |one.arguments|
      ensures SameType(one.arguments[i], one.arguments[i])
    {
      SameAsItself(one.arguments[i]);
    }
  }

  lemma {:induction false} SameBothWays(one: SourceType, other: SourceType)
    requires SameType(one, other)
    ensures SameType(other, one)
  {
    forall i | 0 <= i < |one.arguments|
      ensures SameType(other.arguments[i], one.arguments[i])
    {
      SameBothWays(one.arguments[i], other.arguments[i]);
    }
  }

  lemma {:induction false} SameThrough(one: SourceType, other: SourceType, third: SourceType)
    requires SameType(one, other) && SameType(other, third)
    ensures SameType(one, third)
  {
    forall i | 0 <= i < |one.arguments|
      ensures SameType(one.arguments[i], third.arguments[i])
    {
      SameThrough(one.arguments[i], other.arguments[i], third.arguments[i]);
    }
  }

  /** The return is the last argument, and is not compared. */
  predicate SameParameters(one: seq<SourceType>, other: seq<SourceType>) {
    |one| == |other| && forall i :: 0 <= i < |one| - 1 ==> SameType(one[i], other[i])
  }

  // ----- Methods, classes and slots -----

  /** `candidate` is 0 for the destructor of a class that writes none. */
  datatype Method = Method(name: string, module_: nat, candidate: nat, arguments: seq<SourceType>)

  datatype Member = Member(method_: Method, isFunction: bool, isGeneric: bool)

  datatype Class = Class(isClass: bool, base: Option<nat>, members: seq<Member>)

  datatype Slot = Slot(method_: Method, implementedBy: nat)

  const NO_DESTRUCTOR: Method := Method("destroy", 0, 0, [])

  /** What overrides what: the same name and the same parameters. */
  predicate SameKey(one: Method, other: Method) {
    one.name == other.name && SameParameters(one.arguments, other.arguments)
  }

  lemma KeysAreEqual(one: Method, other: Method, third: Method)
    ensures SameKey(one, one)
    ensures SameKey(one, other) ==> SameKey(other, one)
    ensures SameKey(one, other) && SameKey(other, third) ==> SameKey(one, third)
  {
    forall i | 0 <= i < |one.arguments|
      ensures SameType(one.arguments[i], one.arguments[i])
    {
      SameAsItself(one.arguments[i]);
    }
    if SameKey(one, other) {
      forall i | 0 <= i < |one.arguments| - 1
        ensures SameType(other.arguments[i], one.arguments[i])
      {
        SameBothWays(one.arguments[i], other.arguments[i]);
      }
      if SameKey(other, third) {
        forall i | 0 <= i < |one.arguments| - 1
          ensures SameType(one.arguments[i], third.arguments[i])
        {
          SameThrough(one.arguments[i], other.arguments[i], third.arguments[i]);
        }
      }
    }
  }

  /** A member that takes a slot: a method that is not generic and builds nothing. */
  predicate TakesASlot(member: Member) {
    member.isFunction && !member.isGeneric && member.method_.name != "init" && member.method_.candidate != 0
  }

  predicate IsDestructor(method_: Method) {
    method_.name == "destroy"
  }

  // ----- The slots of a class -----

  /** The first slot, after the destructor's, that a method overrides; how many there are if
      none. */
  function Overridden(slots: seq<Slot>, method_: Method, from: nat): (i: nat)
    requires from <= |slots|
    ensures from <= i <= |slots|
    ensures i < |slots| ==> SameKey(slots[i].method_, method_)
    ensures forall j :: from <= j < i ==> !SameKey(slots[j].method_, method_)
    decreases |slots| - from
  {
    if from == |slots| || SameKey(slots[from].method_, method_) then from else Overridden(slots, method_, from + 1)
  }

  function AddOne(slots: seq<Slot>, member: Member, class_: nat): (more: seq<Slot>)
    requires 0 < |slots|
    ensures |slots| <= |more|
  {
    var slot := Slot(member.method_, class_);
    if !TakesASlot(member) then slots
    else if IsDestructor(member.method_) then slots[0 := slot]
    else
      var i := Overridden(slots, member.method_, 1);
      if i < |slots| then slots[i := slot] else slots + [slot]
  }

  function AddFirst(slots: seq<Slot>, members: seq<Member>, k: nat, class_: nat): (more: seq<Slot>)
    requires 0 < |slots| && k <= |members|
    ensures |slots| <= |more|
  {
    if k == 0 then slots else AddOne(AddFirst(slots, members, k - 1, class_), members[k - 1], class_)
  }

  type Heights = nat -> nat

  /** Bases are in the table, and no class is above itself. */
  ghost predicate IsFounded(table: seq<Class>, heights: Heights) {
    forall c :: 0 <= c < |table| && table[c].base.Some? ==>
      table[c].base.value < |table| && heights(table[c].base.value) < heights(c)
  }

  /** A class over a struct starts slots of its own. */
  predicate HasClassBase(table: seq<Class>, c: nat)
    requires c < |table|
  {
    table[c].base.Some? && table[c].base.value < |table| && table[table[c].base.value].isClass
  }

  ghost function BaseSlots(table: seq<Class>, heights: Heights, c: nat): (slots: seq<Slot>)
    requires IsFounded(table, heights) && c < |table|
    ensures 0 < |slots|
    decreases heights(c), 0
  {
    if HasClassBase(table, c) then SlotsOf(table, heights, table[c].base.value) else [Slot(NO_DESTRUCTOR, c)]
  }

  ghost function SlotsOf(table: seq<Class>, heights: Heights, c: nat): (slots: seq<Slot>)
    requires IsFounded(table, heights) && c < |table|
    ensures 0 < |slots|
    decreases heights(c), 1
  {
    AddFirst(BaseSlots(table, heights, c), table[c].members, |table[c].members|, c)
  }

  // ----- Walking the chain -----

  /** The last of a class's first `k` members that is this method. */
  function Declared(members: seq<Member>, k: nat, method_: Method): (found: Option<nat>)
    requires k <= |members|
    ensures found.Some? ==> found.value < k && TakesASlot(members[found.value]) && SameKey(members[found.value].method_, method_)
  {
    if k == 0 then None
    else if TakesASlot(members[k - 1]) && SameKey(members[k - 1].method_, method_) then Some(k - 1)
    else Declared(members, k - 1, method_)
  }

  /** The method as the nearest class up the chain declares it. */
  ghost function Nearest(table: seq<Class>, heights: Heights, c: nat, method_: Method): Option<Slot>
    requires IsFounded(table, heights) && c < |table|
    decreases heights(c)
  {
    var found := Declared(table[c].members, |table[c].members|, method_);
    if found.Some? then Some(Slot(table[c].members[found.value].method_, c))
    else if HasClassBase(table, c) then Nearest(table, heights, table[c].base.value, method_)
    else None
  }

  /** The last of a class's first `k` members that is a destructor. */
  function DeclaredDestructor(members: seq<Member>, k: nat): (found: Option<nat>)
    requires k <= |members|
    ensures found.Some? ==> found.value < k
  {
    if k == 0 then None
    else if TakesASlot(members[k - 1]) && IsDestructor(members[k - 1].method_) then Some(k - 1)
    else DeclaredDestructor(members, k - 1)
  }

  /** The nearest destructor; where no class of the chain writes one, the empty one of the first. */
  ghost function NearestDestructor(table: seq<Class>, heights: Heights, c: nat): Slot
    requires IsFounded(table, heights) && c < |table|
    decreases heights(c)
  {
    var found := DeclaredDestructor(table[c].members, |table[c].members|);
    if found.Some? then Slot(table[c].members[found.value].method_, c)
    else if HasClassBase(table, c) then NearestDestructor(table, heights, table[c].base.value)
    else Slot(NO_DESTRUCTOR, c)
  }

  // ----- Slots agree with the chain -----

  /** No method has two slots, and only the first is a destructor's. */
  ghost predicate Distinct(slots: seq<Slot>) {
    && (forall i {:trigger slots[i]} :: 0 < i < |slots| ==> !IsDestructor(slots[i].method_))
    && (forall i, j {:trigger slots[i], slots[j]} :: 0 < i < j < |slots| ==> !SameKey(slots[i].method_, slots[j].method_))
  }

  /** Every slot of the base is where it was, for the same method. */
  ghost predicate Keeps(base: seq<Slot>, slots: seq<Slot>) {
    |base| <= |slots| && forall i {:trigger slots[i]} :: 0 < i < |base| ==> SameKey(slots[i].method_, base[i].method_)
  }

  lemma OneKeepsDistinct(slots: seq<Slot>, member: Member, class_: nat)
    requires 0 < |slots| && Distinct(slots)
    ensures Distinct(AddOne(slots, member, class_)) && Keeps(slots, AddOne(slots, member, class_))
  {
    var more := AddOne(slots, member, class_);
    var m, i := member.method_, Overridden(slots, member.method_, 1);
    forall j | 0 < j < |slots|
      ensures SameKey(more[j].method_, slots[j].method_)
    {
      KeysAreEqual(slots[j].method_, m, m);
    }
    forall a, b | 0 < a < b < |more|
      ensures !SameKey(more[a].method_, more[b].method_)
    {
      if TakesASlot(member) && !IsDestructor(m) {
        if a == i && b < |slots| {
          KeysAreEqual(slots[i].method_, m, slots[b].method_);
        } else if b == i && b < |slots| {
          KeysAreEqual(slots[a].method_, m, slots[i].method_);
          KeysAreEqual(slots[i].method_, m, m);
        }
      }
    }
  }

  ghost function NearestAbove(table: seq<Class>, heights: Heights, c: nat, method_: Method): Option<Slot>
    requires IsFounded(table, heights) && c < |table|
  {
    if HasClassBase(table, c) then Nearest(table, heights, table[c].base.value, method_) else None
  }

  /** As if the class had only its first `k` members. */
  ghost function NearestFirst(table: seq<Class>, heights: Heights, c: nat, k: nat, method_: Method): Option<Slot>
    requires IsFounded(table, heights) && c < |table| && k <= |table[c].members|
  {
    var found := Declared(table[c].members, k, method_);
    if found.Some? then Some(Slot(table[c].members[found.value].method_, c)) else NearestAbove(table, heights, c, method_)
  }

  ghost function DestructorFirst(table: seq<Class>, heights: Heights, c: nat, k: nat): Slot
    requires IsFounded(table, heights) && c < |table| && k <= |table[c].members|
  {
    var found := DeclaredDestructor(table[c].members, k);
    if found.Some? then Slot(table[c].members[found.value].method_, c)
    else if HasClassBase(table, c) then NearestDestructor(table, heights, table[c].base.value)
    else Slot(NO_DESTRUCTOR, c)
  }

  lemma {:induction false} DeclaredSame(members: seq<Member>, k: nat, one: Method, other: Method)
    requires k <= |members| && SameKey(one, other)
    ensures Declared(members, k, one) == Declared(members, k, other)
    decreases k
  {
    if k > 0 {
      KeysAreEqual(members[k - 1].method_, one, other);
      KeysAreEqual(one, other, one);
      KeysAreEqual(members[k - 1].method_, other, one);
      DeclaredSame(members, k - 1, one, other);
    }
  }

  lemma {:induction false} NearestSame(table: seq<Class>, heights: Heights, c: nat, one: Method, other: Method)
    requires IsFounded(table, heights) && c < |table| && SameKey(one, other)
    ensures Nearest(table, heights, c, one) == Nearest(table, heights, c, other)
    decreases heights(c)
  {
    DeclaredSame(table[c].members, |table[c].members|, one, other);
    if HasClassBase(table, c) {
      NearestSame(table, heights, table[c].base.value, one, other);
    }
  }

  /** Each slot after the first holds the nearest method of its name and parameters. */
  ghost predicate Agree(table: seq<Class>, heights: Heights, c: nat, k: nat, slots: seq<Slot>)
    requires IsFounded(table, heights) && c < |table| && k <= |table[c].members|
  {
    forall i {:trigger slots[i]} :: 0 < i < |slots| ==> NearestFirst(table, heights, c, k, slots[i].method_) == Some(slots[i])
  }

  /** Every method of the chain has a slot. */
  ghost predicate Covers(table: seq<Class>, heights: Heights, c: nat, k: nat, slots: seq<Slot>)
    requires IsFounded(table, heights) && c < |table| && k <= |table[c].members|
  {
    forall m {:trigger NearestFirst(table, heights, c, k, m)} :: !IsDestructor(m) && NearestFirst(table, heights, c, k, m).Some? ==> HasSlot(slots, m)
  }

  ghost predicate HasSlot(slots: seq<Slot>, m: Method) {
    exists i {:trigger slots[i]} :: 0 < i < |slots| && SameKey(slots[i].method_, m)
  }

  /** One member more. */
  lemma OneAgrees(table: seq<Class>, heights: Heights, c: nat, k: nat, slots: seq<Slot>)
    requires IsFounded(table, heights) && c < |table| && k < |table[c].members| && 0 < |slots|
    requires Distinct(slots) && Agree(table, heights, c, k, slots)
    ensures Agree(table, heights, c, k + 1, AddOne(slots, table[c].members[k], c))
  {
    var member := table[c].members[k];
    var m, more := member.method_, AddOne(slots, member, c);
    OneKeepsDistinct(slots, member, c);
    KeysAreEqual(m, m, m);
    var at := Overridden(slots, m, 1);
    forall i | 0 < i < |more|
      ensures NearestFirst(table, heights, c, k + 1, more[i].method_) == Some(more[i])
    {
      if TakesASlot(member) && !IsDestructor(m) && i == at {
        assert more[i] == Slot(m, c);
      } else {
        assert more[i] == slots[i];
        KeysAreEqual(m, slots[i].method_, m);
        assert TakesASlot(member) && !IsDestructor(m) ==> more[at] == Slot(m, c);
      }
    }
  }

  lemma OneCovers(table: seq<Class>, heights: Heights, c: nat, k: nat, slots: seq<Slot>)
    requires IsFounded(table, heights) && c < |table| && k < |table[c].members| && 0 < |slots|
    requires Distinct(slots) && Covers(table, heights, c, k, slots)
    ensures Covers(table, heights, c, k + 1, AddOne(slots, table[c].members[k], c))
  {
    var member := table[c].members[k];
    var m, more := member.method_, AddOne(slots, member, c);
    OneKeepsDistinct(slots, member, c);
    KeysAreEqual(m, m, m);
    forall other | !IsDestructor(other) && NearestFirst(table, heights, c, k + 1, other).Some?
      ensures HasSlot(more, other)
    {
      if TakesASlot(member) && SameKey(m, other) {
        var at := Overridden(slots, m, 1);
        assert more[at] == Slot(m, c);
      } else {
        assert NearestFirst(table, heights, c, k, other).Some?;
        var i :| 0 < i < |slots| && SameKey(slots[i].method_, other);
        KeysAreEqual(more[i].method_, slots[i].method_, other);
      }
    }
  }

  /** With no member a class is as its base. */
  lemma BaseAgrees(table: seq<Class>, heights: Heights, c: nat)
    requires IsFounded(table, heights) && c < |table|
    requires HasClassBase(table, c) ==>
               var base := table[c].base.value;
               var slots := SlotsOf(table, heights, base);
               && Distinct(slots) && slots[0] == NearestDestructor(table, heights, base)
               && (forall i {:trigger slots[i]} :: 0 < i < |slots| ==> Nearest(table, heights, base, slots[i].method_) == Some(slots[i]))
               && (forall m {:trigger Nearest(table, heights, base, m)} :: !IsDestructor(m) && Nearest(table, heights, base, m).Some? ==> HasSlot(slots, m))
    ensures var slots := BaseSlots(table, heights, c);
            && Distinct(slots) && slots[0] == DestructorFirst(table, heights, c, 0)
            && Agree(table, heights, c, 0, slots) && Covers(table, heights, c, 0, slots)
  {
    hide SlotsOf, Nearest;
  }

  lemma DestructorAgrees(table: seq<Class>, heights: Heights, c: nat, k: nat, slots: seq<Slot>)
    requires IsFounded(table, heights) && c < |table| && k < |table[c].members| && 0 < |slots|
    requires slots[0] == DestructorFirst(table, heights, c, k)
    ensures AddOne(slots, table[c].members[k], c)[0] == DestructorFirst(table, heights, c, k + 1)
  {
  }

  lemma {:induction false} FirstAgree(table: seq<Class>, heights: Heights, c: nat, k: nat)
    requires IsFounded(table, heights) && c < |table| && k <= |table[c].members|
    ensures var base := BaseSlots(table, heights, c);
            var slots := AddFirst(base, table[c].members, k, c);
            && Distinct(slots) && Keeps(base, slots) && slots[0] == DestructorFirst(table, heights, c, k)
            && Agree(table, heights, c, k, slots) && Covers(table, heights, c, k, slots)
    decreases heights(c), k
  {
    hide AddOne, Agree, Covers, Distinct, Keeps, SlotsOf;
    var base := BaseSlots(table, heights, c);
    if k == 0 {
      if HasClassBase(table, c) {
        SlotsAgree(table, heights, table[c].base.value);
      }
      BaseAgrees(table, heights, c);
      KeepsItself(base);
    } else {
      var slots := AddFirst(base, table[c].members, k - 1, c);
      FirstAgree(table, heights, c, k - 1);
      OneKeepsDistinct(slots, table[c].members[k - 1], c);
      KeepsThrough(base, slots, AddFirst(base, table[c].members, k, c));
      OneAgrees(table, heights, c, k - 1, slots);
      OneCovers(table, heights, c, k - 1, slots);
      DestructorAgrees(table, heights, c, k - 1, slots);
    }
  }

  lemma KeepsItself(slots: seq<Slot>)
    ensures Keeps(slots, slots)
  {
    forall i | 0 < i < |slots|
      ensures SameKey(slots[i].method_, slots[i].method_)
    {
      KeysAreEqual(slots[i].method_, slots[i].method_, slots[i].method_);
    }
  }

  lemma KeepsThrough(first: seq<Slot>, second: seq<Slot>, third: seq<Slot>)
    requires Keeps(first, second) && Keeps(second, third)
    ensures Keeps(first, third)
  {
    forall i | 0 < i < |first|
      ensures SameKey(third[i].method_, first[i].method_)
    {
      KeysAreEqual(third[i].method_, second[i].method_, first[i].method_);
    }
  }

  /** A class's slots keep the base's, and agree with walking the chain: slot 0 is the nearest
      destructor, every other the nearest method of its name and parameters, each of which has
      one slot. */
  lemma {:induction false} SlotsAgree(table: seq<Class>, heights: Heights, c: nat)
    requires IsFounded(table, heights) && c < |table|
    ensures var slots := SlotsOf(table, heights, c);
            && Distinct(slots) && Keeps(BaseSlots(table, heights, c), slots)
            && slots[0] == NearestDestructor(table, heights, c)
            && (forall i {:trigger slots[i]} :: 0 < i < |slots| ==> Nearest(table, heights, c, slots[i].method_) == Some(slots[i]))
            && (forall m {:trigger Nearest(table, heights, c, m)} :: !IsDestructor(m) && Nearest(table, heights, c, m).Some? ==> HasSlot(slots, m))
    decreases heights(c), |table[c].members| + 1
  {
    FirstAgree(table, heights, c, |table[c].members|);
    assert forall m :: Nearest(table, heights, c, m) == NearestFirst(table, heights, c, |table[c].members|, m);
  }

  /** `derived` is `c` or below it, by classes only. */
  ghost predicate DerivesFrom(table: seq<Class>, heights: Heights, derived: nat, c: nat)
    requires IsFounded(table, heights) && derived < |table|
    decreases heights(derived)
  {
    derived == c || (HasClassBase(table, derived) && DerivesFrom(table, heights, table[derived].base.value, c))
  }

  lemma {:induction false} DerivedKeeps(table: seq<Class>, heights: Heights, derived: nat, c: nat)
    requires IsFounded(table, heights) && derived < |table| && c < |table| && DerivesFrom(table, heights, derived, c)
    ensures Keeps(SlotsOf(table, heights, c), SlotsOf(table, heights, derived))
    decreases heights(derived)
  {
    if derived == c {
      KeepsItself(SlotsOf(table, heights, c));
    } else {
      var base := table[derived].base.value;
      DerivedKeeps(table, heights, base, c);
      SlotsAgree(table, heights, derived);
      KeepsThrough(SlotsOf(table, heights, c), SlotsOf(table, heights, base), SlotsOf(table, heights, derived));
    }
  }

  /** So a call through a class's slot reaches, in an object of any class below it, the nearest
      method that overrides the one called. */
  lemma DispatchIsNearest(table: seq<Class>, heights: Heights, derived: nat, c: nat, i: nat)
    requires IsFounded(table, heights) && derived < |table| && c < |table| && DerivesFrom(table, heights, derived, c)
    requires 0 < i < |SlotsOf(table, heights, c)|
    ensures i < |SlotsOf(table, heights, derived)|
    ensures Nearest(table, heights, derived, SlotsOf(table, heights, c)[i].method_) == Some(SlotsOf(table, heights, derived)[i])
  {
    DerivedKeeps(table, heights, derived, c);
    SlotsAgree(table, heights, derived);
    NearestSame(table, heights, derived, SlotsOf(table, heights, derived)[i].method_, SlotsOf(table, heights, c)[i].method_);
  }

  // ----- The table -----

  class IrClassTable {
    const table: seq<Class>
    ghost const heights: Heights
    var classes: seq<seq<Slot>>
    var byType: map<nat, nat>

    ghost predicate Valid()
      reads this
    {
      && IsFounded(table, heights)
      && (forall c <- byType :: IsBuilt(c))
    }

    ghost predicate IsBuilt(c: nat)
      reads this
      requires IsFounded(table, heights) && c in byType
    {
      c < |table| && table[c].isClass && byType[c] < |classes| && classes[byType[c]] == SlotsOf(table, heights, c)
    }

    constructor (table: seq<Class>, ghost heights: Heights)
      requires IsFounded(table, heights)
      ensures Valid() && this.table == table && this.heights == heights && byType == map[]
    {
      this.table, this.heights := table, heights;
      classes, byType := [], map[];
    }

    method SameTypeAs(one: SourceType, other: SourceType) returns (same: bool)
      ensures same == SameType(one, other)
      decreases one
    {
      if one.kind != other.kind || one.subject != other.subject || |one.arguments| != |other.arguments| {
        return false;
      }
      if (one.kind == Named || one.kind == Generic) && one.module_ != other.module_ {
        return false;
      }
      for i := 0 to |one.arguments|
        invariant forall j :: 0 <= j < i ==> SameType(one.arguments[j], other.arguments[j])
      {
        var inside := SameTypeAs(one.arguments[i], other.arguments[i]);
        if !inside {
          return false;
        }
      }
      same := true;
    }

    method SameParametersAs(one: seq<SourceType>, other: seq<SourceType>) returns (same: bool)
      ensures same == SameParameters(one, other)
    {
      if |one| != |other| {
        return false;
      }
      var i := 0;
      while i + 1 < |one|
        invariant i <= |one|
        invariant forall j :: 0 <= j < i && j < |one| - 1 ==> SameType(one[j], other[j])
      {
        var inside := SameTypeAs(one[i], other[i]);
        if !inside {
          return false;
        }
        i := i + 1;
      }
      same := true;
    }

    /** A class's base is built before the class, which begins with a copy of the base's slots. */
    method BuildClass(c: nat)
      requires Valid() && c < |table| && table[c].isClass
      modifies this
      ensures Valid() && c in byType && old(byType).Keys <= byType.Keys
      decreases heights(c)
    {
      if c in byType {
        return;
      }
      var slots := [Slot(NO_DESTRUCTOR, c)];
      if HasClassBase(table, c) {
        BuildClass(table[c].base.value);
        slots := classes[byType[table[c].base.value]];
      }
      var members := table[c].members;
      for k := 0 to |members|
        invariant Valid() && old(byType).Keys <= byType.Keys
        invariant slots == AddFirst(BaseSlots(table, heights, c), members, k, c)
      {
        slots := AddSlot(slots, members[k], c);
      }
      ghost var before := classes;
      byType := byType[c := |classes|];
      classes := classes + [slots];
      assert forall other <- byType :: other != c ==> classes[byType[other]] == before[byType[other]];
    }

    method AddSlot(slots: seq<Slot>, member: Member, c: nat) returns (more: seq<Slot>)
      requires 0 < |slots|
      ensures more == AddOne(slots, member, c)
    {
      more := slots;
      if !TakesASlot(member) {
        return;
      }
      var slot := Slot(member.method_, c);
      if IsDestructor(member.method_) {
        more := more[0 := slot];
        return;
      }
      var overrides, i := false, 1;
      while i < |more| && !overrides
        invariant 1 <= i <= |slots|
        invariant !overrides ==> more == slots && Overridden(slots, member.method_, 1) == Overridden(slots, member.method_, i)
        invariant overrides ==> more == AddOne(slots, member, c)
        decreases |slots| - i, !overrides
      {
        var same := SameParametersAs(more[i].method_.arguments, member.method_.arguments);
        if more[i].method_.name == member.method_.name && same {
          more := more[i := slot];
          overrides := true;
        } else {
          i := i + 1;
        }
      }
      if !overrides {
        more := more + [slot];
      }
    }

    /** The slot a method fills; -1 when it fills none. */
    method SlotOf(c: nat, module_: nat, candidate: nat) returns (i: int)
      requires Valid()
      ensures i == -1 || (c in byType && 0 <= i < |SlotsOf(table, heights, c)|)
      ensures i >= 0 ==> var m := SlotsOf(table, heights, c)[i].method_; m.module_ == module_ && m.candidate == candidate
      ensures i == -1 && c in byType ==>
              forall slot <- SlotsOf(table, heights, c) :: !(slot.method_.module_ == module_ && slot.method_.candidate == candidate)
    {
      if c !in byType {
        return -1;
      }
      var slots := classes[byType[c]];
      assert IsBuilt(c);
      for j := 0 to |slots|
        invariant forall k :: 0 <= k < j ==> !(slots[k].method_.module_ == module_ && slots[k].method_.candidate == candidate)
      {
        if slots[j].method_.module_ == module_ && slots[j].method_.candidate == candidate {
          return j;
        }
      }
      i := -1;
    }

    /** Every class of the table. */
    method Build()
      requires Valid()
      modifies this
      ensures Valid() && forall c :: 0 <= c < |table| && table[c].isClass ==> c in byType
    {
      for c := 0 to |table|
        invariant Valid() && forall d :: 0 <= d < c && table[d].isClass ==> d in byType
      {
        if table[c].isClass {
          BuildClass(c);
        }
      }
    }
  }
}
