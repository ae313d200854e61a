/** A class's slots, said without the table's own comparisons.

    `SameTypeIsEqual`: two types are the same exactly when, a module told only where it declares one,
    they are equal; and so two methods override each other exactly when their keys are equal.
    `SlotsAreDeclared`: the slots of a class are the methods its chain declares, from the top of the
    chain down, each key once and in the order the keys are first declared, each as it is declared
    last; and before them the last destructor.
  */
module ClassSlots {
  import opened Wrappers
  import opened ClassTables

  // ----- Types and keys -----

  /** The type as every module sees it: the module that declares a named or a generic one is part of
      it, any other's is not. */
  function Normal(t: SourceType): SourceType {
    SourceType(t.kind, t.subject, if t.kind == Named || t.kind == Generic then t.module_ else 0,
               seq(|t.arguments|, i requires 0 <= i < |t.arguments| => Normal(t.arguments[i])))
  }

  lemma {:induction false} SameTypeIsEqual(one: SourceType, other: SourceType)
    ensures SameType(one, other) <==> Normal(one) == Normal(other)
  {
    var left, right := Normal(one), Normal(other);
    if |one.arguments| == |other.arguments| {
      forall i | 0 <= i < |one.arguments|
        ensures SameType(one.arguments[i], other.arguments[i]) <==> left.arguments[i] == right.arguments[i]
      {
        SameTypeIsEqual(one.arguments[i], other.arguments[i]);
      }
      assert left.arguments == right.arguments <==> forall i :: 0 <= i < |one.arguments| ==> left.arguments[i] == right.arguments[i];
    } else {
      assert |left.arguments| != |right.arguments|;
    }
  }

  /** What a method is called by: its name and its parameters, which are all its type's arguments but
      the last, the return. */
  datatype Key = Key(name: string, count: nat, parameters: seq<SourceType>)

  function KeyOf(m: Method): Key {
    var parameters := if m.arguments == [] then 0 else |m.arguments| - 1;
    Key(m.name, |m.arguments|, seq(parameters, i requires 0 <= i < parameters => Normal(m.arguments[i])))
  }

  lemma SameKeyIsEqual(one: Method, other: Method)
    ensures SameKey(one, other) <==> KeyOf(one) == KeyOf(other)
  {
    var left, right := KeyOf(one), KeyOf(other);
    if |one.arguments| == |other.arguments| {
      forall i | 0 <= i < |one.arguments| - 1
        ensures SameType(one.arguments[i], other.arguments[i]) <==> left.parameters[i] == right.parameters[i]
      {
        SameTypeIsEqual(one.arguments[i], other.arguments[i]);
      }
      assert left.parameters == right.parameters <==> forall i :: 0 <= i < |left.parameters| ==> left.parameters[i] == right.parameters[i];
    }
  }

  // ----- What a chain declares -----

  /** A method a call may reach through a slot: of no generic function, no `init`, no destructor. */
  predicate IsVirtual(member: Member) {
    member.isFunction && !member.isGeneric && member.method_.candidate != 0 && member.method_.name !in ["init", "destroy"]
  }

  predicate EndsObjects(member: Member) {
    member.isFunction && !member.isGeneric && member.method_.candidate != 0 && member.method_.name == "destroy"
  }

  function Own(members: seq<Member>, k: nat, class_: nat): seq<Slot>
    requires k <= |members|
  {
    if k == 0 then []
    else Own(members, k - 1, class_) + if IsVirtual(members[k - 1]) then [Slot(members[k - 1].method_, class_)] else []
  }

  function OwnDestructors(members: seq<Member>, k: nat, class_: nat): seq<Slot>
    requires k <= |members|
  {
    if k == 0 then []
    else OwnDestructors(members, k - 1, class_) + if EndsObjects(members[k - 1]) then [Slot(members[k - 1].method_, class_)] else []
  }

  /** The class a class is over; a struct has no slots to keep. */
  function ClassAbove(table: seq<Class>, c: nat): Option<nat>
    requires c < |table|
  {
    var base := table[c].base;
    if base == None || |table| <= base.value || !table[base.value].isClass then None else base
  }

  /** From the top of the chain down. */
  ghost function Declarations(table: seq<Class>, heights: Heights, c: nat): seq<Slot>
    requires IsFounded(table, heights) && c < |table|
    decreases heights(c)
  {
    (if ClassAbove(table, c).Some? then Declarations(table, heights, ClassAbove(table, c).value) else [])
    + Own(table[c].members, |table[c].members|, c)
  }

  /** The first class of the chain has one of its own accord. */
  ghost function Destructors(table: seq<Class>, heights: Heights, c: nat): (slots: seq<Slot>)
    requires IsFounded(table, heights) && c < |table|
    ensures slots != []
    decreases heights(c)
  {
    (if ClassAbove(table, c).Some? then Destructors(table, heights, ClassAbove(table, c).value) else [Slot(NO_DESTRUCTOR, c)])
    + OwnDestructors(table[c].members, |table[c].members|, c)
  }

  // ----- Each once -----

  /** The keys, in the order they are first declared. */
  function FirstKeys(declared: seq<Slot>): seq<Key> {
    if declared == [] then []
    else
      var before, key := FirstKeys(declared[..|declared| - 1]), KeyOf(declared[|declared| - 1].method_);
      if key in before then before else before + [key]
  }

  /** A key as it is declared last. */
  function Last(declared: seq<Slot>, key: Key): Option<Slot> {
    if declared == [] then None
    else
      var last := declared[|declared| - 1];
      if KeyOf(last.method_) == key then Some(last) else Last(declared[..|declared| - 1], key)
  }

  /** These are the slots after the destructor's. */
  ghost predicate AreLatest(slots: seq<Slot>, declared: seq<Slot>) {
    var keys := FirstKeys(declared);
    |slots| == |keys| + 1 && forall i {:trigger slots[i]} :: 0 < i < |slots| ==> Last(declared, keys[i - 1]) == Some(slots[i])
  }

  lemma {:induction false} LastHasKey(declared: seq<Slot>, key: Key)
    ensures Last(declared, key).Some? ==> KeyOf(Last(declared, key).value.method_) == key
    decreases |declared|
  {
    if declared != [] {
      LastHasKey(declared[..|declared| - 1], key);
    }
  }

  lemma {:induction false} KeysOnce(declared: seq<Slot>)
    ensures forall i, j {:trigger FirstKeys(declared)[i], FirstKeys(declared)[j]} ::
              0 <= i < j < |FirstKeys(declared)| ==> FirstKeys(declared)[i] != FirstKeys(declared)[j]
    decreases |declared|
  {
    if declared != [] {
      KeysOnce(declared[..|declared| - 1]);
    }
  }

  lemma MoreKeys(declared: seq<Slot>, slot: Slot)
    ensures var (more, key, keys) := (declared + [slot], KeyOf(slot.method_), FirstKeys(declared));
            && FirstKeys(more) == (if key in keys then keys else keys + [key])
            && forall other {:trigger Last(more, other)} :: Last(more, other) == if other == key then Some(slot) else Last(declared, other)
  {
    var more := declared + [slot];
    assert more[..|declared|] == declared && more[|more| - 1] == slot;
  }

  /** The slots of a method's key. */
  lemma SlotsOfKey(slots: seq<Slot>, declared: seq<Slot>, m: Method)
    requires AreLatest(slots, declared)
    ensures forall j {:trigger slots[j]} :: 0 < j < |slots| ==> (SameKey(slots[j].method_, m) <==> FirstKeys(declared)[j - 1] == KeyOf(m))
  {
    forall j | 0 < j < |slots|
      ensures SameKey(slots[j].method_, m) <==> FirstKeys(declared)[j - 1] == KeyOf(m)
    {
      LastHasKey(declared, FirstKeys(declared)[j - 1]);
      SameKeyIsEqual(slots[j].method_, m);
    }
  }

  lemma Overrides(slots: seq<Slot>, declared: seq<Slot>, slot: Slot, i: nat)
    requires AreLatest(slots, declared) && 0 < i < |slots| && FirstKeys(declared)[i - 1] == KeyOf(slot.method_)
    ensures AreLatest(slots[i := slot], declared + [slot])
  {
    hide KeyOf, Last, FirstKeys;
    KeysOnce(declared);
    MoreKeys(declared, slot);
    var keys := FirstKeys(declared);
    assert keys[i - 1] in keys;
    forall j | 0 <= j < |keys|
      ensures Last(declared + [slot], keys[j]) == Some(slots[i := slot][j + 1])
    {
      assert Last(declared, keys[j + 1 - 1]) == Some(slots[j + 1]);
    }
  }

  lemma TakesOneMore(slots: seq<Slot>, declared: seq<Slot>, slot: Slot)
    requires AreLatest(slots, declared) && KeyOf(slot.method_) !in FirstKeys(declared)
    ensures AreLatest(slots + [slot], declared + [slot])
  {
    hide KeyOf, Last, FirstKeys;
    MoreKeys(declared, slot);
    var keys := FirstKeys(declared);
    forall j | 0 <= j < |keys|
      ensures Last(declared + [slot], keys[j]) == Some(slots[j + 1])
    {
      assert keys[j] in keys && Last(declared, keys[j + 1 - 1]) == Some(slots[j + 1]);
    }
  }

  /** One declaration more overrides the slot of its key, or takes one more. */
  lemma OneMoreDeclared(slots: seq<Slot>, declared: seq<Slot>, slot: Slot)
    requires AreLatest(slots, declared)
    ensures var i := Overridden(slots, slot.method_, 1);
            AreLatest(if i < |slots| then slots[i := slot] else slots + [slot], declared + [slot])
  {
    hide SameKey, KeyOf, FirstKeys, Last;
    var i, keys := Overridden(slots, slot.method_, 1), FirstKeys(declared);
    SlotsOfKey(slots, declared, slot.method_);
    if i < |slots| {
      Overrides(slots, declared, slot, i);
    } else {
      forall k | 0 <= k < |keys|
        ensures keys[k] != KeyOf(slot.method_)
      {
        assert !SameKey(slots[k + 1].method_, slot.method_);
      }
      TakesOneMore(slots, declared, slot);
    }
  }

  lemma OneMoreMember(slots: seq<Slot>, declared: seq<Slot>, destructors: seq<Slot>, member: Member, c: nat)
    requires AreLatest(slots, declared) && destructors != [] && slots[0] == destructors[|destructors| - 1]
    ensures var more := AddOne(slots, member, c);
            && AreLatest(more, declared + if IsVirtual(member) then [Slot(member.method_, c)] else [])
            && var ending := destructors + if EndsObjects(member) then [Slot(member.method_, c)] else [];
               more[0] == ending[|ending| - 1]
  {
    assert declared + [] == declared && destructors + [] == destructors;
    if IsVirtual(member) {
      OneMoreDeclared(slots, declared, Slot(member.method_, c));
    }
  }

  ghost function Above(table: seq<Class>, heights: Heights, c: nat): seq<Slot>
    requires IsFounded(table, heights) && c < |table|
  {
    if HasClassBase(table, c) then Declarations(table, heights, table[c].base.value) else []
  }

  ghost function Ended(table: seq<Class>, heights: Heights, c: nat): (slots: seq<Slot>)
    requires IsFounded(table, heights) && c < |table|
    ensures slots != []
  {
    if HasClassBase(table, c) then Destructors(table, heights, table[c].base.value) else [Slot(NO_DESTRUCTOR, c)]
  }

  ghost predicate AreDeclared(slots: seq<Slot>, declared: seq<Slot>, destructors: seq<Slot>) {
    slots != [] && destructors != [] && AreLatest(slots, declared) && slots[0] == destructors[|destructors| - 1]
  }

  lemma {:induction false} FirstAreDeclared(table: seq<Class>, heights: Heights, c: nat, k: nat)
    requires IsFounded(table, heights) && c < |table| && k <= |table[c].members|
    ensures AreDeclared(AddFirst(BaseSlots(table, heights, c), table[c].members, k, c),
                        Above(table, heights, c) + Own(table[c].members, k, c), Ended(table, heights, c) + OwnDestructors(table[c].members, k, c))
    decreases heights(c), k
  {
    hide AddOne, AreLatest, SlotsOf, Declarations, Destructors;
    var members, above, ended := table[c].members, Above(table, heights, c), Ended(table, heights, c);
    if k == 0 {
      assert above + [] == above && ended + [] == ended;
      if HasClassBase(table, c) {
        SlotsAreDeclared(table, heights, table[c].base.value);
        assert AreLatest(SlotsOf(table, heights, table[c].base.value), above) by { Unfolded(SlotsOf(table, heights, table[c].base.value), above); }
      } else {
        NoneLatest([Slot(NO_DESTRUCTOR, c)]);
      }
    } else {
      FirstAreDeclared(table, heights, c, k - 1);
      var slots := AddFirst(BaseSlots(table, heights, c), members, k - 1, c);
      var own, destructors := Own(members, k - 1, c), OwnDestructors(members, k - 1, c);
      OneMoreMember(slots, above + own, ended + destructors, members[k - 1], c);
      var one := [Slot(members[k - 1].method_, c)];
      assert above + own + (if IsVirtual(members[k - 1]) then one else []) == above + Own(members, k, c);
      assert ended + destructors + (if EndsObjects(members[k - 1]) then one else []) == ended + OwnDestructors(members, k, c);
    }
  }

  lemma NoneLatest(slots: seq<Slot>)
    requires |slots| == 1
    ensures AreLatest(slots, [])
  {
  }

  lemma Unfolded(slots: seq<Slot>, declared: seq<Slot>)
    requires |slots| == |FirstKeys(declared)| + 1
    requires forall i {:trigger slots[i]} :: 0 < i < |slots| ==> Last(declared, FirstKeys(declared)[i - 1]) == Some(slots[i])
    ensures AreLatest(slots, declared)
  {
  }

  lemma ChainUnfolds(table: seq<Class>, heights: Heights, c: nat)
    requires IsFounded(table, heights) && c < |table|
    ensures Declarations(table, heights, c) == Above(table, heights, c) + Own(table[c].members, |table[c].members|, c)
    ensures Destructors(table, heights, c) == Ended(table, heights, c) + OwnDestructors(table[c].members, |table[c].members|, c)
    ensures SlotsOf(table, heights, c) == AddFirst(BaseSlots(table, heights, c), table[c].members, |table[c].members|, c)
  {
  }

  /** A class's slots are what its chain declares. */
  lemma {:induction false} SlotsAreDeclared(table: seq<Class>, heights: Heights, c: nat)
    requires IsFounded(table, heights) && c < |table|
    ensures var (slots, declared, destructors) := (SlotsOf(table, heights, c), Declarations(table, heights, c), Destructors(table, heights, c));
            && |slots| == |FirstKeys(declared)| + 1
            && slots[0] == destructors[|destructors| - 1]
            && (forall i {:trigger slots[i]} :: 0 < i < |slots| ==> Last(declared, FirstKeys(declared)[i - 1]) == Some(slots[i]))
    decreases heights(c), |table[c].members| + 1
  {
    hide AddFirst, BaseSlots, SlotsOf, Declarations, Destructors, Above, Ended, Own, OwnDestructors, FirstKeys, Last;
    FirstAreDeclared(table, heights, c, |table[c].members|);
    ChainUnfolds(table, heights, c);
  }

  /** A call through the slot a class has for a key reaches, in an object of any class below it, the
      method that chain declares last for that key. */
  lemma CallReachesLast(table: seq<Class>, heights: Heights, derived: nat, c: nat, i: nat)
    requires IsFounded(table, heights) && derived < |table| && c < |table| && DerivesFrom(table, heights, derived, c)
    requires 0 < i < |SlotsOf(table, heights, c)|
    ensures i < |SlotsOf(table, heights, derived)|
    ensures Last(Declarations(table, heights, derived), KeyOf(SlotsOf(table, heights, c)[i].method_)) == Some(SlotsOf(table, heights, derived)[i])
  {
    var above, below := SlotsOf(table, heights, c), SlotsOf(table, heights, derived);
    var declared := Declarations(table, heights, derived);
    DerivedKeeps(table, heights, derived, c);
    SlotsAreDeclared(table, heights, derived);
    LastHasKey(declared, FirstKeys(declared)[i - 1]);
    SameKeyIsEqual(below[i].method_, above[i].method_);
  }
}
