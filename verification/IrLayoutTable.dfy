/** The layouts of a table of types, where an aggregate names the ones it holds by their numbers
    and may name itself: laid out depth first, each once, what it holds before it.
  */
module LayoutTables {
  import opened Wrappers
  import Of = Layout
  import opened Layout
  import LayoutSafety
  import LayoutEmpties

  /** A type of the table. A pointer says nothing of what it points to. */
  datatype Entry =
    | ScalarEntry(bytes: Bytes)
    | PointerEntry
    | ArrayEntry(element: Entry, length: nat)
    | AggregateEntry(index: nat)

  datatype Aggregate = Aggregate(kind: Kind, base: Option<nat>, fields: seq<Entry>, pod: bool)

  // ----- What holds what -----

  function HeldBy(e: Entry): set<nat> {
    match e
    case ArrayEntry(element, _) => HeldBy(element)
    case AggregateEntry(index) => {index}
    case _ => {}
  }

  /** What an aggregate holds by value: its base, and what its fields hold. */
  function Holds(one: Aggregate): set<nat> {
    (if one.base.Some? then {one.base.value} else {}) + set e, held | e in one.fields && held in HeldBy(e) :: held
  }

  predicate InTable(table: seq<Aggregate>) {
    forall one <- table, held <- Holds(one) :: held < |table|
  }

  ghost predicate IsChain(table: seq<Aggregate>, chain: seq<nat>) {
    forall k {:trigger chain[k]} :: 0 <= k < |chain| ==> chain[k] < |table| && (k > 0 ==> HoldsAt(table, chain[k - 1], chain[k]))
  }

  lemma ChainMore(table: seq<Aggregate>, chain: seq<nat>, index: nat)
    requires IsChain(table, chain) && index < |table| && (chain != [] ==> HoldsAt(table, chain[|chain| - 1], index))
    ensures IsChain(table, chain + [index])
  {
  }

  predicate HoldsAt(table: seq<Aggregate>, index: nat, held: nat) {
    index < |table| && held in Holds(table[index])
  }

  /** An aggregate that reaches itself through what it holds. */
  ghost predicate HoldsItself(table: seq<Aggregate>, index: nat) {
    exists chain :: 2 <= |chain| && IsChain(table, chain) && chain[0] == index == chain[|chain| - 1]
  }

  // ----- The tree of a type -----

  type Trees = map<nat, Record>

  function TreeOf(trees: Trees, e: Entry): Type
    requires HeldBy(e) <= trees.Keys
  {
    match e
    case ScalarEntry(bytes) => Scalar(bytes)
    case PointerEntry => Pointer
    case ArrayEntry(element, length) => ArrayOf(TreeOf(trees, element), length)
    case AggregateEntry(index) => Held(trees[index])
  }

  function TreesOf(trees: Trees, fields: seq<Entry>): Types
    requires forall e <- fields :: HeldBy(e) <= trees.Keys
  {
    if fields == [] then Nothing else More(TreeOf(trees, fields[0]), TreesOf(trees, fields[1..]))
  }

  /** What an aggregate holds all has a tree. */
  ghost predicate AllHeld(trees: Trees, one: Aggregate) {
    && (one.base.Some? ==> one.base.value in trees)
    && (forall e <- one.fields :: HeldBy(e) <= trees.Keys)
  }

  ghost function RecordOf(table: seq<Aggregate>, trees: Trees, index: nat): Record
    requires index < |table| && AllHeld(trees, table[index])
  {
    var one := table[index];
    Record(index, one.kind, if one.base.Some? then Some(trees[one.base.value]) else None, TreesOf(trees, one.fields), one.pod)
  }

  ghost predicate IsTree(table: seq<Aggregate>, trees: Trees, index: nat)
    requires index in trees
  {
    index < |table| && AllHeld(trees, table[index]) && trees[index] == RecordOf(table, trees, index)
  }

  /** Each tree is its aggregate over the trees of what it holds. */
  ghost predicate AreTrees(table: seq<Aggregate>, trees: Trees) {
    forall index <- trees :: IsTree(table, trees, index)
  }

  lemma {:induction false} MoreTrees(trees: Trees, more: Trees, e: Entry)
    requires HeldBy(e) <= trees.Keys && Extends(trees, more)
    ensures HeldBy(e) <= more.Keys && TreeOf(more, e) == TreeOf(trees, e)
    decreases e
  {
    if e.ArrayEntry? {
      MoreTrees(trees, more, e.element);
    }
  }

  ghost predicate Extends(trees: Trees, more: Trees) {
    trees.Keys <= more.Keys && forall index <- trees :: more[index] == trees[index]
  }

  lemma {:induction false} MoreTreesOf(trees: Trees, more: Trees, fields: seq<Entry>)
    requires (forall e <- fields :: HeldBy(e) <= trees.Keys) && Extends(trees, more)
    ensures (forall e <- fields :: HeldBy(e) <= more.Keys) && TreesOf(more, fields) == TreesOf(trees, fields)
    decreases |fields|
  {
    if fields != [] {
      MoreTrees(trees, more, fields[0]);
      MoreTreesOf(trees, more, fields[1..]);
    }
  }

  /** A tree more keeps those there are. */
  lemma OneTreeMore(table: seq<Aggregate>, trees: Trees, index: nat)
    requires AreTrees(table, trees) && index !in trees && index < |table| && AllHeld(trees, table[index])
    ensures AreTrees(table, trees[index := RecordOf(table, trees, index)])
  {
    var more := trees[index := RecordOf(table, trees, index)];
    forall other <- more
      ensures IsTree(table, more, other)
    {
      assert other == index || IsTree(table, trees, other);
      MoreTreesOf(trees, more, table[other].fields);
    }
  }

  function Height(r: Record): nat {
    1 + (if r.base.Some? then Height(r.base.value) else 0) + HeightOfFields(r.fields)
  }

  function HeightOf(t: Type): nat {
    match t
    case ArrayOf(element, _) => HeightOf(element)
    case Held(record) => Height(record)
    case _ => 0
  }

  function HeightOfFields(fields: Types): nat {
    if fields == Nothing then 0 else HeightOf(fields.first) + HeightOfFields(fields.rest)
  }

  lemma {:induction false} EntryIsHigher(trees: Trees, e: Entry, held: nat)
    requires HeldBy(e) <= trees.Keys && held in HeldBy(e)
    ensures Height(trees[held]) <= HeightOf(TreeOf(trees, e))
    decreases e
  {
    if e.ArrayEntry? {
      EntryIsHigher(trees, e.element, held);
    }
  }

  lemma {:induction false} FieldsAreHigher(trees: Trees, fields: seq<Entry>, e: Entry, held: nat)
    requires (forall e <- fields :: HeldBy(e) <= trees.Keys) && e in fields && held in HeldBy(e)
    ensures Height(trees[held]) <= HeightOfFields(TreesOf(trees, fields))
    decreases |fields|
  {
    if e == fields[0] {
      EntryIsHigher(trees, e, held);
    } else {
      FieldsAreHigher(trees, fields[1..], e, held);
    }
  }

  lemma HolderIsHigher(table: seq<Aggregate>, trees: Trees, index: nat, held: nat)
    requires AreTrees(table, trees) && index in trees && held in Holds(table[index])
    ensures held in trees && Height(trees[held]) < Height(trees[index])
  {
    var one := table[index];
    assert IsTree(table, trees, index);
    if one.base == Some(held) {
    } else {
      var e :| e in one.fields && held in HeldBy(e);
      FieldsAreHigher(trees, one.fields, e, held);
    }
  }

  /** A tree is higher than what it holds, so nothing with a tree holds itself. */
  lemma {:induction false} ChainsGoDown(table: seq<Aggregate>, trees: Trees, chain: seq<nat>)
    requires AreTrees(table, trees) && IsChain(table, chain) && chain != [] && chain[0] in trees
    ensures var last := chain[|chain| - 1];
            last in trees && Height(trees[last]) <= Height(trees[chain[0]]) - (|chain| - 1)
    decreases |chain|
  {
    if |chain| > 1 {
      var before := chain[..|chain| - 1];
      assert IsChain(table, before);
      assert HoldsAt(table, chain[|chain| - 2], chain[|chain| - 1]);
      ChainsGoDown(table, trees, before);
      HolderIsHigher(table, trees, chain[|chain| - 2], chain[|chain| - 1]);
    }
  }

  lemma TreesHoldOthers(table: seq<Aggregate>, trees: Trees, index: nat)
    requires AreTrees(table, trees) && index in trees
    ensures !HoldsItself(table, index)
  {
    if HoldsItself(table, index) {
      var chain :| 2 <= |chain| && IsChain(table, chain) && chain[0] == index == chain[|chain| - 1];
      ChainsGoDown(table, trees, chain);
    }
  }

  /** There is one way to make the trees. */
  lemma {:induction false} TreesAreUnique(table: seq<Aggregate>, one: Trees, other: Trees, index: nat)
    requires AreTrees(table, one) && AreTrees(table, other) && index in one && index in other
    ensures one[index] == other[index]
    decreases Height(one[index]), 1
  {
    assert IsTree(table, one, index) && IsTree(table, other, index);
    var a := table[index];
    if a.base.Some? {
      HolderIsHigher(table, one, index, a.base.value);
      TreesAreUnique(table, one, other, a.base.value);
    }
    forall held <- Holds(a)
      ensures held in one && held in other && one[held] == other[held]
    {
      HolderIsHigher(table, one, index, held);
      HolderIsHigher(table, other, index, held);
      TreesAreUnique(table, one, other, held);
    }
    SameFields(one, other, a.fields);
  }

  lemma {:induction false} SameFields(one: Trees, other: Trees, fields: seq<Entry>)
    requires forall e <- fields :: HeldBy(e) <= one.Keys && HeldBy(e) <= other.Keys
    requires forall e <- fields, held <- HeldBy(e) :: one[held] == other[held]
    ensures TreesOf(one, fields) == TreesOf(other, fields)
    decreases |fields|
  {
    if fields != [] {
      SameEntry(one, other, fields[0]);
      SameFields(one, other, fields[1..]);
    }
  }

  lemma {:induction false} SameEntry(one: Trees, other: Trees, e: Entry)
    requires HeldBy(e) <= one.Keys && HeldBy(e) <= other.Keys && forall held <- HeldBy(e) :: one[held] == other[held]
    ensures TreeOf(one, e) == TreeOf(other, e)
    decreases e
  {
    if e.ArrayEntry? {
      SameEntry(one, other, e.element);
    }
  }

  // ----- The table -----

  /** Not yet, being laid out, and done. */
  datatype State = NotYet | Begun | Done

  class LayoutTable {
    const types: seq<Entry>
    const table: seq<Aggregate>
    var layouts: seq<Layout>
    var states: seq<State>
    var error: Option<nat>
    ghost var trees: Trees
    ghost var chain: seq<nat>

    /** States are as many as were asked for. */
    function StateOf(index: nat): State
      reads this
    {
      if index < |states| then states[index] else NotYet
    }

    ghost predicate Valid()
      reads this
    {
      && InTable(table) && |layouts| == |states| <= |table|
      && AreTrees(table, trees)
      && (forall index :: StateOf(index) == Done <==> index in trees)
      && (forall index <- trees :: layouts[index] == LayoutOf(trees[index]))
      && (forall index :: StateOf(index) == Begun <==> index in chain)
      && IsChain(table, chain)
      && (forall i, j {:trigger chain[i], chain[j]} :: 0 <= i < j < |chain| ==> chain[i] != chain[j])
    }

    ghost predicate Known(e: Entry)
      reads this
    {
      Valid() && HeldBy(e) <= trees.Keys
    }

    ghost function Tree(e: Entry): Type
      reads this
      requires Known(e)
    {
      TreeOf(trees, e)
    }

    constructor (types: seq<Entry>, table: seq<Aggregate>)
      requires InTable(table)
      ensures Valid() && this.types == types && this.table == table && chain == []
    {
      this.types, this.table := types, table;
      layouts, states, error, trees, chain := [], [], None, map[], [];
    }

    function SizeOf(e: Entry): (size: nat)
      reads this
      requires Known(e)
      ensures size == Of.SizeOf(Tree(e))
    {
      match e
      case ScalarEntry(bytes) => bytes
      case PointerEntry => POINTER_SIZE
      case ArrayEntry(element, length) => SizeOf(element) * length
      case AggregateEntry(index) => layouts[index].size
    }

    function AlignOf(e: Entry): (align: Bytes)
      reads this
      requires Known(e)
      ensures align == Of.AlignOf(Tree(e))
    {
      match e
      case ScalarEntry(bytes) => bytes
      case PointerEntry => POINTER_SIZE
      case ArrayEntry(element, _) => AlignOf(element)
      case AggregateEntry(index) => layouts[index].align
    }

    predicate HoldsAnEmpty(e: Entry): (holds: bool)
      reads this
      requires Known(e)
      ensures holds == HoldsEmpty(Tree(e))
    {
      match e
      case ArrayEntry(element, length) => length > 0 && HoldsAnEmpty(element)
      case AggregateEntry(index) => IsTreeHere(index); table[index].kind != Union && layouts[index].holdsEmpty
      case _ => false
    }

    lemma IsTreeHere(index: nat)
      requires Valid() && index in trees
      ensures IsTree(table, trees, index)
    {
    }
 
    /** Every empty record inside a value at `at`, after those found. */
    method EmptiesOf(e: Entry, at: nat, found: seq<Empty>) returns (more: seq<Empty>)
      requires Known(e)
      ensures more == found + Shifted(Of.EmptiesOf(Tree(e)), at)
      decreases HeightOf(Tree(e)), 1, e
    {
      hide Of.SizeOf, Of.AlignOf, LayoutOf;
      more := found;
      if !HoldsAnEmpty(e) {
        LayoutEmpties.NothingToFind(Tree(e));
        return;
      }
      match e
      case ArrayEntry(element, length) =>
        var size := SizeOf(element);
        for i := 0 to length
          invariant more == found + Shifted(EmptiesOfElements(Tree(element), i), at)
        {
          var here := EmptiesOf(element, at + i * size, more);
          LayoutEmpties.ShiftedTwice(Of.EmptiesOf(Tree(element)), i * size, at);
          LayoutEmpties.ShiftedSum(EmptiesOfElements(Tree(element), i), Shifted(Of.EmptiesOf(Tree(element)), i * size), at);
          more := here;
        }
      case AggregateEntry(index) => more := EmptiesIn(index, at, found);
    }

    method EmptiesIn(index: nat, at: nat, found: seq<Empty>) returns (more: seq<Empty>)
      requires Valid() && index in trees && table[index].kind != Union
      ensures more == found + Shifted(Of.EmptiesIn(trees[index]), at)
      decreases Height(trees[index]), 0
    {
      hide LayoutOf, Of.EmptiesIn, EmptiesOfFields, Of.EmptiesOf, Height;
      ghost var tree := trees[index];
      IsTreeHere(index);
      var layout, one := layouts[index], table[index];
      ghost var own := if layout.empty then [Empty(index, 0)] else [];
      ghost var under := if one.base.Some? then Shifted(Of.EmptiesIn(tree.base.value), layout.baseOffset) else [];
      more := found;
      if layout.empty {
        more := more + [Empty(index, at)];
      }
      assert more == found + Shifted(own, at);
      if one.base.Some? {
        BaseIsLower(tree);
        more := EmptiesOf(AggregateEntry(one.base.value), at + layout.baseOffset, more);
        LayoutEmpties.ShiftedTwice(Of.EmptiesIn(tree.base.value), layout.baseOffset, at);
        LayoutEmpties.HeldUnfolds(tree.base.value);
      }
      assert more == found + Shifted(own, at) + Shifted(under, at);
      FieldsAreLower(tree);
      more := EmptiesOfAll(index, at, more);
      Gathered(found, own, under, EmptiesOfFields(tree.fields, layout.offsets), at);
      LayoutEmpties.Unfolds(tree);
    }

    method EmptiesOfAll(index: nat, at: nat, found: seq<Empty>) returns (more: seq<Empty>)
      requires Valid() && index in trees && table[index].kind != Union
      ensures more == found + Shifted(EmptiesOfFields(trees[index].fields, layouts[index].offsets), at)
      decreases HeightOfFields(trees[index].fields), 2
    {
      hide LayoutOf, EmptiesOfFields, Of.EmptiesOf, HeightOfFields, HeightOf;
      IsTreeHere(index);
      var fields, offsets := table[index].fields, layouts[index].offsets;
      LayoutSafety.LayoutIsSound(trees[index]);
      CountOf(trees, fields);
      more := found;
      assert fields[0..] == fields && offsets[0..] == offsets;
      for i := 0 to |fields|
        invariant found + Shifted(EmptiesOfFields(TreesOf(trees, fields), offsets), at) ==
                  more + Shifted(EmptiesOfFields(TreesOf(trees, fields[i..]), offsets[i..]), at)
      {
        FieldIsLower(trees, fields, i);
        OneField(trees, fields, offsets, i, at);
        more := EmptiesOf(fields[i], at + offsets[i], more);
      }
      assert fields[|fields|..] == [];
      NoFieldsLeft(trees, offsets[|fields|..], at);
    }

    /** The first offset from `from` on at which no empty record inside lands on one of its type
        that is taken. */
    method Place(e: Entry, from: nat, taken: set<Empty>) returns (at: nat, more: set<Empty>)
      requires Known(e)
      ensures at == Of.Place(Of.EmptiesOf(Tree(e)), Of.AlignOf(Tree(e)), from, taken)
      ensures more == taken + ToSet(Shifted(Of.EmptiesOf(Tree(e)), at))
    {
      hide Of.EmptiesOf, Of.AlignOf, Collides;
      at := from;
      ghost var empties := Of.EmptiesOf(Tree(e));
      var step, inside, clear := AlignOf(e), [], false;
      while !clear
        invariant Of.Place(empties, step, at, taken) == Of.Place(empties, step, from, taken)
        invariant clear ==> inside == Shifted(empties, at) && !Collides(empties, at, taken)
        decreases !clear, Bound(taken) - at
      {
        inside := EmptiesOf(e, at, []);
        assert inside == Shifted(empties, at);
        clear := IsClear(empties, inside, at, taken);
        if !clear {
          SomeTaken(empties, at, taken);
          at := at + step;
        }
      }
      more := taken + set one | one in inside;
    }

    method IsClear(ghost empties: seq<Empty>, inside: seq<Empty>, ghost at: nat, taken: set<Empty>) returns (clear: bool)
      requires inside == Shifted(empties, at)
      ensures clear == !Collides(empties, at, taken)
    {
      clear := true;
      for i := 0 to |inside|
        invariant clear <==> forall k :: 0 <= k < i ==> inside[k] !in taken
      {
        if inside[i] in taken {
          clear := false;
        }
      }
      CollidesShifted(empties, at, taken);
    }

    /** The base, and what is placed after it. */
    method PlaceBase(index: nat) returns (placed: Placing, floor: nat, baseOffset: nat)
      requires Valid() && index < |table| && AllHeld(trees, table[index])
      ensures var r := RecordOf(table, trees, index);
              placed == AfterBase(r) && floor == Floor(r) && baseOffset == if r.base.Some? then BaseOffset(r) else 0
    {
      hide LayoutOf, Of.EmptiesIn, TreesOf, Of.Place;
      ghost var r := RecordOf(table, trees, index);
      var base, taken, data: nat, align: Bytes := table[index].base, {}, 0, 1;
      floor, baseOffset := 0, 0;
      if base.Some? {
        IsTreeHere(base.value);
        LayoutEmpties.HeldUnfolds(trees[base.value]);
        LayoutSafety.PlaceAmongNone(Of.EmptiesIn(trees[base.value]), layouts[base.value].align, 0);
      }
      if table[index].kind == Class {
        if base.Some? && layouts[base.value].dynamic {
          data, align := layouts[base.value].dataSize, layouts[base.value].align;
          var at;
          at, taken := Place(AggregateEntry(base.value), 0, taken);
          base := None;
        } else {
          data, align := POINTER_SIZE, POINTER_SIZE;
        }
      }
      assert !SharesPointer(r) ==> data == OwnPointer(r);
      if base.Some? {
        var above := layouts[base.value];
        if above.empty {
          baseOffset, taken := Place(AggregateEntry(base.value), 0, taken);
          floor := baseOffset + above.size;
        } else {
          baseOffset, taken := Place(AggregateEntry(base.value), AlignUp(data, above.align), taken);
          data := baseOffset + if table[base.value].pod then above.size else above.dataSize;
        }
        if above.align > align {
          align := above.align;
        }
      }
      placed := Placing(data, align, taken, []);
      assert forall empties: seq<Empty> :: {} + ToSet(empties) == ToSet(empties);
    }

    method LayOutRecord(index: nat) returns (layout: Layout)
      requires Valid() && index < |table| && AllHeld(trees, table[index]) && table[index].kind != Union
      ensures layout == LayoutOf(RecordOf(table, trees, index))
    {
      hide Of.Place, LayoutOf, AfterBase, Floor, BaseOffset, HoldsEmpty, PlaceFields;
      ghost var r := RecordOf(table, trees, index);
      var one := table[index];
      var begun, floor, baseOffset := PlaceBase(index);
      var placed := PlaceAll(one.fields, begun);
      var size := AlignUp(if placed.data > floor then placed.data else floor, placed.align);
      var empty := one.kind != Class && |one.fields| == 0 && (one.base == None || layouts[one.base.value].empty);
      var holdsEmpty := empty || (one.base.Some? && HoldsAnEmpty(AggregateEntry(one.base.value)));
      var inFields := AnyField(one.fields);
      LayoutEmpties.Unfolds(r);
      if one.base.Some? {
        LayoutEmpties.HeldUnfolds(trees[one.base.value]);
      }
      layout := Layout(if size == 0 then placed.align else size, placed.align, placed.data, empty, one.kind == Class,
                       holdsEmpty || inFields, baseOffset, placed.offsets);
    }

    /** The fields in turn, every one placed by what the ones before it left. */
    method PlaceAll(fields: seq<Entry>, begun: Placing) returns (placed: Placing)
      requires Valid() && forall e <- fields :: HeldBy(e) <= trees.Keys
      ensures placed == PlaceFields(begun, TreesOf(trees, fields))
    {
      hide Of.SizeOf, Of.AlignOf, Of.EmptiesOf, Of.Place;
      var data: nat, align: Bytes, taken, offsets: seq<nat> := begun.data, begun.align, begun.taken, begun.offsets;
      assert fields[0..] == fields;
      for i := 0 to |fields|
        invariant PlaceFields(Placing(data, align, taken, offsets), TreesOf(trees, fields[i..])) == PlaceFields(begun, TreesOf(trees, fields))
      {
        var e := fields[i];
        assert fields[i..][1..] == fields[i + 1..];
        var alignment := AlignOf(e);
        var at;
        at, taken := Place(e, AlignUp(data, alignment), taken);
        offsets := offsets + [at];
        data := at + SizeOf(e);
        if alignment > align {
          align := alignment;
        }
      }
      placed := Placing(data, align, taken, offsets);
    }

    method AnyField(fields: seq<Entry>) returns (any: bool)
      requires Valid() && forall e <- fields :: HeldBy(e) <= trees.Keys
      ensures any == AnyHoldsEmpty(TreesOf(trees, fields))
    {
      hide HoldsEmpty;
      any := false;
      assert fields[0..] == fields;
      for i := 0 to |fields|
        invariant AnyHoldsEmpty(TreesOf(trees, fields)) == (any || AnyHoldsEmpty(TreesOf(trees, fields[i..])))
      {
        assert fields[i..][1..] == fields[i + 1..];
        if HoldsAnEmpty(fields[i]) {
          any := true;
        }
      }
    }

    method LayOutUnion(index: nat) returns (layout: Layout)
      requires Valid() && index < |table| && AllHeld(trees, table[index]) && table[index].kind == Union
      ensures layout == LayoutOf(RecordOf(table, trees, index))
    {
      hide Of.SizeOf, Of.AlignOf;
      var fields := table[index].fields;
      var largest, align: Bytes, offsets := 0, 1, [];
      assert fields[0..] == fields;
      for i := 0 to |fields|
        invariant Largest(TreesOf(trees, fields[i..]), largest, align) == Largest(TreesOf(trees, fields), 0, 1)
        invariant offsets == seq(i, _ => 0)
      {
        assert fields[i..][1..] == fields[i + 1..];
        offsets := offsets + [0];
        if SizeOf(fields[i]) > largest {
          largest := SizeOf(fields[i]);
        }
        if AlignOf(fields[i]) > align {
          align := AlignOf(fields[i]);
        }
      }
      CountOf(trees, fields);
      var size := AlignUp(largest, align);
      if size == 0 {
        size := align;
      }
      layout := Layout(size, align, size, false, false, false, 0, offsets);
    }

    /** A state and a layout for every number up to this one. */
    method MakeRoom(index: nat)
      requires Valid() && index < |table|
      modifies this`states, this`layouts
      ensures Valid() && index < |states|
    {
      ghost var before := states;
      if index >= |states| {
        states := states + seq(index + 1 - |states|, _ => NotYet);
        layouts := layouts + seq(index + 1 - |layouts|, _ => Layout(0, 1, 0, false, false, false, 0, []));
      }
      assert forall i: nat :: StateOf(i) == if i < |before| then before[i] else NotYet;
    }

    method Begin(index: nat)
      requires Valid() && index < |states| && states[index] == NotYet
      requires chain != [] ==> HoldsAt(table, chain[|chain| - 1], index)
      modifies this`states, this`chain
      ensures Valid() && chain == old(chain) + [index]
    {
      hide LayoutOf, IsTree, AreTrees, HoldsAt, InTable, IsChain;
      ghost var before := states;
      assert StateOf(index) == NotYet;
      ChainMore(table, chain, index);
      states := states[index := Begun];
      chain := chain + [index];
      assert forall i :: i in chain <==> i in old(chain) || i == index;
      assert forall i: nat :: StateOf(i) == if i == index then Begun else if i < |before| then before[i] else NotYet;
    }

    /** Done, and everything it holds is. */
    method Finish(index: nat, layout: Layout, ghost around: seq<nat>)
      requires Valid() && chain == around + [index] && index < |table| && AllHeld(trees, table[index])
      requires layout == LayoutOf(RecordOf(table, trees, index))
      modifies this`states, this`layouts, this`trees, this`chain
      ensures Valid() && chain == around && index in trees && Extends(old(trees), trees)
    {
      hide LayoutOf, RecordOf, IsTree, AreTrees, IsChain, Of.EmptiesOf;
      ghost var before := states;
      assert chain[|around|] == index && StateOf(index) == Begun;
      OneTreeMore(table, trees, index);
      ChainBefore(table, around, index);
      trees := trees[index := RecordOf(table, trees, index)];
      layouts := layouts[index := layout];
      states := states[index := Done];
      chain := around;
      assert forall i: nat :: StateOf(i) == if i == index then Done else if i < |before| then before[i] else NotYet;
    }

    /** An aggregate and, first, everything it holds by value. */
    method LayOut(index: nat) returns (ok: bool)
      requires Valid() && index < |table| && (chain != [] ==> HoldsAt(table, chain[|chain| - 1], index))
      modifies this
      ensures ok ==> Valid() && chain == old(chain) && index in trees && Extends(old(trees), trees)
      ensures !ok ==> error.Some? && HoldsItself(table, error.value)
      decreases |table| - |chain|, 0
    {
      hide RecordOf, IsTree, AreTrees, IsChain, LayoutOf, HoldsItself, Holds, HoldsAt, Of.EmptiesOf, Of.SizeOf, Of.AlignOf;
      MakeRoom(index);
      if states[index] == Done {
        return true;
      }
      if states[index] == Begun {
        ChainCloses(table, chain, index);
        error := Some(index);
        return false;
      }
      Begin(index);
      ghost var around := old(chain);
      ChainFits(table, chain);
      ok := LayOutInside(index);
      if !ok {
        return;
      }
      var layout;
      if table[index].kind == Union {
        layout := LayOutUnion(index);
      } else {
        layout := LayOutRecord(index);
      }
      Finish(index, layout, around);
      ok := true;
    }

    /** What it holds by value, first. */
    method LayOutInside(index: nat) returns (ok: bool)
      requires Valid() && index < |table| && chain != [] && chain[|chain| - 1] == index
      modifies this
      ensures ok ==> Valid() && chain == old(chain) && Extends(old(trees), trees) && AllHeld(trees, table[index])
      ensures !ok ==> error.Some? && HoldsItself(table, error.value)
      decreases |table| - |chain|, 2
    {
      hide RecordOf, IsTree, AreTrees, IsChain, LayoutOf, HoldsItself, Holds, HoldsAt, Of.EmptiesOf, Of.SizeOf, Of.AlignOf;
      HeldIsInTable(table, index);
      var one := table[index];
      if one.base.Some? {
        ok := LayOut(one.base.value);
        if !ok {
          return;
        }
      }
      for i := 0 to |one.fields|
        invariant Valid() && chain == old(chain) && Extends(old(trees), trees)
        invariant one.base.Some? ==> one.base.value in trees
        invariant forall k :: 0 <= k < i ==> HeldBy(one.fields[k]) <= trees.Keys
      {
        assert one.fields[i] in one.fields;
        ok := LayOutHeld(one.fields[i]);
        if !ok {
          return;
        }
      }
      ok := true;
    }

    method LayOutHeld(e: Entry) returns (ok: bool)
      requires Valid() && chain != [] && forall held <- HeldBy(e) :: held < |table| && HoldsAt(table, chain[|chain| - 1], held)
      modifies this
      ensures ok ==> Valid() && chain == old(chain) && HeldBy(e) <= trees.Keys && Extends(old(trees), trees)
      ensures !ok ==> error.Some? && HoldsItself(table, error.value)
      decreases |table| - |chain|, 1, e
    {
      match e
      case ArrayEntry(element, _) =>
        assert HeldBy(e) == HeldBy(element);
        ok := LayOutHeld(element);
      case AggregateEntry(index) =>
        assert index in HeldBy(e);
        ok := LayOut(index);
      case _ => ok := true;
    }

    /** Every aggregate of the table; it fails exactly when one of them holds itself. */
    method LayOutAll() returns (ok: bool)
      requires Valid() && chain == [] && forall i :: 0 <= i < |table| ==> AggregateEntry(i) in types
      requires forall e <- types :: e.AggregateEntry? ==> e.index < |table|
      modifies this
      ensures ok <==> forall i :: 0 <= i < |table| ==> !HoldsItself(table, i)
      ensures ok ==> Valid() && forall i :: 0 <= i < |table| ==> i in trees && layouts[i] == LayoutOf(trees[i])
    {
      for i := 0 to |types|
        invariant Valid() && chain == []
        invariant forall k :: 0 <= k < i && types[k].AggregateEntry? ==> types[k].index in trees
      {
        if types[i].AggregateEntry? {
          ok := LayOut(types[i].index);
          if !ok {
            return;
          }
        }
      }
      ok := true;
      forall i | 0 <= i < |table|
        ensures i in trees && !HoldsItself(table, i)
      {
        assert AggregateEntry(i) in types;
        TreesHoldOthers(table, trees, i);
      }
    }
  }

  lemma HeldIsInTable(table: seq<Aggregate>, index: nat)
    requires InTable(table) && index < |table|
    ensures forall held <- Holds(table[index]) :: held < |table| && HoldsAt(table, index, held)
    ensures table[index].base.Some? ==> table[index].base.value in Holds(table[index])
    ensures forall e <- table[index].fields :: HeldBy(e) <= Holds(table[index])
  {
  }

  lemma ChainBefore(table: seq<Aggregate>, around: seq<nat>, index: nat)
    requires var chain := around + [index];
             IsChain(table, chain) && forall i, j {:trigger chain[i], chain[j]} :: 0 <= i < j < |chain| ==> chain[i] != chain[j]
    ensures IsChain(table, around) && index !in around
    ensures forall i, j {:trigger around[i], around[j]} :: 0 <= i < j < |around| ==> around[i] != around[j]
    ensures forall i :: i in around + [index] <==> i in around || i == index
  {
    var chain := around + [index];
    assert forall k {:trigger around[k]} :: 0 <= k < |around| ==> around[k] == chain[k];
    assert chain[|around|] == index;
  }

  /** What is met again while it is being laid out is held by itself. */
  lemma ChainCloses(table: seq<Aggregate>, chain: seq<nat>, index: nat)
    requires IsChain(table, chain) && index in chain && HoldsAt(table, chain[|chain| - 1], index) && index < |table|
    ensures HoldsItself(table, index)
  {
    var i :| 0 <= i < |chain| && chain[i] == index;
    var closed := chain[i..] + [index];
    forall k | 0 <= k < |closed|
      ensures closed[k] < |table| && (k > 0 ==> HoldsAt(table, closed[k - 1], closed[k]))
    {
      if k < |chain| - i {
        assert closed[k] == chain[i + k] && (k > 0 ==> closed[k - 1] == chain[i + k - 1]);
      } else {
        assert closed[k] == index && closed[k - 1] == chain[|chain| - 1];
      }
    }
    assert IsChain(table, closed) && closed[0] == index == closed[|closed| - 1];
  }

  lemma ChainFits(table: seq<Aggregate>, chain: seq<nat>)
    requires IsChain(table, chain)
    requires forall i, j {:trigger chain[i], chain[j]} :: 0 <= i < j < |chain| ==> chain[i] != chain[j]
    ensures |chain| <= |table|
  {
    FitsInTable(chain, |table|);
  }

  lemma SomethingBelow(chain: seq<nat>, bound: nat)
    requires chain != [] && forall k {:trigger chain[k]} :: 0 <= k < |chain| ==> chain[k] < bound
    ensures 0 < bound
  {
    assert chain[0] < bound;
  }

  /** Different numbers below `bound` are at most `bound`. */
  lemma {:induction false} FitsInTable(chain: seq<nat>, bound: nat)
    requires forall k {:trigger chain[k]} :: 0 <= k < |chain| ==> chain[k] < bound
    requires forall i, j {:trigger chain[i], chain[j]} :: 0 <= i < j < |chain| ==> chain[i] != chain[j]
    ensures |chain| <= bound
    decreases bound
  {
    if bound > 0 && bound - 1 in chain {
      var k :| 0 <= k < |chain| && chain[k] == bound - 1;
      FitsInTable(chain[..k] + chain[k + 1..], bound - 1);
    } else if bound > 0 {
      FitsInTable(chain, bound - 1);
    } else if chain != [] {
      SomethingBelow(chain, bound);
      assert false;
    }
  }

  lemma {:induction false} CountOf(trees: Trees, fields: seq<Entry>)
    requires forall e <- fields :: HeldBy(e) <= trees.Keys
    ensures Count(TreesOf(trees, fields)) == |fields|
    decreases |fields|
  {
    if fields != [] {
      CountOf(trees, fields[1..]);
    }
  }

  lemma {:induction false} FieldIsLower(trees: Trees, fields: seq<Entry>, i: nat)
    requires (forall e <- fields :: HeldBy(e) <= trees.Keys) && i < |fields|
    ensures HeightOf(TreeOf(trees, fields[i])) <= HeightOfFields(TreesOf(trees, fields))
    decreases |fields|
  {
    if i > 0 {
      FieldIsLower(trees, fields[1..], i - 1);
    }
  }

  lemma BaseIsLower(r: Record)
    requires r.base.Some?
    ensures HeightOf(Held(r.base.value)) < Height(r)
  {
  }

  lemma FieldsAreLower(r: Record)
    ensures HeightOfFields(r.fields) < Height(r)
  {
  }

  lemma NoFieldsLeft(trees: Trees, offsets: seq<nat>, at: nat)
    ensures Shifted(EmptiesOfFields(TreesOf(trees, []), offsets), at) == []
  {
  }

  lemma OneField(trees: Trees, fields: seq<Entry>, offsets: seq<nat>, i: nat, at: nat)
    requires (forall e <- fields :: HeldBy(e) <= trees.Keys) && i < |fields| == |offsets|
    ensures Shifted(EmptiesOfFields(TreesOf(trees, fields[i..]), offsets[i..]), at) ==
            Shifted(Of.EmptiesOf(TreeOf(trees, fields[i])), at + offsets[i])
            + Shifted(EmptiesOfFields(TreesOf(trees, fields[i + 1..]), offsets[i + 1..]), at)
  {
    var here, rest := Of.EmptiesOf(TreeOf(trees, fields[i])), EmptiesOfFields(TreesOf(trees, fields[i + 1..]), offsets[i + 1..]);
    assert fields[i..][1..] == fields[i + 1..] && offsets[i..][1..] == offsets[i + 1..];
    LayoutEmpties.ShiftedSum(Shifted(here, offsets[i]), rest, at);
    LayoutEmpties.ShiftedTwice(here, offsets[i], at);
  }

  lemma Gathered(found: seq<Empty>, own: seq<Empty>, under: seq<Empty>, held: seq<Empty>, at: nat)
    ensures found + Shifted(own + under + held, at) == found + Shifted(own, at) + Shifted(under, at) + Shifted(held, at)
  {
    LayoutEmpties.ShiftedSum(own + under, held, at);
    LayoutEmpties.ShiftedSum(own, under, at);
  }

  lemma SomeTaken(empties: seq<Empty>, at: nat, taken: set<Empty>)
    requires Collides(empties, at, taken)
    ensures at < Bound(taken)
  {
  }

  lemma CollidesShifted(empties: seq<Empty>, at: nat, taken: set<Empty>)
    ensures Collides(empties, at, taken) <==> exists k :: 0 <= k < |empties| && Shifted(empties, at)[k] in taken
  {
    if Collides(empties, at, taken) {
      var one :| one in empties && Empty(one.name, one.at + at) in taken;
      var k :| 0 <= k < |empties| && empties[k] == one;
      assert Shifted(empties, at)[k] in taken;
    }
    if k :| 0 <= k < |empties| && Shifted(empties, at)[k] in taken {
      assert empties[k] in empties;
    }
  }

  // ----- What the trees of a table are -----

  lemma {:induction false} BasesAreLower(table: seq<Aggregate>, trees: Trees, index: nat)
    requires AreTrees(table, trees) && index in trees
    ensures forall base <- LayoutEmpties.Bases(trees[index]) :: base in trees && Height(trees[base]) < Height(trees[index])
    ensures trees[index].name == index
    decreases Height(trees[index])
  {
    assert IsTree(table, trees, index);
    if table[index].base.Some? {
      BaseIsLower(trees[index]);
      assert IsTree(table, trees, table[index].base.value);
      BasesAreLower(table, trees, table[index].base.value);
    }
  }

  /** No aggregate that was laid out is among its own bases. */
  lemma {:induction false} TreesAreFounded(table: seq<Aggregate>, trees: Trees, index: nat)
    requires AreTrees(table, trees) && index in trees
    ensures LayoutEmpties.FoundedRecord(trees[index])
    decreases Height(trees[index]), 1, 0
  {
    assert IsTree(table, trees, index);
    BasesAreLower(table, trees, index);
    if table[index].base.Some? {
      BaseIsLower(trees[index]);
      TreesAreFounded(table, trees, table[index].base.value);
    }
    FieldsAreLower(trees[index]);
    FieldsAreFounded(table, trees, table[index].fields);
  }

  lemma {:induction false} FieldsAreFounded(table: seq<Aggregate>, trees: Trees, fields: seq<Entry>)
    requires AreTrees(table, trees) && forall e <- fields :: HeldBy(e) <= trees.Keys
    ensures LayoutEmpties.FoundedFields(TreesOf(trees, fields))
    decreases HeightOfFields(TreesOf(trees, fields)), 3, |fields|
  {
    if fields != [] {
      EntryIsFounded(table, trees, fields[0]);
      FieldsAreFounded(table, trees, fields[1..]);
    }
  }

  lemma {:induction false} EntryIsFounded(table: seq<Aggregate>, trees: Trees, e: Entry)
    requires AreTrees(table, trees) && HeldBy(e) <= trees.Keys
    ensures LayoutEmpties.Founded(TreeOf(trees, e))
    decreases HeightOf(TreeOf(trees, e)), 2, e
  {
    match e
    case ArrayEntry(element, _) => EntryIsFounded(table, trees, element);
    case AggregateEntry(index) => TreesAreFounded(table, trees, index);
    case ScalarEntry(_) =>
    case PointerEntry =>
  }

  /** So in any table whose arrays all have elements, no two empty records of one type share an
      address in anything laid out. */
  lemma TableKeepsEmptiesApart(table: seq<Aggregate>, trees: Trees, e: Entry)
    requires AreTrees(table, trees) && HeldBy(e) <= trees.Keys && LayoutEmpties.Lengthy(TreeOf(trees, e))
    ensures LayoutEmpties.NoRepeats(Of.EmptiesOf(TreeOf(trees, e)))
  {
    EntryIsFounded(table, trees, e);
    LayoutEmpties.LengthyIsSound(TreeOf(trees, e));
    LayoutEmpties.EmptiesAreApart(TreeOf(trees, e));
  }
}
