/** The loop over an array's elements, which counts up in a slot and stops at the length.

    The loop's bound is the length. `ElementsAreTidy`: a loop around work that leaves the loop's own
    slot and values alone never goes round more than its bound, whatever else the work does, and so
    for arrays of any depth and whatever is called for an element (`EachIsTidy`).
    `EachIsVisited`: over an array of arrays of any depth every element is come to once, first to
    last or last to first, unless a call stops the program, and the flattened function does so too
    (`FlattenedVisits`). Whatever the calls do, it ends, and at no bound (`FlattenedEnds`).
  */
module ElementLoops {
  import opened Ir
  import opened Words
  import opened Interpreter
  import opened StructuredMeaning
  import opened Lowerer
  import opened LowererMeaning
  import Flattener
  import FlattenerMeaning

  // ----- The code -----

  function Binary(opcode: Opcode, a: nat, b: nat, value: nat): Inst {
    Compute(opcode, [a, b], value, 0, HERE)
  }

  function Indexing(size: nat, place: nat, i: nat, value: nat): Inst {
    Compute(Index, [place, i], value, size, HERE)
  }

  /** `begin_elements`, `work`, `end_elements`. From `v` up the values are the length, the slot
      `turn`, its first 0, the turn, whether it is past the end, the three for going backwards, the
      element, and the three of the step; from `v + 12` the numbers are the work's. */
  function Elements(length: U32, size: nat, place: nat, backwards: bool, v: nat, region: nat, work: Code): Code {
    Plain(Constant(length, v), Plain(Constant(0, v + 2), Plain(Storing(v + 2, v + 1),
      Loop(region, length, Round(size, place, backwards, v, region, work), HERE, End))))
  }

  function Round(size: nat, place: nat, backwards: bool, v: nat, region: nat, work: Code): Code {
    Plain(Loading(v + 1, v + 3), Plain(Binary(UGe, v + 3, v, v + 4),
      If(region + 1, v + 4, Break(region, HERE, End), false, End, HERE, OneElement(size, place, backwards, v, work))))
  }

  function OneElement(size: nat, place: nat, backwards: bool, v: nat, work: Code): Code {
    if backwards
    then Plain(Binary(Sub, v, v + 3, v + 5), Plain(Constant(1, v + 6), Plain(Binary(Sub, v + 5, v + 6, v + 7),
           Plain(Indexing(size, place, v + 7, v + 8), Concat(work, OneOn(v))))))
    else Plain(Indexing(size, place, v + 3, v + 8), Concat(work, OneOn(v)))
  }

  function OneOn(v: nat): Code {
    Plain(Loading(v + 1, v + 9), Plain(Constant(1, v + 10), Plain(Binary(Add, v + 9, v + 10, v + 11), One(Storing(v + 11, v + 1)))))
  }

  // ----- Its meaning -----

  /** A frame's values, its slots by the value that holds their address, and what was visited. */
  datatype Frame = Frame(values: map<nat, Word>, slots: map<nat, Word>, visited: seq<Word>)

  function CellAt(cells: map<nat, Word>, cell: nat): Word {
    if cell in cells then cells[cell] else 0
  }

  function AddressOfElement(place: Word, i: Word, size: nat): Word {
    (place + ToSigned(i) * size) % TWO64
  }

  type Others = (Inst, Frame) -> Effect<Frame>

  /** The loop's own instructions, of values 64 bits wide; the others do as they will. */
  function Does(others: Others, inst: Inst, s: Frame): Effect<Frame> {
    if !inst.Compute? then others(inst, s)
    else
      var a := if 0 < |inst.operands| then inst.operands[0] else 0;
      var b := if 1 < |inst.operands| then inst.operands[1] else 0;
      match inst.opcode
      case Const => Next(s.(values := s.values[inst.result := inst.extra % TWO64]))
      case Load => Next(s.(values := s.values[inst.result := CellAt(s.slots, a)]))
      case Store => Next(s.(slots := s.slots[b := CellAt(s.values, a)]))
      case Add => Next(s.(values := s.values[inst.result := Sum(CellAt(s.values, a), CellAt(s.values, b))]))
      case Sub => Next(s.(values := s.values[inst.result := Difference(CellAt(s.values, a), CellAt(s.values, b))]))
      case UGe => Next(s.(values := s.values[inst.result := if CellAt(s.values, a) >= CellAt(s.values, b) then 1 else 0]))
      case Index => Next(s.(values := s.values[inst.result := AddressOfElement(CellAt(s.values, a), CellAt(s.values, b), inst.extra)]))
      case _ => others(inst, s)
  }

  function Counting(others: Others): Meaning<Frame> {
    Meaning(
      (inst: Inst, s: Frame) => Does(others, inst, s),
      (value: nat, s: Frame) => CellAt(s.values, value),
      (parameters: seq<nat>, arguments: seq<nat>, s: Frame) => s)
  }

  lemma Goes(others: Others, inst: Inst, next: Code, s: Frame, t: Frame, fuel: nat)
    requires inst.Compute? && Does(others, inst, s) == Next(t)
    ensures Exec(Counting(others), Plain(inst, next), s, fuel) == Exec(Counting(others), next, t, fuel)
  {
    assert ExecHead(Counting(others), Plain(inst, next), s, fuel) == Fall(t);
  }

  lemma Constants(others: Others, bits: Word, value: nat, next: Code, s: Frame, fuel: nat)
    ensures Exec(Counting(others), Plain(Constant(bits, value), next), s, fuel)
         == Exec(Counting(others), next, s.(values := s.values[value := bits]), fuel)
  {
    Goes(others, Constant(bits, value), next, s, s.(values := s.values[value := bits]), fuel);
  }

  lemma Loads(others: Others, slot: nat, value: nat, next: Code, s: Frame, fuel: nat)
    ensures Exec(Counting(others), Plain(Loading(slot, value), next), s, fuel)
         == Exec(Counting(others), next, s.(values := s.values[value := CellAt(s.slots, slot)]), fuel)
  {
    Goes(others, Loading(slot, value), next, s, s.(values := s.values[value := CellAt(s.slots, slot)]), fuel);
  }

  lemma Stores(others: Others, value: nat, slot: nat, next: Code, s: Frame, fuel: nat)
    ensures Exec(Counting(others), Plain(Storing(value, slot), next), s, fuel)
         == Exec(Counting(others), next, s.(slots := s.slots[slot := CellAt(s.values, value)]), fuel)
  {
    Goes(others, Storing(value, slot), next, s, s.(slots := s.slots[slot := CellAt(s.values, value)]), fuel);
  }

  lemma Compares(others: Others, a: nat, b: nat, value: nat, next: Code, s: Frame, fuel: nat)
    ensures Exec(Counting(others), Plain(Binary(UGe, a, b, value), next), s, fuel)
         == Exec(Counting(others), next, s.(values := s.values[value := if CellAt(s.values, a) >= CellAt(s.values, b) then 1 else 0]), fuel)
  {
    Goes(others, Binary(UGe, a, b, value), next, s,
         s.(values := s.values[value := if CellAt(s.values, a) >= CellAt(s.values, b) then 1 else 0]), fuel);
  }

  lemma Subtracts(others: Others, a: nat, b: nat, value: nat, next: Code, s: Frame, made: Word, fuel: nat)
    requires made == CellAt(s.values, a) - CellAt(s.values, b)
    ensures Exec(Counting(others), Plain(Binary(Sub, a, b, value), next), s, fuel)
         == Exec(Counting(others), next, s.(values := s.values[value := made]), fuel)
  {
    Goes(others, Binary(Sub, a, b, value), next, s, s.(values := s.values[value := made]), fuel);
  }

  lemma Adds(others: Others, a: nat, b: nat, value: nat, next: Code, s: Frame, made: Word, fuel: nat)
    requires made == CellAt(s.values, a) + CellAt(s.values, b)
    ensures Exec(Counting(others), Plain(Binary(Add, a, b, value), next), s, fuel)
         == Exec(Counting(others), next, s.(values := s.values[value := made]), fuel)
  {
    Goes(others, Binary(Add, a, b, value), next, s, s.(values := s.values[value := made]), fuel);
  }

  lemma Indexes(others: Others, size: nat, place: nat, i: nat, value: nat, next: Code, s: Frame, fuel: nat)
    ensures Exec(Counting(others), Plain(Indexing(size, place, i, value), next), s, fuel)
         == Exec(Counting(others), next,
                 s.(values := s.values[value := AddressOfElement(CellAt(s.values, place), CellAt(s.values, i), size)]), fuel)
  {
    Goes(others, Indexing(size, place, i, value), next, s,
         s.(values := s.values[value := AddressOfElement(CellAt(s.values, place), CellAt(s.values, i), size)]), fuel);
  }

  /** What was there below `v` is as it was. */
  predicate SameBelow(s: Frame, t: Frame, v: nat) {
    forall k: nat {:trigger CellAt(t.values, k)} {:trigger CellAt(t.slots, k)} :: k < v ==> CellAt(t.values, k) == CellAt(s.values, k) && CellAt(t.slots, k) == CellAt(s.slots, k)
  }

  lemma SameBelowMore(s: Frame, t: Frame, u: Frame, v: nat, w: nat)
    requires SameBelow(s, t, v) && SameBelow(t, u, w) && v <= w
    ensures SameBelow(s, u, v)
  {
    forall k: nat | k < v
      ensures CellAt(u.values, k) == CellAt(s.values, k) && CellAt(u.slots, k) == CellAt(s.slots, k)
    {
      assert CellAt(t.values, k) == CellAt(s.values, k) && CellAt(t.slots, k) == CellAt(s.slots, k);
    }
  }

  /** The state a round's work begins in, at the turn `i`. */
  ghost predicate StartsWork(s: Frame, t: Frame, length: U32, size: nat, place: nat, backwards: bool, v: nat, i: nat)
    requires i < length
  {
    && SameBelow(s, t, v + 3) && t.visited == s.visited
    && CellAt(t.values, v + 8) == AddressOfElement(CellAt(s.values, place), if backwards then length - i - 1 else i, size)
  }

  /** A round at the turn `i`: past the end it leaves the loop, and before it comes to the work. */
  lemma RoundRuns(others: Others, length: U32, size: nat, place: nat, backwards: bool, v: nat, region: nat, work: Code,
                  s: Frame, i: nat, fuel: nat)
      returns (t: Frame)
    requires CellAt(s.values, v) == length && CellAt(s.slots, v + 1) == i && i <= length && place < v
    ensures SameBelow(s, t, v + 3) && t.visited == s.visited && CellAt(t.values, v) == length && CellAt(t.slots, v + 1) == i
    ensures i == length ==> Exec(Counting(others), Round(size, place, backwards, v, region, work), s, fuel) == Broke(region, t)
    ensures i < length ==>
              && StartsWork(s, t, length, size, place, backwards, v, i)
              && Exec(Counting(others), Round(size, place, backwards, v, region, work), s, fuel)
                 == Exec(Counting(others), Concat(work, OneOn(v)), t, fuel)
  {
    hide Exec, Concat, Does, AddressOfElement, OneElement, OneOn;
    var m := Counting(others);
    var rest := OneElement(size, place, backwards, v, work);
    var test := If(region + 1, v + 4, Break(region, HERE, End), false, End, HERE, rest);
    var s1 := s.(values := s.values[v + 3 := i]);
    Loads(others, v + 1, v + 3, Plain(Binary(UGe, v + 3, v, v + 4), test), s, fuel);
    t := s1.(values := s1.values[v + 4 := if i >= length then 1 else 0]);
    Compares(others, v + 3, v, v + 4, test, s1, fuel);
    TestRuns(others, region, v, rest, t, fuel);
    if i < length {
      t := ElementRuns(others, length, size, place, backwards, v, work, t, i, fuel);
    }
  }

  lemma TestRuns(others: Others, region: nat, v: nat, rest: Code, s: Frame, fuel: nat)
    ensures Exec(Counting(others), If(region + 1, v + 4, Break(region, HERE, End), false, End, HERE, rest), s, fuel)
         == if CellAt(s.values, v + 4) != 0 then Broke(region, s) else Exec(Counting(others), rest, s, fuel)
  {
    var m, leave := Counting(others), Break(region, HERE, End);
    assert ExecHead(m, leave, s, fuel) == Broke(region, s);
    assert Exec(m, leave, s, fuel) == Broke(region, s);
  }

  lemma ElementRuns(others: Others, length: U32, size: nat, place: nat, backwards: bool, v: nat, work: Code, s: Frame, i: nat, fuel: nat)
      returns (t: Frame)
    requires CellAt(s.values, v) == length && CellAt(s.values, v + 3) == i && i < length && place < v
    ensures StartsWork(s, t, length, size, place, backwards, v, i)
    ensures Exec(Counting(others), OneElement(size, place, backwards, v, work), s, fuel)
         == Exec(Counting(others), Concat(work, OneOn(v)), t, fuel)
  {
    hide Exec, Concat, Does, AddressOfElement;
    var rest := Concat(work, OneOn(v));
    var at := if backwards then v + 7 else v + 3;
    var s3 := s;
    if backwards {
      var s1 := s.(values := s.values[v + 5 := length - i]);
      var s2 := s1.(values := s1.values[v + 6 := 1]);
      s3 := s2.(values := s2.values[v + 7 := length - i - 1]);
      var last := Plain(Indexing(size, place, at, v + 8), rest);
      Subtracts(others, v, v + 3, v + 5, Plain(Constant(1, v + 6), Plain(Binary(Sub, v + 5, v + 6, v + 7), last)), s, length - i, fuel);
      Constants(others, 1, v + 6, Plain(Binary(Sub, v + 5, v + 6, v + 7), last), s1, fuel);
      Subtracts(others, v + 5, v + 6, v + 7, last, s2, length - i - 1, fuel);
    }
    t := s3.(values := s3.values[v + 8 := AddressOfElement(CellAt(s3.values, place), CellAt(s3.values, at), size)]);
    Indexes(others, size, place, at, v + 8, rest, s3, fuel);
  }

  /** The step after the work. */
  lemma OneOnRuns(others: Others, v: nat, s: Frame, i: nat, fuel: nat) returns (t: Frame)
    requires CellAt(s.slots, v + 1) == i && i < NO_BOUND
    ensures Exec(Counting(others), OneOn(v), s, fuel) == Fall(t)
    ensures SameBelow(s, t, v + 1) && t.visited == s.visited
    ensures CellAt(t.slots, v + 1) == i + 1
  {
    hide Exec, Does;
    var s1 := s.(values := s.values[v + 9 := i]);
    var s2 := s1.(values := s1.values[v + 10 := 1]);
    var s3 := s2.(values := s2.values[v + 11 := i + 1]);
    t := s3.(slots := s3.slots[v + 1 := i + 1]);
    var add, store := Binary(Add, v + 9, v + 10, v + 11), Storing(v + 11, v + 1);
    Loads(others, v + 1, v + 9, Plain(Constant(1, v + 10), Plain(add, One(store))), s, fuel);
    Constants(others, 1, v + 10, Plain(add, One(store)), s1, fuel);
    Adds(others, v + 9, v + 10, v + 11, One(store), s2, i + 1, fuel);
    Stores(others, v + 11, v + 1, End, s3, fuel);
    EndFalls(others, t, fuel);
  }

  lemma EndFalls(others: Others, s: Frame, fuel: nat)
    ensures Exec(Counting(others), End, s, fuel) == Fall(s)
  {
  }

  // ----- The bound is never passed -----

  /** Code that leaves no region it is in, keeps what is numbered below `v`, and passes no bound. */
  ghost predicate Tidy(others: Others, code: Code, v: nat) {
    forall s: Frame, fuel: nat {:trigger Exec(Counting(others), code, s, fuel)} ::
      TidyOutcome(Exec(Counting(others), code, s, fuel), s, v)
  }

  predicate TidyOutcome(outcome: Outcome<Frame>, s: Frame, v: nat) {
    && !outcome.Broke? && !outcome.Continued? && !(outcome.Ended? && outcome.result.Exceeded?)
    && (outcome.Fall? ==> SameBelow(s, outcome.s, v))
  }

  lemma {:induction false} RoundsAreTidy(others: Others, length: U32, size: nat, place: nat, backwards: bool, v: nat, region: nat,
                                         work: Code, s: Frame, i: nat, fuel: nat)
    requires Tidy(others, work, v + 12) && place < v
    requires CellAt(s.values, v) == length && CellAt(s.slots, v + 1) == i && i <= length
    ensures TidyOutcome(ExecLoop(Counting(others), region, length, Round(size, place, backwards, v, region, work), i, s, fuel), s, v)
    decreases fuel
  {
    hide Exec, SameBelow, Round, OneOn, StartsWork;
    var m, body := Counting(others), Round(size, place, backwards, v, region, work);
    var t := RoundRuns(others, length, size, place, backwards, v, region, work, s, i, fuel);
    SameBelowLess(s, t, v + 3, v);
    if i < length {
      var once := Exec(m, body, s, fuel);
      WorkAndStep(others, v, work, t, i, length, fuel);
      if once.Fall? {
        SameBelowMore(s, t, once.s, v, v + 1);
        if fuel > 0 {
          RoundsAreTidy(others, length, size, place, backwards, v, region, work, once.s, i + 1, fuel - 1);
          var o := ExecLoop(m, region, length, body, i + 1, once.s, fuel - 1);
          if o.Fall? {
            SameBelowMore(s, once.s, o.s, v, v);
          }
        }
      }
    }
  }

  lemma SameBelowLess(s: Frame, t: Frame, w: nat, v: nat)
    requires SameBelow(s, t, w) && v <= w
    ensures SameBelow(s, t, v)
  {
  }

  lemma WorkAndStep(others: Others, v: nat, work: Code, s: Frame, i: nat, length: U32, fuel: nat)
    requires Tidy(others, work, v + 12) && CellAt(s.slots, v + 1) == i && i < length && CellAt(s.values, v) == length
    ensures var once := Exec(Counting(others), Concat(work, OneOn(v)), s, fuel);
            && TidyOutcome(once, s, v + 1)
            && (once.Fall? ==> CellAt(once.s.slots, v + 1) == i + 1 && CellAt(once.s.values, v) == length)
  {
    hide Exec, OneOn;
    var m := Counting(others);
    ExecConcat(m, work, OneOn(v), s, fuel);
    var worked := Exec(m, work, s, fuel);
    assert TidyOutcome(worked, s, v + 12);
    if worked.Fall? {
      assert CellAt(worked.s.slots, v + 1) == i && CellAt(worked.s.values, v) == length;
      var t := OneOnRuns(others, v, worked.s, i, fuel);
      SameBelowMore(s, worked.s, t, v + 1, v + 1);
      assert CellAt(t.values, v) == length;
    }
  }

  /** Up to the loop: the turn is 0. */
  lemma ElementsBegin(others: Others, length: U32, size: nat, place: nat, backwards: bool, v: nat, region: nat, work: Code, s: Frame, fuel: nat)
      returns (t: Frame)
    requires place < v
    ensures SameBelow(s, t, v) && t.visited == s.visited && CellAt(t.values, v) == length && CellAt(t.slots, v + 1) == 0
    ensures CellAt(t.values, place) == CellAt(s.values, place)
    ensures Exec(Counting(others), Elements(length, size, place, backwards, v, region, work), s, fuel)
         == ExecLoop(Counting(others), region, length, Round(size, place, backwards, v, region, work), 0, t, fuel)
  {
    hide Exec, ExecLoop, Round, Does;
    var loop := Loop(region, length, Round(size, place, backwards, v, region, work), HERE, End);
    var s1 := s.(values := s.values[v := length]);
    var s2 := s1.(values := s1.values[v + 2 := 0]);
    t := s2.(slots := s2.slots[v + 1 := 0]);
    Constants(others, length, v, Plain(Constant(0, v + 2), Plain(Storing(v + 2, v + 1), loop)), s, fuel);
    Constants(others, 0, v + 2, Plain(Storing(v + 2, v + 1), loop), s1, fuel);
    Stores(others, v + 2, v + 1, loop, s2, fuel);
    LoopOnly(others, region, length, loop.body, t, fuel);
  }

  lemma LoopOnly(others: Others, region: nat, bound: U32, body: Code, s: Frame, fuel: nat)
    ensures Exec(Counting(others), Loop(region, bound, body, HERE, End), s, fuel) == ExecLoop(Counting(others), region, bound, body, 0, s, fuel)
  {
    var o := ExecLoop(Counting(others), region, bound, body, 0, s, fuel);
    assert ExecHead(Counting(others), Loop(region, bound, body, HERE, End), s, fuel) == o;
    if o.Fall? {
      EndFalls(others, o.s, fuel);
    }
  }

  /** A loop over elements around tidy work is tidy, so that its bound is never what ends a run. */
  lemma ElementsAreTidy(others: Others, length: U32, size: nat, place: nat, backwards: bool, v: nat, region: nat, work: Code)
    requires Tidy(others, work, v + 12) && place < v
    ensures Tidy(others, Elements(length, size, place, backwards, v, region, work), v)
  {
    var code := Elements(length, size, place, backwards, v, region, work);
    forall s: Frame, fuel: nat
      ensures TidyOutcome(Exec(Counting(others), code, s, fuel), s, v)
    {
      hide Exec, Elements, Round, SameBelow;
      var t := ElementsBegin(others, length, size, place, backwards, v, region, work, s, fuel);
      RoundsAreTidy(others, length, size, place, backwards, v, region, work, t, 0, fuel);
      var o := Exec(Counting(others), code, s, fuel);
      if o.Fall? {
        SameBelowMore(s, t, o.s, v, v);
      }
    }
  }

  // ----- Arrays of arrays -----

  datatype ArrayType = Element(size: nat) | Array(length: U32, element: ArrayType)

  function SizeOf(type_: ArrayType): nat {
    match type_
    case Element(size) => size
    case Array(length, element) => length * SizeOf(element)
  }

  function Visiting(place: nat): Inst {
    Compute(Call, [place], 0, 0, HERE)
  }

  /** What is done to an object, done to every element of an array of any depth. */
  function Each(type_: ArrayType, place: nat, backwards: bool, v: nat, region: nat): Code {
    match type_
    case Element(_) => One(Visiting(place))
    case Array(length, element) =>
      Elements(length, SizeOf(element), place, backwards, v, region, Each(element, v + 8, backwards, v + 12, region + 2))
  }

  /** The elements' addresses, in the order they are to be come to. */
  function Visits(type_: ArrayType, at: Word, backwards: bool): seq<Word>
    decreases type_, 0, 1
  {
    match type_
    case Element(_) => [at]
    case Array(length, element) => VisitsFrom(length, element, at, backwards, 0)
  }

  function VisitsFrom(length: U32, element: ArrayType, at: Word, backwards: bool, i: nat): seq<Word>
    requires i <= length
    decreases element, length - i, 2
  {
    if i == length then []
    else
      Visits(element, AddressOfElement(at, if backwards then length - i - 1 else i, SizeOf(element)), backwards)
      + VisitsFrom(length, element, at, backwards, i + 1)
  }

  function TurnsOf(type_: ArrayType): nat {
    match type_
    case Element(_) => 0
    case Array(length, element) => length + TurnsOf(element)
  }

  /** Calls that go on or stop the program, and do not write the frame's values and slots. */
  ghost predicate LeavesTheFrame(others: Others) {
    forall inst: Inst, s: Frame {:trigger others(inst, s)} ::
      others(inst, s).Next? ==> others(inst, s).s.values == s.values && others(inst, s).s.slots == s.slots
  }

  /** Such calls, of which one for an object comes to it. */
  ghost predicate ComesToObjects(others: Others) {
    LeavesTheFrame(others) &&
    forall place: nat, s: Frame {:trigger others(Visiting(place), s)} ::
      others(Visiting(place), s).s.visited == s.visited + [CellAt(s.values, place)]
  }

  /** These are come to in turn, or a call stops the program at one of them. */
  ghost predicate GoesOver(outcome: Outcome<Frame>, s: Frame, visits: seq<Word>, v: nat) {
    match outcome
    case Fall(t) => SameBelow(s, t, v) && t.visited == s.visited + visits
    case Ended(result) => result.Halted? && exists k :: 0 < k <= |visits| && result.s.visited == s.visited + visits[..k]
    case _ => false
  }

  /** Whatever the calls do, no loop over an array of any depth passes its bound. */
  lemma {:induction false} EachIsTidy(others: Others, type_: ArrayType, place: nat, backwards: bool, v: nat, region: nat)
    requires LeavesTheFrame(others) && place < v
    ensures Tidy(others, Each(type_, place, backwards, v, region), v)
  {
    match type_
    case Element(_) =>
      forall s: Frame, fuel: nat
        ensures TidyOutcome(Exec(Counting(others), One(Visiting(place)), s, fuel), s, v)
      {
        var went := others(Visiting(place), s);
        if went.Next? {
          Goes(others, Visiting(place), End, s, went.s, fuel);
          EndFalls(others, went.s, fuel);
        } else {
          assert ExecHead(Counting(others), One(Visiting(place)), s, fuel).Ended?;
        }
      }
    case Array(length, element) =>
      var work := Each(element, v + 8, backwards, v + 12, region + 2);
      EachIsTidy(others, element, v + 8, backwards, v + 12, region + 2);
      ElementsAreTidy(others, length, SizeOf(element), place, backwards, v, region, work);
  }

  lemma GoesOverMore(outcome: Outcome<Frame>, s: Frame, t: Frame, before: seq<Word>, visits: seq<Word>, v: nat, w: nat)
    requires GoesOver(outcome, t, visits, w) && SameBelow(s, t, v) && t.visited == s.visited + before && v <= w
    ensures GoesOver(outcome, s, before + visits, v)
  {
    if outcome.Fall? {
      SameBelowMore(s, t, outcome.s, v, w);
    } else {
      var k :| 0 < k <= |visits| && outcome.result.s.visited == t.visited + visits[..k];
      assert (before + visits)[..|before| + k] == before + visits[..k];
      assert outcome.result.s.visited == s.visited + (before + visits)[..|before| + k];
    }
  }

  lemma StoppedBefore(outcome: Outcome<Frame>, s: Frame, visits: seq<Word>, more: seq<Word>, w: nat, v: nat)
    requires GoesOver(outcome, s, visits, w) && outcome.Ended?
    ensures GoesOver(outcome, s, visits + more, v)
  {
    var k :| 0 < k <= |visits| && outcome.result.s.visited == s.visited + visits[..k];
    assert (visits + more)[..k] == visits[..k];
  }

  /** Every element is come to once, in order, and the code falls off its end, if no call stops the
      program before. */
  lemma {:induction false} EachIsVisited(others: Others, type_: ArrayType, place: nat, backwards: bool, v: nat, region: nat, s: Frame, fuel: nat)
    requires ComesToObjects(others) && place < v && TurnsOf(type_) <= fuel
    ensures GoesOver(Exec(Counting(others), Each(type_, place, backwards, v, region), s, fuel), s,
                     Visits(type_, CellAt(s.values, place), backwards), v)
    decreases type_, 0, 1
  {
    hide Exec, Elements, Round, VisitsFrom;
    match type_
    case Element(_) => ObjectIsVisited(others, place, v, s, fuel);
    case Array(length, element) =>
      var work := Each(element, v + 8, backwards, v + 12, region + 2);
      var u := ElementsBegin(others, length, SizeOf(element), place, backwards, v, region, work, s, fuel);
      RoundsVisit(others, length, element, place, backwards, v, region, u, 0, fuel);
      assert s.visited + [] == s.visited;
      GoesOverMore(Exec(Counting(others), Each(type_, place, backwards, v, region), s, fuel), s, u, [],
                   Visits(type_, CellAt(s.values, place), backwards), v, v);
  }

  lemma ObjectIsVisited(others: Others, place: nat, v: nat, s: Frame, fuel: nat)
    requires ComesToObjects(others)
    ensures GoesOver(Exec(Counting(others), One(Visiting(place)), s, fuel), s, [CellAt(s.values, place)], v)
  {
    var went, at := others(Visiting(place), s), CellAt(s.values, place);
    if went.Next? {
      Goes(others, Visiting(place), End, s, went.s, fuel);
      EndFalls(others, went.s, fuel);
    } else {
      assert ExecHead(Counting(others), One(Visiting(place)), s, fuel) == Ended(Halted(Visiting(place), went.s));
      assert [at][..1] == [at];
    }
  }

  lemma {:induction false} RoundsVisit(others: Others, length: U32, element: ArrayType, place: nat, backwards: bool, v: nat, region: nat,
                                       s: Frame, i: nat, fuel: nat)
    requires CellAt(s.values, v) == length && CellAt(s.slots, v + 1) == i && i <= length && place < v
    requires ComesToObjects(others) && length - i + TurnsOf(element) <= fuel
    ensures var work := Each(element, v + 8, backwards, v + 12, region + 2);
            GoesOver(ExecLoop(Counting(others), region, length, Round(SizeOf(element), place, backwards, v, region, work), i, s, fuel), s,
                     VisitsFrom(length, element, CellAt(s.values, place), backwards, i), v)
    decreases element, length - i, 2
  {
    hide Exec, SameBelow, Round, OneOn, Each, Visits, AddressOfElement, GoesOver, ComesToObjects;
    var m, work := Counting(others), Each(element, v + 8, backwards, v + 12, region + 2);
    var body := Round(SizeOf(element), place, backwards, v, region, work);
    var t := RoundRuns(others, length, SizeOf(element), place, backwards, v, region, work, s, i, fuel);
    SameBelowLess(s, t, v + 3, v);
    var outcome := ExecLoop(m, region, length, body, i, s, fuel);
    assert s.visited + [] == s.visited;
    if i < length {
      var at := CellAt(s.values, place);
      var one := Visits(element, CellAt(t.values, v + 8), backwards);
      var rest := VisitsFrom(length, element, at, backwards, i + 1);
      VisitsOne(others, length, element, place, backwards, v, region, t, i, fuel);
      var once := Exec(m, body, s, fuel);
      OverIsEither(once, t, one, v + 1);
      if once.Fall? {
        SamePlace(t, once.s, v + 1, place);
        SamePlace(s, t, v, place);
        SameBelowLess(t, once.s, v + 1, v);
        RoundsVisit(others, length, element, place, backwards, v, region, once.s, i + 1, fuel - 1);
        GoesOverMore(outcome, t, once.s, one, rest, v, v);
      } else {
        StoppedBefore(outcome, t, one, rest, v + 1, v);
      }
      GoesOverMore(outcome, s, t, [], one + rest, v, v);
      assert [] + (one + rest) == VisitsFrom(length, element, at, backwards, i);
    } else {
      LeavesOver(outcome, s, t, v);
    }
  }

  lemma OverIsEither(outcome: Outcome<Frame>, s: Frame, visits: seq<Word>, v: nat)
    requires GoesOver(outcome, s, visits, v)
    ensures outcome.Fall? || (outcome.Ended? && outcome.result.Halted?)
    ensures outcome.Fall? ==> SameBelow(s, outcome.s, v) && outcome.s.visited == s.visited + visits
  {
  }

  lemma LeavesOver(outcome: Outcome<Frame>, s: Frame, t: Frame, v: nat)
    requires outcome == Fall(t) && SameBelow(s, t, v) && t.visited == s.visited
    ensures GoesOver(outcome, s, [], v)
  {
  }

  lemma SamePlace(s: Frame, t: Frame, v: nat, place: nat)
    requires SameBelow(s, t, v) && place < v
    ensures CellAt(t.values, place) == CellAt(s.values, place) && CellAt(t.slots, place) == CellAt(s.slots, place)
  {
  }

  /** One element's work, and the step. */
  lemma {:induction false} VisitsOne(others: Others, length: U32, element: ArrayType, place: nat, backwards: bool, v: nat, region: nat,
                                     s: Frame, i: nat, fuel: nat)
    requires ComesToObjects(others)
    requires CellAt(s.values, v) == length && CellAt(s.slots, v + 1) == i && i < length && TurnsOf(element) <= fuel
    ensures var outcome := Exec(Counting(others), Concat(Each(element, v + 8, backwards, v + 12, region + 2), OneOn(v)), s, fuel);
            && GoesOver(outcome, s, Visits(element, CellAt(s.values, v + 8), backwards), v + 1)
            && (outcome.Fall? ==> CellAt(outcome.s.values, v) == length && CellAt(outcome.s.slots, v + 1) == i + 1)
    decreases element, length - i, 0
  {
    hide Exec, SameBelow, OneOn, Each, Visits, ComesToObjects;
    var work := Each(element, v + 8, backwards, v + 12, region + 2);
    var visits := Visits(element, CellAt(s.values, v + 8), backwards);
    EachIsVisited(others, element, v + 8, backwards, v + 12, region + 2, s, fuel);
    ExecConcat(Counting(others), work, OneOn(v), s, fuel);
    var worked := Exec(Counting(others), work, s, fuel);
    if worked.Fall? {
      var u := worked.s;
      SamePlace(s, u, v + 12, v);
      SamePlace(s, u, v + 12, v + 1);
      var t := OneOnRuns(others, v, u, i, fuel);
      SameBelowLess(s, u, v + 12, v + 1);
      SameBelowMore(s, u, t, v + 1, v + 1);
      SamePlace(u, t, v + 1, v);
    } else {
      StoppedBefore(worked, s, visits, [], v + 12, v + 1);
      assert visits + [] == visits;
    }
  }

  // ----- The order -----

  /** The size of the objects themselves. */
  function LeafSize(type_: ArrayType): nat {
    match type_
    case Element(size) => size
    case Array(_, element) => LeafSize(element)
  }

  function LeafCount(type_: ArrayType): nat {
    match type_
    case Element(_) => 1
    case Array(length, element) => length * LeafCount(element)
  }

  /** `count` addresses, each a step past the one before. */
  function Row(at: nat, step: nat, count: nat): seq<nat> {
    seq(count, k requires 0 <= k => at + k * step)
  }

  function Reversed<T>(s: seq<T>): (r: seq<T>)
    ensures |r| == |s| && forall k :: 0 <= k < |s| ==> r[k] == s[|s| - 1 - k]
  {
    seq(|s|, k requires 0 <= k < |s| => s[|s| - 1 - k])
  }

  lemma {:induction false} SizeIsLeaves(type_: ArrayType)
    ensures SizeOf(type_) == LeafCount(type_) * LeafSize(type_)
  {
    match type_
    case Element(_) =>
    case Array(length, element) =>
      SizeIsLeaves(element);
      assert length * (LeafCount(element) * LeafSize(element)) == length * LeafCount(element) * LeafSize(element);
  }

  /** An array that fits the address space: its objects are come to in the order they lie, or in
      the opposite one. */
  lemma {:induction false} VisitsAreARow(type_: ArrayType, at: Word, backwards: bool)
    requires at + SizeOf(type_) <= TWO64
    ensures var row := Row(at, LeafSize(type_), LeafCount(type_));
            Visits(type_, at, backwards) == if backwards then Reversed(row) else row
    decreases type_, 0, 1
  {
    match type_
    case Element(size) =>
    case Array(length, element) =>
      VisitsFromAreARow(length, element, at, backwards, 0);
  }

  lemma {:induction false} VisitsFromAreARow(length: U32, element: ArrayType, at: Word, backwards: bool, i: nat)
    requires i <= length && at + length * SizeOf(element) <= TWO64
    ensures var each, count := SizeOf(element), LeafCount(element);
            VisitsFrom(length, element, at, backwards, i)
            == if backwards then Reversed(Row(at, LeafSize(element), (length - i) * count))
               else Row(at + i * each, LeafSize(element), (length - i) * count)
    decreases element, length - i, 2
  {
    hide AddressOfElement, Row, Reversed, SizeOf, LeafSize, LeafCount, Visits;
    var each, count, step := SizeOf(element), LeafCount(element), LeafSize(element);
    if i < length {
      var one, left := if backwards then length - i - 1 else i, length - i - 1;
      ElementFits(at, one, length, each);
      VisitsAreARow(element, at + one * each, backwards);
      VisitsFromAreARow(length, element, at, backwards, i + 1);
      SizeIsLeaves(element);
      RowOfRows(at, i, left, each, count, step);
    } else {
      NoRow(at, each, count, step, i);
    }
  }

  lemma NoRow(at: Word, each: nat, count: nat, step: nat, i: nat)
    ensures Reversed(Row(at, step, 0 * count)) == [] && Row(at + i * each, step, 0 * count) == []
  {
  }

  /** The row of one element and the row of what is left. */
  lemma RowOfRows(at: Word, i: nat, left: nat, each: nat, count: nat, step: nat)
    requires each == count * step
    ensures Row(at + i * each, step, (left + 1) * count) == Row(at + i * each, step, count) + Row(at + (i + 1) * each, step, left * count)
    ensures Reversed(Row(at, step, (left + 1) * count)) == Reversed(Row(at + left * each, step, count)) + Reversed(Row(at, step, left * count))
  {
    hide Row, Reversed;
    Distributes(left, 1, count);
    Distributes(i, 1, each);
    RowSplits(at + i * each, step, count, left * count);
    RowSplits(at, step, left * count, count);
    assert left * count * step == left * (count * step);
  }

  lemma Distributes(a: nat, b: nat, c: nat)
    ensures (a + b) * c == a * c + b * c
  {
  }

  lemma ElementFits(at: Word, i: nat, length: U32, each: nat)
    requires i < length && at + length * each <= TWO64
    ensures at + i * each < TWO64 && at + i * each + each <= TWO64 && AddressOfElement(at, i, each) == at + i * each
  {
    Distributes(i, 1, each);
    Distributes(i + 1, length - i - 1, each);
    var far := at + i * each;
    if each == 0 {
      assert i * each == 0;
    }
    FloorIs(far, TWO64, 0, far);
  }

  lemma RowSplits(at: nat, step: nat, first: nat, second: nat)
    ensures Row(at, step, first + second) == Row(at, step, first) + Row(at + first * step, step, second)
    ensures Reversed(Row(at, step, first + second)) == Reversed(Row(at + first * step, step, second)) + Reversed(Row(at, step, first))
  {
    var whole, one, two := Row(at, step, first + second), Row(at, step, first), Row(at + first * step, step, second);
    forall k | 0 <= k < first + second
      ensures whole[k] == (one + two)[k]
    {
      if k >= first {
        Distributes(first, k - first, step);
      }
    }
    assert whole == one + two;
    ReversedBoth(one, two);
  }

  lemma ReversedBoth<T>(first: seq<T>, second: seq<T>)
    ensures Reversed(first + second) == Reversed(second) + Reversed(first)
  {
  }

  // ----- The loop ends -----

  /** Code that ends when its loops may go round this often. */
  ghost predicate Finishes(others: Others, code: Code, turns: nat) {
    forall s: Frame, fuel: nat {:trigger Exec(Counting(others), code, s, fuel)} ::
      turns <= fuel ==> !Exec(Counting(others), code, s, fuel).Unfinished?
  }

  lemma {:induction false} RoundsFinish(others: Others, length: U32, size: nat, place: nat, backwards: bool, v: nat, region: nat,
                                        work: Code, turns: nat, s: Frame, i: nat, fuel: nat)
    requires Tidy(others, work, v + 12) && Finishes(others, work, turns) && place < v
    requires CellAt(s.values, v) == length && CellAt(s.slots, v + 1) == i && i <= length && length - i + turns <= fuel
    ensures !ExecLoop(Counting(others), region, length, Round(size, place, backwards, v, region, work), i, s, fuel).Unfinished?
    decreases length - i
  {
    hide Exec, SameBelow, Round, OneOn, StartsWork;
    var t := RoundRuns(others, length, size, place, backwards, v, region, work, s, i, fuel);
    if i < length {
      var once := Exec(Counting(others), Concat(work, OneOn(v)), t, fuel);
      WorkAndStep(others, v, work, t, i, length, fuel);
      ExecConcat(Counting(others), work, OneOn(v), t, fuel);
      StepFinishes(others, v, work, t, i, length, fuel);
      if once.Fall? {
        RoundsFinish(others, length, size, place, backwards, v, region, work, turns, once.s, i + 1, fuel - 1);
      }
    }
  }

  lemma StepFinishes(others: Others, v: nat, work: Code, s: Frame, i: nat, length: U32, fuel: nat)
    requires Tidy(others, work, v + 12) && CellAt(s.slots, v + 1) == i && i < length
    requires !Exec(Counting(others), work, s, fuel).Unfinished?
    ensures !Exec(Counting(others), Concat(work, OneOn(v)), s, fuel).Unfinished?
  {
    hide Exec, OneOn;
    ExecConcat(Counting(others), work, OneOn(v), s, fuel);
    var worked := Exec(Counting(others), work, s, fuel);
    assert TidyOutcome(worked, s, v + 12);
    if worked.Fall? {
      assert CellAt(worked.s.slots, v + 1) == i;
      var t := OneOnRuns(others, v, worked.s, i, fuel);
    }
  }

  /** Whatever the calls do, the loops over an array of any depth end after as many turns as they
      have elements. */
  lemma {:induction false} EachFinishes(others: Others, type_: ArrayType, place: nat, backwards: bool, v: nat, region: nat)
    requires LeavesTheFrame(others) && place < v
    ensures Finishes(others, Each(type_, place, backwards, v, region), TurnsOf(type_))
  {
    var code := Each(type_, place, backwards, v, region);
    if type_.Array? {
      EachIsTidy(others, type_.element, v + 8, backwards, v + 12, region + 2);
      EachFinishes(others, type_.element, v + 8, backwards, v + 12, region + 2);
    }
    forall s: Frame, fuel: nat | TurnsOf(type_) <= fuel
      ensures !Exec(Counting(others), code, s, fuel).Unfinished?
    {
      match type_
      case Element(_) =>
        var went := others(Visiting(place), s);
        if went.Next? {
          Goes(others, Visiting(place), End, s, went.s, fuel);
        } else {
          assert ExecHead(Counting(others), One(Visiting(place)), s, fuel).Ended?;
        }
      case Array(length, element) =>
        var work := Each(element, v + 8, backwards, v + 12, region + 2);
        var t := ElementsBegin(others, length, SizeOf(element), place, backwards, v, region, work, s, fuel);
        RoundsFinish(others, length, SizeOf(element), place, backwards, v, region, work, TurnsOf(element), t, 0, fuel);
    }
  }

  // ----- In the CFG -----

  /** A function that is given the array's place and does this to it. */
  function EachOf(type_: ArrayType, backwards: bool, realTime: bool): Structured {
    Structured(1, Concat(Each(type_, 1, backwards, 2, 1), One(Ret(0, HERE))), realTime)
  }

  lemma {:induction false} EachIsScoped(type_: ArrayType, place: nat, backwards: bool, v: nat, region: nat, around: seq<Flattener.Around>)
    ensures Flattener.WellScoped(Each(type_, place, backwards, v, region), around)
  {
    if type_.Array? {
      var in_ := around + [Flattener.Around(region, true)];
      var work := Each(type_.element, v + 8, backwards, v + 12, region + 2);
      EachIsScoped(type_.element, v + 8, backwards, v + 12, region + 2, in_);
      OneOnIsScoped(v, in_);
      ConcatScoped(work, OneOn(v), in_);
      ElementIsScoped(SizeOf(type_.element), place, backwards, v, work, in_);
      RoundIsScoped(SizeOf(type_.element), place, backwards, v, region, work, around);
      var loop := Loop(region, type_.length, Round(SizeOf(type_.element), place, backwards, v, region, work), HERE, End);
      assert Flattener.WellScoped(loop, around);
      assert Flattener.WellScoped(Plain(Storing(v + 2, v + 1), loop), around);
    }
  }

  lemma OneOnIsScoped(v: nat, around: seq<Flattener.Around>)
    ensures Flattener.WellScoped(OneOn(v), around)
  {
    assert Flattener.WellScoped(One(Storing(v + 11, v + 1)), around);
    assert Flattener.WellScoped(Plain(Binary(Add, v + 9, v + 10, v + 11), One(Storing(v + 11, v + 1))), around);
  }

  lemma ElementIsScoped(size: nat, place: nat, backwards: bool, v: nat, work: Code, around: seq<Flattener.Around>)
    requires Flattener.WellScoped(Concat(work, OneOn(v)), around)
    ensures Flattener.WellScoped(OneElement(size, place, backwards, v, work), around)
  {
    var last := Plain(Indexing(size, place, if backwards then v + 7 else v + 3, v + 8), Concat(work, OneOn(v)));
    assert Flattener.WellScoped(last, around);
    if backwards {
      assert Flattener.WellScoped(Plain(Binary(Sub, v + 5, v + 6, v + 7), last), around);
    }
  }

  lemma RoundIsScoped(size: nat, place: nat, backwards: bool, v: nat, region: nat, work: Code, around: seq<Flattener.Around>)
    requires Flattener.WellScoped(OneElement(size, place, backwards, v, work), around + [Flattener.Around(region, true)])
    ensures Flattener.WellScoped(Round(size, place, backwards, v, region, work), around + [Flattener.Around(region, true)])
  {
    var in_, rest := around + [Flattener.Around(region, true)], OneElement(size, place, backwards, v, work);
    LeaveIsScoped(around, region);
    assert Flattener.WellScoped(Break(region, HERE, End), in_ + [Flattener.Around(region + 1, false)]);
    assert Flattener.WellScoped(If(region + 1, v + 4, Break(region, HERE, End), false, End, HERE, rest), in_);
  }

  lemma LeaveIsScoped(around: seq<Flattener.Around>, region: nat)
    ensures Flattener.Encloses(around + [Flattener.Around(region, true)] + [Flattener.Around(region + 1, false)], region)
  {
    var within := around + [Flattener.Around(region, true)] + [Flattener.Around(region + 1, false)];
    assert within[|around|].region == region;
  }

  lemma EachOfIsFlattenable(type_: ArrayType, backwards: bool, realTime: bool)
    ensures Flattener.Flattenable(EachOf(type_, backwards, realTime))
  {
    EachIsScoped(type_, 1, backwards, 2, 1, []);
    ConcatScoped(Each(type_, 1, backwards, 2, 1), One(Ret(0, HERE)), []);
  }

  lemma EachOfEnds(others: Others, type_: ArrayType, backwards: bool, realTime: bool, s: Frame) returns (result: Result<Frame>)
    requires LeavesTheFrame(others)
    ensures Exec(Counting(others), EachOf(type_, backwards, realTime).body, s, TurnsOf(type_)) == Ended(result) && !result.Exceeded?
  {
    hide Each;
    var m, fuel := Counting(others), TurnsOf(type_);
    var each := Each(type_, 1, backwards, 2, 1);
    EachIsTidy(others, type_, 1, backwards, 2, 1);
    EachFinishes(others, type_, 1, backwards, 2, 1);
    ExecConcat(m, each, One(Ret(0, HERE)), s, fuel);
    var outcome := Exec(m, each, s, fuel);
    assert TidyOutcome(outcome, s, 2) && !outcome.Unfinished?;
    if outcome.Fall? {
      result := Left(0, outcome.s);
      GivesBack(others, outcome.s, fuel);
    } else {
      result := outcome.result;
    }
  }

  /** Whatever the calls do, the flattened function ends, and no header in it counts past its bound. */
  lemma FlattenedEnds(others: Others, type_: ArrayType, backwards: bool, realTime: bool, s: Frame) returns (result: Result<Frame>)
    requires LeavesTheFrame(others)
    ensures Flattener.Flattenable(EachOf(type_, backwards, realTime))
    ensures var (m, cfg) := (Counting(others), Flattener.Flatten(EachOf(type_, backwards, realTime)));
            && FlattenerMeaning.CfgEnds(m, cfg, s, result) && !result.Exceeded?
            && (forall other :: FlattenerMeaning.CfgEnds(m, cfg, s, other) ==> other == result)
  {
    hide Exec, Each, LeavesTheFrame;
    var function_, m := EachOf(type_, backwards, realTime), Counting(others);
    EachOfIsFlattenable(type_, backwards, realTime);
    result := EachOfEnds(others, type_, backwards, realTime, s);
    assert FlattenerMeaning.ComesTo(Exec(m, function_.body, s, TurnsOf(type_)), result);
    FlattenerMeaning.FlattenPreserves(m, function_, s, result);
    FlattenerMeaning.EndsOnce(m, Flattener.Flatten(function_), s, result);
  }

  /** So the flattened function, too, comes to every element in order and gives back, or stops at a
      call after those before it. */
  lemma FlattenedVisits(others: Others, type_: ArrayType, backwards: bool, realTime: bool, s: Frame) returns (result: Result<Frame>)
    requires ComesToObjects(others)
    ensures Flattener.Flattenable(EachOf(type_, backwards, realTime))
    ensures FlattenerMeaning.CfgEnds(Counting(others), Flattener.Flatten(EachOf(type_, backwards, realTime)), s, result)
    ensures var visits := Visits(type_, CellAt(s.values, 1), backwards);
            if result.Halted? then exists k :: 0 < k <= |visits| && result.s.visited == s.visited + visits[..k]
            else result.Left? && result.s.visited == s.visited + visits
  {
    hide Exec, Each, ComesToObjects, Visits;
    var function_, m, fuel := EachOf(type_, backwards, realTime), Counting(others), TurnsOf(type_);
    var each, back := Each(type_, 1, backwards, 2, 1), One(Ret(0, HERE));
    EachOfIsFlattenable(type_, backwards, realTime);
    EachIsVisited(others, type_, 1, backwards, 2, 1, s, fuel);
    ExecConcat(m, each, back, s, fuel);
    var outcome := Exec(m, each, s, fuel);
    if outcome.Fall? {
      result := Left(0, outcome.s);
      GivesBack(others, outcome.s, fuel);
    } else {
      result := outcome.result;
    }
    assert FlattenerMeaning.ComesTo(Exec(m, function_.body, s, fuel), result);
    FlattenerMeaning.FlattenPreserves(m, function_, s, result);
  }

  lemma GivesBack(others: Others, s: Frame, fuel: nat)
    ensures Exec(Counting(others), One(Ret(0, HERE)), s, fuel) == Ended(Left(0, s))
  {
    assert ExecHead(Counting(others), One(Ret(0, HERE)), s, fuel) == Ended(Left(0, s));
  }
}
