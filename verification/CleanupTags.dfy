/** Lowering knows an object only by its number: give every object of a function another number, made
    of its own and of the slot it is built in, and the code is the same but for the numbers its calls
    name, each of which is then made of the number and of the slot the call is given
    (`FunctionIsTagged`). So what is known of every function's objects is known of its places.
  */
module CleanupTags {
  import opened Ir
  import opened Lowerer
  import HaardSource
  import LowererMeaning

  // ----- A number of two -----

  /** An object in a place. */
  function TagOf(object_: nat, place: nat): nat {
    if object_ == 0 then 2 * place else 2 * TagOf(object_ - 1, place) + 1
  }

  function ObjectOf(tag: nat): nat {
    if tag % 2 == 1 then 1 + ObjectOf(tag / 2) else 0
  }

  function PlaceOf(tag: nat): nat {
    if tag % 2 == 1 then PlaceOf(tag / 2) else tag / 2
  }

  lemma {:induction false} PartsOfTag(object_: nat, place: nat)
    ensures ObjectOf(TagOf(object_, place)) == object_ && PlaceOf(TagOf(object_, place)) == place
    decreases object_
  {
    if object_ > 0 {
      PartsOfTag(object_ - 1, place);
      Halves(TagOf(object_ - 1, place));
    }
  }

  lemma Halves(half: nat)
    ensures (2 * half + 1) % 2 == 1 && (2 * half + 1) / 2 == half && 2 * half % 2 == 0 && 2 * half / 2 == half
  {
  }

  // ----- Code with other numbers -----

  type Tagging = (nat, nat) -> nat

  /** What an instruction is given first. */
  function PlaceIn(inst: Inst): nat
    requires inst.Compute?
  {
    if inst.operands == [] then 0 else inst.operands[0]
  }

  /** The calls of constructors and destructors, and the addresses, name the tag of their object and
      of the place they are given. */
  function Recoded(tag: Tagging, inst: Inst): Inst {
    if inst.Compute? && inst.opcode.Call? && inst.operands != [] then
      inst.(extra := 2 * tag(inst.extra / 2, inst.operands[0]) + inst.extra % 2)
    else if inst.Compute? && inst.opcode.Addr? then inst.(extra := tag(inst.extra, PlaceIn(inst)))
    else inst
  }

  function Recode(tag: Tagging, code: Code): Code {
    match code
    case End => End
    case Plain(inst, next) => Plain(Recoded(tag, inst), Recode(tag, next))
    case Block(region, body, at, next) => Block(region, Recode(tag, body), at, Recode(tag, next))
    case If(region, condition, chosen, hasElse, otherwise, at, next) =>
      If(region, condition, Recode(tag, chosen), hasElse, Recode(tag, otherwise), at, Recode(tag, next))
    case Loop(region, bound, body, at, next) => Loop(region, bound, Recode(tag, body), at, Recode(tag, next))
    case Break(region, at, next) => Break(region, at, Recode(tag, next))
    case Continue(region, at, next) => Continue(region, at, Recode(tag, next))
  }

  lemma {:induction false} RecodeConcat(tag: Tagging, first: Code, second: Code)
    ensures Recode(tag, Concat(first, second)) == Concat(Recode(tag, first), Recode(tag, second))
    decreases first
  {
    if first != End {
      RecodeConcat(tag, first.next, second);
    }
  }

  lemma {:induction false} RecodeStops(tag: Tagging, code: Code)
    ensures Stops(Recode(tag, code)) == Stops(code) && (Recode(tag, code) == End <==> code == End)
    decreases code
  {
    if code != End {
      RecodeStops(tag, code.next);
    }
  }

  // ----- Lowering with other numbers -----

  function TagOne(one: Cleanup): Cleanup {
    one.(object_ := TagOf(one.object_, one.place))
  }

  function TagAll(cleanups: seq<Cleanup>): seq<Cleanup> {
    seq(|cleanups|, i requires 0 <= i < |cleanups| => TagOne(cleanups[i]))
  }

  function TagScopes(scopes: seq<Scope>): seq<Scope> {
    seq(|scopes|, i requires 0 <= i < |scopes| => scopes[i].(cleanups := TagAll(scopes[i].cleanups)))
  }

  function Tag(l: Lowering): Lowering {
    l.(scopes := TagScopes(l.scopes))
  }

  /** The piece with other numbers. */
  function TagPiece(p: Piece): Piece {
    Piece(Tag(p.l), Recode(TagOf, p.code), p.value)
  }

  lemma CallsRecoded(tag: Tagging, object_: nat, place: nat)
    ensures Recoded(tag, Building(object_, place)) == Building(tag(object_, place), place)
    ensures Recoded(tag, Destroying(object_, place)) == Destroying(tag(object_, place), place)
  {
    Halves(object_);
  }

  /** Constants and stores name no object. */
  lemma FlagsRecoded(tag: Tagging, bits: nat, value: nat, flag: nat)
    ensures Recode(tag, Two(Constant(bits, value), Storing(value, flag))) == Two(Constant(bits, value), Storing(value, flag))
  {
    assert Recode(tag, End) == End;
    assert Recode(tag, One(Storing(value, flag))) == One(Storing(value, flag));
  }

  lemma PlainRecoded(tag: Tagging, inst: Inst, next: Code)
    ensures Recode(tag, Plain(inst, next)) == Plain(Recoded(tag, inst), Recode(tag, next)) && Recode(tag, End) == End
  {
  }

  lemma LoadRecoded(tag: Tagging, slot: nat, value: nat, bits: nat)
    ensures Recoded(tag, Loading(slot, value)) == Loading(slot, value) && Recoded(tag, Storing(value, slot)) == Storing(value, slot)
    ensures Recoded(tag, Negating(slot, value)) == Negating(slot, value) && Recoded(tag, Constant(bits, value)) == Constant(bits, value)
    ensures Recoded(tag, Calling(bits, value)) == Calling(bits, value)
  {
  }

  lemma EndOneTags(l: Lowering, one: Cleanup)
    ensures EndOne(Tag(l), TagOne(one)) == TagPiece(EndOne(l, one))
  {
    hide TagOf, Tag, Recode, Recoded, Destroying, Loading, Constant, Storing;
    CallsRecoded(TagOf, one.object_, one.place);
    var end := Destroying(one.object_, one.place);
    if one.flag == 0 {
      PlainRecoded(TagOf, end, End);
    } else {
      var test, zero := l.next, l.next + 1;
      var cleared := Two(Constant(0, zero), Storing(zero, one.flag));
      FlagsRecoded(TagOf, 0, zero, one.flag);
      PlainRecoded(TagOf, end, cleared);
      IfRecoded(TagOf, l.regions, test, Plain(end, cleared));
      LoadRecoded(TagOf, one.flag, test, 0);
      PlainRecoded(TagOf, Loading(one.flag, test), If(l.regions, test, Plain(end, cleared), false, End, HERE, End));
      MovedOn(l);
    }
  }

  lemma MovedOn(l: Lowering)
    ensures forall next: nat, regions: nat :: Tag(l.(next := next, regions := regions)) == Tag(l).(next := next, regions := regions)
    ensures Tag(l).next == l.next && Tag(l).regions == l.regions && Tag(l).conditional == l.conditional && Tag(l).loops == l.loops
    ensures Tag(l).slots == l.slots && Tag(l).flags == l.flags
  {
  }

  lemma IfRecoded(tag: Tagging, region: nat, test: nat, body: Code)
    ensures Recode(tag, If(region, test, body, false, End, HERE, End)) == If(region, test, Recode(tag, body), false, End, HERE, End)
  {
    assert Recode(tag, End) == End;
  }

  lemma {:induction false} EndAllTags(l: Lowering, cleanups: seq<Cleanup>)
    ensures EndAll(Tag(l), TagAll(cleanups)) == TagPiece(EndAll(l, cleanups))
    decreases |cleanups|
  {
    hide EndOne, TagOne, Tag;
    if cleanups != [] {
      var one, before := cleanups[|cleanups| - 1], cleanups[..|cleanups| - 1];
      var last := EndOne(l, one);
      EndOneTags(l, one);
      EndAllTags(last.l, before);
      assert TagAll(cleanups)[..|cleanups| - 1] == TagAll(before);
      RecodeConcat(TagOf, last.code, EndAll(last.l, before).code);
    }
  }

  lemma {:induction false} EndScopesTags(l: Lowering, scopes: seq<Scope>, depth: nat)
    ensures EndScopes(Tag(l), TagScopes(scopes), depth) == TagPiece(EndScopes(l, scopes, depth))
    decreases |scopes|
  {
    hide EndAll, TagAll, Tag;
    if |scopes| > depth {
      var last, before := scopes[|scopes| - 1], scopes[..|scopes| - 1];
      var inner := EndAll(l, last.cleanups);
      EndAllTags(l, last.cleanups);
      EndScopesTags(inner.l, before, depth);
      assert TagScopes(scopes)[..|scopes| - 1] == TagScopes(before);
      RecodeConcat(TagOf, inner.code, EndScopes(inner.l, before, depth).code);
    }
  }

  lemma RunTags(l: Lowering, depth: nat)
    ensures RunCleanups(Tag(l), depth) == TagPiece(RunCleanups(l, depth))
  {
    EndScopesTags(l, l.scopes, depth);
  }

  lemma PopTags(l: Lowering)
    requires l.scopes != []
    ensures PopScope(Tag(l)) == Tag(PopScope(l))
  {
    assert TagScopes(l.scopes)[..|l.scopes| - 1] == TagScopes(l.scopes[..|l.scopes| - 1]);
  }

  lemma OpenTags(l: Lowering, statement: bool)
    ensures OpenScope(Tag(l), statement) == Tag(OpenScope(l, statement))
  {
    assert TagAll([]) == [];
    assert TagScopes(l.scopes + [Scope([], statement)]) == TagScopes(l.scopes) + [Scope([], statement)];
  }

  lemma CloseTags(l: Lowering, stopped: bool)
    requires l.scopes != []
    ensures CloseScope(Tag(l), stopped) == TagPiece(CloseScope(l, stopped))
  {
    hide RunCleanups, PopScope;
    var ended := if stopped then Piece(l, End, 0) else RunCleanups(l, |l.scopes| - 1);
    RunTags(l, |l.scopes| - 1);
    PopTags(ended.l);
  }

  lemma {:induction false} ScopeTags(scopes: seq<Scope>, at: nat)
    requires at < |scopes|
    ensures ScopeOf(TagScopes(scopes), at) == ScopeOf(scopes, at)
    decreases at
  {
    if at > 0 {
      ScopeTags(scopes, at - 1);
    }
  }

  lemma RegisterTags(l: Lowering, at: nat, one: Cleanup)
    requires at < |l.scopes|
    ensures Register(Tag(l), at, TagOne(one)) == Tag(Register(l, at, one))
  {
    var cleanups := l.scopes[at].cleanups;
    assert TagAll(cleanups + [one]) == TagAll(cleanups) + [TagOne(one)];
    assert TagScopes(Register(l, at, one).scopes) == Register(Tag(l), at, TagOne(one)).scopes;
  }

  lemma AddTags(l: Lowering, object_: nat, place: nat, local: bool)
    requires l.scopes != []
    ensures AddCleanup(Tag(l), TagOf(object_, place), place, local) == TagPiece(AddCleanup(l, object_, place, local))
  {
    hide TagOf, Register, TagScopes, ScopeOf;
    SameScopes(l.scopes);
    var last := |l.scopes| - 1;
    ScopeTags(l.scopes, last);
    var at := if local then ScopeOf(l.scopes, last) else last;
    if l.conditional > 0 && !local {
      var flag, one := l.next, l.next + 2;
      var flagged := l.(next := l.next + 3, slots := l.slots + [flag], flags := l.flags + [flag]);
      RegisterTags(flagged, at, Cleanup(object_, place, flag));
      FlagsRecoded(TagOf, 1, one, flag);
    } else {
      RegisterTags(l, at, Cleanup(object_, place, 0));
    }
  }

  lemma SameScopes(scopes: seq<Scope>)
    ensures |TagScopes(scopes)| == |scopes|
    ensures forall i :: 0 <= i < |scopes| ==> TagScopes(scopes)[i].statement == scopes[i].statement
  {
  }

  // ----- Expressions -----

  /** An expression whose objects have the numbers of theirs and of the places the lowering gives them. */
  function PlacedExpr(l: Lowering, e: Expr): Expr
    requires l.scopes != []
    decreases e
  {
    match e
    case Call(_) => e
    case Temporary(object_) => HaardSource.Temporary(TagOf(object_, l.next))
    case Both(first, second) => HaardSource.Both(PlacedExpr(l, first), PlacedExpr(LowerExpr(l, first).l, second))
    case Logical(isAnd, left, right) =>
      HaardSource.Logical(isAnd, PlacedExpr(WithSlot(l), left), PlacedExpr(LogicalRight(LowerExpr(WithSlot(l), left).l, isAnd), right))
  }

  lemma {:induction false} ExprTags(l: Lowering, e: Expr)
    requires l.scopes != []
    ensures Tag(l).scopes != [] && LowerExpr(Tag(l), PlacedExpr(l, e)) == TagPiece(LowerExpr(l, e))
    decreases e, 1
  {
    SameScopes(l.scopes);
    match e
    case Call(function_) =>
      LoadRecoded(TagOf, 0, l.next, function_);
      PlainRecoded(TagOf, Calling(function_, l.next), End);
    case Temporary(object_) => TemporaryTags(l, object_);
    case Both(first, second) =>
      hide Tag, Recode;
      var one := LowerExpr(l, first);
      ExprTags(l, first);
      ExprTags(one.l, second);
      RecodeConcat(TagOf, one.code, LowerExpr(one.l, second).code);
    case Logical(_, _, _) => LogicalTags(l, e);
  }

  lemma TemporaryTags(l: Lowering, object_: nat)
    requires l.scopes != []
    ensures Tag(l).scopes != [] && LowerTemporary(Tag(l), TagOf(object_, l.next)) == TagPiece(LowerTemporary(l, object_))
  {
    hide TagOf, Recode, AddCleanup, Tag;
    assert Tag(l).scopes != [] by { TagStands(l); }
    var place, value := l.next, l.next + 1;
    var placed := WithSlot(l).(next := l.next + 2);
    AddTags(placed, object_, place, false);
    var kept := AddCleanup(placed, object_, place, false);
    CallsRecoded(TagOf, object_, place);
    PlainRecoded(TagOf, Building(object_, place), kept.code);
    PlainRecoded(TagOf, AddressOf(object_, place, value), Plain(Building(object_, place), kept.code));
    assert Tag(placed) == WithSlot(Tag(l)).(next := l.next + 2) && Tag(l).next == l.next by { PlacedTags(l); }
  }

  lemma PlacedTags(l: Lowering)
    ensures Tag(WithSlot(l).(next := l.next + 2)) == WithSlot(Tag(l)).(next := l.next + 2) && Tag(l).next == l.next
  {
  }

  lemma {:induction false} LogicalTags(l: Lowering, e: Expr)
    requires l.scopes != [] && e.Logical?
    ensures Tag(l).scopes != [] && LowerExpr(Tag(l), PlacedExpr(l, e)) == TagPiece(LowerExpr(l, e))
    decreases e, 0
  {
    hide Tag, Recode, LowerExpr, Recoded;
    assert Tag(l).scopes != [] by { TagStands(l); }
    var begun := WithSlot(l);
    var left := LowerExpr(begun, e.left);
    var tested := LogicalRight(left.l, e.isAnd);
    var right := LowerExpr(tested, e.right);
    SlotTags(l);
    ExprTags(begun, e.left);
    RightTags(left.l, e.isAnd);
    ExprTags(tested, e.right);
    LogicalUnfolds(l, e);
    LogicalUnfolds(Tag(l), PlacedExpr(l, e));
    LogicalRecoded(l.next, left, right, e.isAnd, left.l.regions, left.l.next);
    DoneTags(right.l, l.conditional);
  }

  lemma TagStands(l: Lowering)
    requires l.scopes != []
    ensures Tag(l).scopes != []
  {
  }

  lemma SlotTags(l: Lowering)
    ensures WithSlot(Tag(l)) == Tag(WithSlot(l)) && Tag(l).next == l.next && Tag(l).conditional == l.conditional
  {
  }

  lemma RightTags(l: Lowering, isAnd: bool)
    ensures LogicalRight(Tag(l), isAnd) == Tag(LogicalRight(l, isAnd)) && Tag(l).next == l.next && Tag(l).regions == l.regions
  {
  }

  lemma DoneTags(l: Lowering, conditional: nat)
    ensures Tag(l.(conditional := conditional, next := l.next + 1)) == Tag(l).(conditional := conditional, next := l.next + 1) && Tag(l).next == l.next
  {
  }

  /** The code of an `and` or an `or`, from its sides'. */
  function LogicalCode(answer: nat, left: Code, value: nat, right: Code, given: nat, isAnd: bool, region: nat, negated: nat, loaded: nat): Code {
    var test := if isAnd then value else negated;
    var branch := If(region, test, Concat(right, One(Storing(given, answer))), false, End, HERE, One(Loading(answer, loaded)));
    Concat(left, Plain(Storing(value, answer), if isAnd then branch else Plain(Negating(value, negated), branch)))
  }

  lemma LogicalUnfolds(l: Lowering, e: Expr)
    requires l.scopes != [] && e.Logical?
    ensures var left := LowerExpr(WithSlot(l), e.left);
            var right := LowerExpr(LogicalRight(left.l, e.isAnd), e.right);
            LowerExpr(l, e) == Piece(right.l.(conditional := l.conditional, next := right.l.next + 1),
                                     LogicalCode(l.next, left.code, left.value, right.code, right.value, e.isAnd, left.l.regions, left.l.next, right.l.next),
                                     right.l.next)
  {
    hide LowerExpr;
    assert LowerExpr(l, e) == LowerLogical(l, e) by { LowererMeaning.LogicalIsLogical(l, e); }
  }

  lemma LogicalRecoded(answer: nat, left: Piece, right: Piece, isAnd: bool, region: nat, negated: nat)
    ensures Recode(TagOf, LogicalCode(answer, left.code, left.value, right.code, right.value, isAnd, region, negated, right.l.next))
         == LogicalCode(answer, Recode(TagOf, left.code), left.value, Recode(TagOf, right.code), right.value, isAnd, region, negated, right.l.next)
  {
    hide Recoded, TagOf, Recode;
    var store, last, load := Storing(left.value, answer), Storing(right.value, answer), Loading(answer, right.l.next);
    var negate := Negating(left.value, negated);
    LoadRecoded(TagOf, answer, left.value, 0);
    LoadRecoded(TagOf, answer, right.value, 0);
    LoadRecoded(TagOf, answer, right.l.next, 0);
    LoadRecoded(TagOf, left.value, negated, 0);
    PlainRecoded(TagOf, load, End);
    PlainRecoded(TagOf, last, End);
    RecodeConcat(TagOf, right.code, One(last));
    var body := Concat(right.code, One(last));
    var branch := If(region, if isAnd then left.value else negated, body, false, End, HERE, One(load));
    var rest := if isAnd then branch else Plain(negate, branch);
    PlainRecoded(TagOf, negate, branch);
    PlainRecoded(TagOf, store, rest);
    RecodeConcat(TagOf, left.code, Plain(store, rest));
    BranchRecoded(branch);
  }

  lemma BranchRecoded(branch: Code)
    requires branch.If? && branch.otherwise == End
    ensures Recode(TagOf, branch) == branch.(chosen := Recode(TagOf, branch.chosen), next := Recode(TagOf, branch.next))
  {
    assert Recode(TagOf, End) == End;
  }

  lemma WholeTags(l: Lowering, e: Expr)
    ensures LowerWhole(Tag(l), PlacedExpr(OpenScope(l, true), e)) == TagPiece(LowerWhole(l, e))
  {
    hide Tag, Recode, LowerExpr, CloseScope;
    var begun := OpenScope(l, true);
    OpenTags(l, true);
    ExprTags(begun, e);
    var given := LowerExpr(begun, e);
    CloseTags(given.l, false);
    RecodeConcat(TagOf, given.code, CloseScope(given.l, false).code);
  }

  // ----- Statements -----

  /** Of what the lowerer keeps only the cleanups name objects. */
  lemma TagsRest(l: Lowering)
    ensures Tag(l).next == l.next && Tag(l).regions == l.regions && Tag(l).conditional == l.conditional && Tag(l).loops == l.loops
    ensures Tag(l).slots == l.slots && Tag(l).flags == l.flags && |Tag(l).scopes| == |l.scopes|
    ensures forall next: nat, regions: nat, loops: seq<LoopAround> :: Tag(l.(next := next, regions := regions, loops := loops))
                                                                     == Tag(l).(next := next, regions := regions, loops := loops)
    ensures l.(next := l.next) == l && l.(loops := l.loops) == l
    ensures InBlock(l) ==> InBlock(Tag(l))
  {
  }

  function PlacedWhole(l: Lowering, e: Expr): Expr {
    PlacedExpr(OpenScope(l, true), e)
  }

  function PlacedTest(l: Lowering, hasTest: bool, test: Expr): Expr {
    if hasTest then PlacedWhole(l, test) else test
  }

  /** What comes after a statement that nothing comes after is left away. */
  function PlacedStmts(l: Lowering, body: Stmts): (placed: Stmts)
    requires Lowerable(l, body)
    ensures HaardSource.InLoops(placed, l.loops != []) && (HaardSource.Heads(body) ==> HaardSource.Heads(placed))
    decreases body, 1
  {
    match body
    case Nothing => body
    case Then(first, rest) =>
      var one := LowerOne(l, first);
      HaardSource.Then(PlacedOne(l, first), if Stops(one.code) then HaardSource.Nothing else PlacedStmts(one.l, rest))
  }

  function PlacedBlock(l: Lowering, body: Stmts): (placed: Stmts)
    requires HaardSource.InLoops(body, l.loops != [])
    ensures HaardSource.InLoops(placed, l.loops != [])
    decreases body, 2
  {
    PlacedStmts(OpenScope(l, false), body)
  }

  function PlacedOne(l: Lowering, s: Stmt): (placed: Stmt)
    requires InBlock(l) && HaardSource.InLoopsOne(s, l.loops != [])
    ensures HaardSource.InLoopsOne(placed, l.loops != []) && (s.Let? ==> placed.Let?) && (s.Evaluate? ==> placed.Evaluate?)
    decreases s, 1
  {
    match s
    case Evaluate(given) => HaardSource.Evaluate(PlacedWhole(l, given))
    case Let(object_, given) => HaardSource.Let(TagOf(object_, l.next), PlacedExpr(OpenScope(WithSlot(l), true), given))
    case BlockOf(body) => HaardSource.BlockOf(PlacedBlock(l, body))
    case IfElse(_, _, _, _) => PlacedIf(l, s)
    case While(_, _, _) => PlacedWhile(l, s)
    case For(_, _, _, _, _) => PlacedFor(l, s)
    case Return(hasValue, given) => HaardSource.Return(hasValue, PlacedTest(l, hasValue, given))
    case BreakLoop => s
    case ContinueLoop => s
  }

  function PlacedIf(l: Lowering, s: Stmt): (placed: Stmt)
    requires s.IfElse? && l.scopes != [] && HaardSource.InLoopsOne(s, l.loops != [])
    ensures placed.IfElse? && HaardSource.InLoopsOne(placed, l.loops != [])
    decreases s, 0
  {
    var test := LowerWhole(l, s.test);
    var inside := test.l.(regions := test.l.regions + 1);
    var chosen := LowerBlock(inside, s.chosen);
    HaardSource.IfElse(PlacedWhole(l, s.test), PlacedBlock(inside, s.chosen), s.hasElse,
                       if s.hasElse then PlacedBlock(chosen.l, s.otherwise) else s.otherwise)
  }

  function PlacedWhile(l: Lowering, s: Stmt): (placed: Stmt)
    requires s.While? && l.scopes != [] && HaardSource.InLoopsOne(s, l.loops != [])
    ensures placed.While? && HaardSource.InLoopsOne(placed, l.loops != [])
    decreases s, 0
  {
    var loop, begun := l.regions, l.(regions := l.regions + 1);
    var test := LowerTest(begun, s.hasTest, s.test, loop);
    var inside := test.l.(loops := l.loops + [LoopAround(loop, loop, false, |l.scopes|)]);
    HaardSource.While(s.hasTest, PlacedTest(begun, s.hasTest, s.test), PlacedBlock(inside, s.body))
  }

  function PlacedSteps(l: Lowering, steps: Exprs): Exprs
    decreases steps
  {
    match steps
    case NoMore => steps
    case More(first, rest) => HaardSource.More(PlacedWhole(l, first), PlacedSteps(LowerWhole(l, first).l, rest))
  }

  function PlacedFor(l: Lowering, s: Stmt): (placed: Stmt)
    requires s.For? && l.scopes != [] && HaardSource.InLoopsOne(s, l.loops != [])
    ensures placed.For? && HaardSource.InLoopsOne(placed, l.loops != [])
    decreases s, 0
  {
    HeadsInLoops(s.head, l.loops != []);
    var begun := OpenScope(l, false);
    PlacedRounds(LowerStmts(begun, s.head).l, s, PlacedStmts(begun, s.head))
  }

  function PlacedRounds(l: Lowering, s: Stmt, head: Stmts): (placed: Stmt)
    requires s.For? && l.scopes != [] && HaardSource.InLoops(s.body, true) && HaardSource.Heads(head)
    ensures placed.For? && HaardSource.Heads(placed.head) && HaardSource.InLoops(placed.body, true) && placed.hasTest == s.hasTest
    decreases s.body, 3
  {
    var loop, begun := l.regions, l.(regions := l.regions + 1);
    var test := LowerTest(begun, s.hasTest, s.test, loop);
    var block := test.l.regions;
    var inside := test.l.(regions := test.l.regions + 1, loops := l.loops + [LoopAround(loop, block, true, |l.scopes|)]);
    var after := LowerBlock(inside, s.body).l.(loops := l.loops);
    HaardSource.For(head, s.hasTest, PlacedTest(begun, s.hasTest, s.test), PlacedSteps(after, s.steps), PlacedBlock(inside, s.body))
  }

  lemma {:induction false} StmtsTag(l: Lowering, body: Stmts)
    requires Lowerable(l, body)
    ensures InBlock(Tag(l)) && LowerStmts(Tag(l), PlacedStmts(l, body)) == TagPiece(LowerStmts(l, body))
    decreases body, 1
  {
    hide Tag, LowerOne, PlacedOne;
    TagsRest(l);
    match body
    case Nothing =>
    case Then(first, rest) =>
      var one := LowerOne(l, first);
      OneTags(l, first);
      RecodeStops(TagOf, one.code);
      if !Stops(one.code) {
        StmtsTag(one.l, rest);
        RecodeConcat(TagOf, one.code, LowerStmts(one.l, rest).code);
      }
  }

  lemma {:induction false} BlockTags(l: Lowering, body: Stmts)
    requires HaardSource.InLoops(body, l.loops != [])
    ensures Tag(l).loops == l.loops && LowerBlock(Tag(l), PlacedBlock(l, body)) == TagPiece(LowerBlock(l, body))
    decreases body, 2
  {
    hide Tag, LowerStmts, PlacedStmts, CloseScope, Recode;
    var begun := OpenScope(l, false);
    TagsRest(l);
    OpenTags(l, false);
    StmtsTag(begun, body);
    var inside := LowerStmts(begun, body);
    RecodeStops(TagOf, inside.code);
    CloseTags(inside.l, Stops(inside.code));
    RecodeConcat(TagOf, inside.code, CloseScope(inside.l, Stops(inside.code)).code);
  }

  lemma {:induction false} OneTags(l: Lowering, s: Stmt)
    requires InBlock(l) && HaardSource.InLoopsOne(s, l.loops != [])
    ensures InBlock(Tag(l)) && Tag(l).loops == l.loops && LowerOne(Tag(l), PlacedOne(l, s)) == TagPiece(LowerOne(l, s))
    decreases s, 1
  {
    hide Tag, Recode, LowerWhole, LowerBlock, LowerIf, LowerWhile, LowerFor, LowerReturn, LowerLet, RunCleanups;
    hide PlacedWhole, PlacedBlock, PlacedIf, PlacedWhile, PlacedFor, PlacedTest, PlacedExpr;
    TagsRest(l);
    match s
    case Evaluate(given) => WholePlaces(l, given);
    case Let(object_, given) => LetTags(l, object_, given);
    case BlockOf(body) => BlockTags(l, body);
    case IfElse(_, _, _, _) => IfTags(l, s);
    case While(_, _, _) => WhileTags(l, s);
    case For(_, _, _, _, _) => ForTags(l, s);
    case Return(hasValue, given) => ReturnTags(l, hasValue, given);
    case BreakLoop =>
      var around := l.loops[|l.loops| - 1];
      JumpTags(l, around.depth, Break(around.broken, HERE, End));
    case ContinueLoop =>
      var around := l.loops[|l.loops| - 1];
      JumpTags(l, around.depth, if around.continueBreaks then Break(around.continued, HERE, End) else Continue(around.continued, HERE, End));
  }

  lemma WholePlaces(l: Lowering, e: Expr)
    ensures LowerWhole(Tag(l), PlacedWhole(l, e)) == TagPiece(LowerWhole(l, e))
  {
    hide LowerWhole, PlacedExpr;
    WholeTags(l, e);
  }

  lemma JumpTags(l: Lowering, depth: nat, jump: Code)
    requires (jump.Break? || jump.Continue?) && jump.next == End
    ensures var (ended, tagged) := (RunCleanups(l, depth), RunCleanups(Tag(l), depth));
            tagged.l == Tag(ended.l) && Concat(tagged.code, jump) == Recode(TagOf, Concat(ended.code, jump))
  {
    hide RunCleanups, Tag;
    RunTags(l, depth);
    RecodeConcat(TagOf, RunCleanups(l, depth).code, jump);
    assert Recode(TagOf, End) == End;
  }

  lemma LetTags(l: Lowering, object_: nat, given: Expr)
    requires InBlock(l)
    ensures InBlock(Tag(l))
    ensures LowerLet(Tag(l), TagOf(object_, l.next), PlacedExpr(OpenScope(WithSlot(l), true), given)) == TagPiece(LowerLet(l, object_, given))
  {
    hide Tag, Recode, LowerExpr, CloseScope, AddCleanup, TagOf, PlacedExpr;
    TagsRest(l);
    var placed, place := WithSlot(l), l.next;
    var begun := OpenScope(placed, true);
    SlotTags(l);
    OpenTags(placed, true);
    ExprTags(begun, given);
    var value := LowerExpr(begun, given);
    AddTags(value.l, object_, place, true);
    LetRegisters(placed, value.l, object_, place);
    var kept := AddCleanup(value.l, object_, place, true);
    CloseTags(kept.l, false);
    var closed := CloseScope(kept.l, false);
    CallsRecoded(TagOf, object_, place);
    RecodeConcat(TagOf, kept.code, closed.code);
    PlainRecoded(TagOf, Building(object_, place), Concat(kept.code, closed.code));
    RecodeConcat(TagOf, value.code, Plain(Building(object_, place), Concat(kept.code, closed.code)));
  }

  lemma ReturnTags(l: Lowering, hasValue: bool, given: Expr)
    ensures LowerReturn(Tag(l), hasValue, PlacedTest(l, hasValue, given)) == TagPiece(LowerReturn(l, hasValue, given))
  {
    hide Tag, Recode, LowerExpr, RunCleanups, PlacedExpr;
    var begun := OpenScope(l, true);
    OpenTags(l, true);
    assert Recode(TagOf, End) == End by { PlainRecoded(TagOf, Ret(0, HERE), End); }
    var value := if hasValue then LowerExpr(begun, given) else Piece(begun, End, 0);
    if hasValue {
      ExprTags(begun, given);
    }
    RunTags(value.l, 0);
    var ended := RunCleanups(value.l, 0);
    var ret := Plain(Ret(value.value, HERE), End);
    PlainRecoded(TagOf, Ret(value.value, HERE), End);
    assert Recode(TagOf, ret) == ret;
    PopTags(ended.l);
    RecodeConcat(TagOf, ended.code, ret);
    RecodeConcat(TagOf, value.code, Concat(ended.code, ret));
  }

  lemma TestTags(l: Lowering, hasTest: bool, test: Expr, loop: nat)
    ensures LowerTest(Tag(l), hasTest, PlacedTest(l, hasTest, test), loop) == TagPiece(LowerTest(l, hasTest, test, loop))
  {
    hide Tag, Recode, LowerWhole, PlacedWhole;
    assert Recode(TagOf, End) == End by { PlainRecoded(TagOf, Ret(0, HERE), End); }
    if hasTest {
      var whole := LowerWhole(l, test);
      WholePlaces(l, test);
      TagsRest(whole.l);
      var negate, leave := Negating(whole.value, whole.l.next), Break(loop, HERE, End);
      var branch := If(whole.l.regions, whole.l.next, leave, false, End, HERE, End);
      LeaveRecoded(loop, branch);
      LoadRecoded(TagOf, whole.value, whole.l.next, 0);
      PlainRecoded(TagOf, negate, branch);
      RecodeConcat(TagOf, whole.code, Plain(negate, branch));
    }
  }

  lemma LeaveRecoded(loop: nat, branch: Code)
    requires branch.If? && branch.chosen == Break(loop, HERE, End) && branch.otherwise == End && branch.next == End
    ensures Recode(TagOf, branch) == branch
  {
    assert Recode(TagOf, End) == End;
    assert Recode(TagOf, Break(loop, HERE, End)) == Break(loop, HERE, End);
  }

  lemma SidesRecoded(branch: Code)
    requires branch.If? && branch.next == End
    ensures Recode(TagOf, branch) == branch.(chosen := Recode(TagOf, branch.chosen), otherwise := Recode(TagOf, branch.otherwise))
  {
    assert Recode(TagOf, End) == End;
  }

  lemma {:induction false} IfTags(l: Lowering, s: Stmt)
    requires s.IfElse? && l.scopes != [] && HaardSource.InLoopsOne(s, l.loops != [])
    ensures Tag(l).scopes != [] && Tag(l).loops == l.loops && LowerIf(Tag(l), PlacedIf(l, s)) == TagPiece(LowerIf(l, s))
    decreases s, 0
  {
    hide Tag, Recode, LowerWhole, LowerBlock, PlacedWhole, PlacedBlock;
    TagsRest(l);
    var test := LowerWhole(l, s.test);
    WholePlaces(l, s.test);
    TagsRest(test.l);
    var inside := test.l.(regions := test.l.regions + 1);
    BlockTags(inside, s.chosen);
    var chosen := LowerBlock(inside, s.chosen);
    TagsRest(chosen.l);
    assert Recode(TagOf, End) == End by { PlainRecoded(TagOf, Ret(0, HERE), End); }
    if s.hasElse {
      BlockTags(chosen.l, s.otherwise);
    }
    var otherwise := if s.hasElse then LowerBlock(chosen.l, s.otherwise) else Piece(chosen.l, End, 0);
    var branch := If(test.l.regions, test.value, chosen.code, s.hasElse, otherwise.code, HERE, End);
    SidesRecoded(branch);
    RecodeConcat(TagOf, test.code, branch);
  }

  lemma LoopRecoded(loop: Code)
    requires (loop.Loop? || loop.Block?) && loop.next == End
    ensures Recode(TagOf, loop) == loop.(body := Recode(TagOf, loop.body))
  {
    assert Recode(TagOf, End) == End;
  }

  lemma {:induction false} WhileTags(l: Lowering, s: Stmt)
    requires s.While? && l.scopes != [] && HaardSource.InLoopsOne(s, l.loops != [])
    ensures Tag(l).scopes != [] && Tag(l).loops == l.loops && LowerWhile(Tag(l), PlacedWhile(l, s)) == TagPiece(LowerWhile(l, s))
    decreases s, 0
  {
    hide Tag, Recode, LowerTest, LowerBlock, PlacedTest, PlacedBlock;
    TagsRest(l);
    var loop, begun := l.regions, l.(regions := l.regions + 1);
    TestTags(begun, s.hasTest, s.test, loop);
    var test := LowerTest(begun, s.hasTest, s.test, loop);
    TagsRest(test.l);
    var inside := test.l.(loops := l.loops + [LoopAround(loop, loop, false, |l.scopes|)]);
    BlockTags(inside, s.body);
    var body := LowerBlock(inside, s.body);
    TagsRest(body.l);
    RecodeConcat(TagOf, test.code, body.code);
    LoopRecoded(Loop(loop, NO_BOUND, Concat(test.code, body.code), HERE, End));
  }

  lemma {:induction false} StepsTag(l: Lowering, steps: Exprs)
    ensures LowerSteps(Tag(l), PlacedSteps(l, steps)) == TagPiece(LowerSteps(l, steps))
    decreases steps
  {
    hide Tag, LowerWhole, PlacedWhole;
    match steps
    case NoMore =>
    case More(first, rest) =>
      var one := LowerWhole(l, first);
      WholePlaces(l, first);
      StepsTag(one.l, rest);
      RecodeConcat(TagOf, one.code, LowerSteps(one.l, rest).code);
  }

  lemma {:induction false} RoundsTag(l: Lowering, s: Stmt, head: Stmts)
    requires s.For? && l.scopes != [] && HaardSource.InLoops(s.body, true) && HaardSource.Heads(head)
    ensures Tag(l).scopes != [] && LowerRounds(Tag(l), PlacedRounds(l, s, head)) == TagPiece(LowerRounds(l, s))
    decreases s.body, 3
  {
    hide Tag, Recode, LowerTest, LowerBlock, LowerSteps, PlacedTest, PlacedBlock, PlacedSteps, HaardSource.InLoops, HaardSource.Heads, Later, TagOf, TagScopes;
    TagsRest(l);
    var loop, begun := l.regions, l.(regions := l.regions + 1);
    TestTags(begun, s.hasTest, s.test, loop);
    var test := LowerTest(begun, s.hasTest, s.test, loop);
    TagsRest(test.l);
    var block := test.l.regions;
    var inside := test.l.(regions := test.l.regions + 1, loops := l.loops + [LoopAround(loop, block, true, |l.scopes|)]);
    BlockTags(inside, s.body);
    var body := LowerBlock(inside, s.body);
    TagsRest(body.l);
    var after := body.l.(loops := l.loops);
    StepsTag(after, s.steps);
    var steps := LowerSteps(after, s.steps);
    RoundsRecoded(loop, test.code, block, body.code, steps.code);
  }

  /** A round's test, and its body in a block before the steps. */
  function RoundsCode(loop: nat, test: Code, block: nat, body: Code, steps: Code): Code {
    Loop(loop, NO_BOUND, Concat(test, Block(block, body, HERE, steps)), HERE, End)
  }

  lemma RoundsRecoded(loop: nat, test: Code, block: nat, body: Code, steps: Code)
    ensures Recode(TagOf, RoundsCode(loop, test, block, body, steps))
         == RoundsCode(loop, Recode(TagOf, test), block, Recode(TagOf, body), Recode(TagOf, steps))
  {
    hide Recode;
    BlockRecoded(block, body, steps);
    RecodeConcat(TagOf, test, Block(block, body, HERE, steps));
    LoopRecoded(RoundsCode(loop, test, block, body, steps));
  }

  lemma BlockRecoded(block: nat, body: Code, next: Code)
    ensures Recode(TagOf, Block(block, body, HERE, next)) == Block(block, Recode(TagOf, body), HERE, Recode(TagOf, next))
  {
  }

  lemma {:induction false} ForTags(l: Lowering, s: Stmt)
    requires s.For? && l.scopes != [] && HaardSource.InLoopsOne(s, l.loops != [])
    ensures Tag(l).scopes != [] && Tag(l).loops == l.loops && LowerFor(Tag(l), PlacedFor(l, s)) == TagPiece(LowerFor(l, s))
    decreases s, 0
  {
    hide Tag, Recode, LowerStmts, LowerRounds, PlacedStmts, CloseScope;
    TagsRest(l);
    HeadsInLoops(s.head, l.loops != []);
    var begun := OpenScope(l, false);
    OpenTags(l, false);
    StmtsTag(begun, s.head);
    var head := LowerStmts(begun, s.head);
    RoundsTag(head.l, s, PlacedStmts(begun, s.head));
    SameHeads(head.l, s, PlacedStmts(begun, s.head));
    var loop := LowerRounds(head.l, s);
    CloseTags(loop.l, false);
    var closed := CloseScope(loop.l, false);
    RecodeConcat(TagOf, loop.code, closed.code);
    RecodeConcat(TagOf, head.code, Concat(loop.code, closed.code));
  }

  lemma SameHeads(l: Lowering, s: Stmt, head: Stmts)
    requires s.For? && l.scopes != [] && HaardSource.InLoops(s.body, true) && HaardSource.Heads(head)
    ensures PlacedRounds(l, s, head).head == head
  {
  }

  // ----- A function -----

  /** A function's statements whose objects have the numbers of theirs and of their places. */
  function PlacedFunction(body: Stmts): (placed: Stmts)
    requires IsFunction(body)
    ensures IsFunction(placed)
  {
    PlacedBlock(BEGUN, body)
  }

  lemma {:induction false} SlotsRecoded(slots: seq<nat>)
    ensures Recode(TagOf, SlotsCode(slots)) == SlotsCode(slots)
    decreases |slots|
  {
    if slots != [] {
      SlotsRecoded(slots[1..]);
      PlainRecoded(TagOf, SlotAt(slots[0]), SlotsCode(slots[1..]));
    }
  }

  lemma {:induction false} ClearsRecoded(flags: seq<nat>)
    ensures Recode(TagOf, FlagsCode(flags)) == FlagsCode(flags)
    decreases |flags|
  {
    if flags != [] {
      var flag, before := flags[|flags| - 1], flags[..|flags| - 1];
      ClearsRecoded(before);
      LoadRecoded(TagOf, flag, flag + 1, 0);
      PlainRecoded(TagOf, Storing(flag + 1, flag), FlagsCode(before));
      PlainRecoded(TagOf, Constant(0, flag + 1), Plain(Storing(flag + 1, flag), FlagsCode(before)));
    }
  }

  /** Lowered, they are the function's code, whose calls of constructors and destructors name these
      numbers: of each object and of the very slot the call is given. */
  lemma FunctionIsTagged(body: Stmts, givesBack: bool)
    requires IsFunction(body)
    ensures LowerFunction(PlacedFunction(body), givesBack)
         == Structured(0, Recode(TagOf, LowerFunction(body, givesBack).body), false)
  {
    hide Recode, LowerBlock, SlotsCode, FlagsCode;
    var lowered := LowerBlock(BEGUN, body);
    BegunIsTagged();
    BlockTags(BEGUN, body);
    RecodeStops(TagOf, lowered.code);
    var ret := Plain(Ret(0, HERE), End);
    PlainRecoded(TagOf, Ret(0, HERE), End);
    RecodeConcat(TagOf, lowered.code, ret);
    var all := if !Stops(lowered.code) && !givesBack then Concat(lowered.code, ret) else lowered.code;
    SlotsRecoded(lowered.l.slots);
    ClearsRecoded(lowered.l.flags);
    TagsRest(lowered.l);
    RecodeConcat(TagOf, FlagsCode(lowered.l.flags), all);
    RecodeConcat(TagOf, SlotsCode(lowered.l.slots), Concat(FlagsCode(lowered.l.flags), all));
  }

  lemma BegunIsTagged()
    ensures Tag(BEGUN) == BEGUN
  {
    assert TagScopes([]) == [];
  }
}
