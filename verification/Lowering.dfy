/** Lowering statements to the structured form, with the cleanups of every scope.

    `Lowering` is what the lowerer keeps: the scopes open, the loops around, how many `and`s and
    `or`s it is on the right side of, and the numbers not given yet. A function here gives the
    code it emits and the lowering after it.
  */
module Lowerer {
  import opened Ir
  import HaardSource

  type Expr = HaardSource.Expr
  type Exprs = HaardSource.Exprs
  type Stmt = HaardSource.Stmt
  type Stmts = HaardSource.Stmts

  /** An object to end when its scope is left, and the slot it is built in; with a flag, only if the
      flag says it was built. */
  datatype Cleanup = Cleanup(object_: nat, place: nat, flag: nat)

  datatype Scope = Scope(cleanups: seq<Cleanup>, statement: bool)

  /** The region a `break` leaves, the one a `continue` goes back to -- or leaves, in a `for`,
      whose body is a block of its own -- and the scopes around the loop. */
  datatype LoopAround = LoopAround(broken: nat, continued: nat, continueBreaks: bool, depth: nat)

  /** `slots` and `flags` are hoisted to the function's entry: the slots in the order they were
      asked for, and each flag cleared, the last one first. `next` and `regions` are the first
      numbers not given to a value or a slot, and to a region. */
  datatype Lowering = Lowering(
    scopes: seq<Scope>, loops: seq<LoopAround>, conditional: nat,
    next: nat, regions: nat, slots: seq<nat>, flags: seq<nat>)

  datatype Piece = Piece(l: Lowering, code: Code, value: nat)

  const HERE: Position := Position(0, 0)

  /** What a call's `extra` names: a function; or, for a call with a place, which object is in it and
      whether its constructor or its destructor is called. */
  const CONSTRUCTOR: nat := 0
  const DESTRUCTOR: nat := 1

  function Calling(function_: nat, value: nat): Inst {
    Compute(Call, [], value, function_, HERE)
  }

  function Building(object_: nat, place: nat): Inst {
    Compute(Call, [place], 0, 2 * object_ + CONSTRUCTOR, HERE)
  }

  function Destroying(object_: nat, place: nat): Inst {
    Compute(Call, [place], 0, 2 * object_ + DESTRUCTOR, HERE)
  }

  function Constant(bits: nat, value: nat): Inst {
    Compute(Const, [], value, bits, HERE)
  }

  function AddressOf(object_: nat, place: nat, value: nat): Inst {
    Compute(Addr, [place], value, object_, HERE)
  }

  function Storing(value: nat, slot: nat): Inst {
    Compute(Store, [value, slot], 0, 0, HERE)
  }

  function Loading(slot: nat, value: nat): Inst {
    Compute(Load, [slot], value, 0, HERE)
  }

  function Negating(of: nat, value: nat): Inst {
    Compute(Not, [of], value, 0, HERE)
  }

  function SlotAt(value: nat): Inst {
    Compute(Slot, [], value, 0, HERE)
  }

  function One(inst: Inst): Code {
    Plain(inst, End)
  }

  function Two(first: Inst, second: Inst): Code {
    Plain(first, Plain(second, End))
  }

  /** One list after another. */
  function Concat(first: Code, second: Code): Code {
    if first == End then second else first.(next := Concat(first.next, second))
  }

  /** Whether a list ends in a terminator, after which its block takes no more. */
  predicate Stops(code: Code) {
    code != End &&
    if code.next != End then Stops(code.next)
    else code.Break? || code.Continue? || (code.Plain? && IsTerminator(code.inst))
  }

  // ----- Scopes -----

  function OpenScope(l: Lowering, statement: bool): Lowering {
    l.(scopes := l.scopes + [Scope([], statement)])
  }

  function PopScope(l: Lowering): Lowering
    requires l.scopes != []
  {
    l.(scopes := l.scopes[..|l.scopes| - 1])
  }

  /** Emitting gives out numbers, and changes nothing else. */
  predicate Numbered(l: Lowering, later: Lowering) {
    later == l.(next := later.next, regions := later.regions) && l.next <= later.next && l.regions <= later.regions
  }

  /** Ending one object: behind its flag, which is cleared, if it has one. */
  function EndOne(l: Lowering, one: Cleanup): (p: Piece)
    ensures Numbered(l, p.l)
  {
    if one.flag == 0 then Piece(l, One(Destroying(one.object_, one.place)), 0)
    else
      var test, zero := l.next, l.next + 1;
      var body := Plain(Destroying(one.object_, one.place), Two(Constant(0, zero), Storing(zero, one.flag)));
      Piece(l.(next := l.next + 2, regions := l.regions + 1),
            Plain(Loading(one.flag, test), If(l.regions, test, body, false, End, HERE, End)), 0)
  }

  /** The last registered first. */
  function EndAll(l: Lowering, cleanups: seq<Cleanup>): (p: Piece)
    ensures Numbered(l, p.l)
    decreases |cleanups|
  {
    if cleanups == [] then Piece(l, End, 0)
    else
      var last := EndOne(l, cleanups[|cleanups| - 1]);
      var rest := EndAll(last.l, cleanups[..|cleanups| - 1]);
      Piece(rest.l, Concat(last.code, rest.code), 0)
  }

  /** The scopes deeper than `depth`, the innermost first. */
  function EndScopes(l: Lowering, scopes: seq<Scope>, depth: nat): (p: Piece)
    ensures Numbered(l, p.l)
    decreases |scopes|
  {
    if |scopes| <= depth then Piece(l, End, 0)
    else
      var inner := EndAll(l, scopes[|scopes| - 1].cleanups);
      var outer := EndScopes(inner.l, scopes[..|scopes| - 1], depth);
      Piece(outer.l, Concat(inner.code, outer.code), 0)
  }

  function RunCleanups(l: Lowering, depth: nat): (p: Piece)
    ensures Numbered(l, p.l)
  {
    EndScopes(l, l.scopes, depth)
  }

  function CloseScope(l: Lowering, stopped: bool): (p: Piece)
    requires l.scopes != []
    ensures Numbered(PopScope(l), p.l)
  {
    var ended := if stopped then Piece(l, End, 0) else RunCleanups(l, |l.scopes| - 1);
    Piece(PopScope(ended.l), ended.code, 0)
  }

  /** A local ends with the block around its statement. */
  function ScopeOf(scopes: seq<Scope>, at: nat): (found: nat)
    requires at < |scopes|
    ensures found <= at
  {
    if at > 0 && scopes[at].statement then ScopeOf(scopes, at - 1) else at
  }

  function Register(l: Lowering, at: nat, one: Cleanup): Lowering
    requires at < |l.scopes|
  {
    l.(scopes := l.scopes[at := l.scopes[at].(cleanups := l.scopes[at].cleanups + [one])])
  }

  /** On the right side of an `and` or an `or` a temporary gets a flag, which its code sets. */
  function AddCleanup(l: Lowering, object_: nat, place: nat, local: bool): Piece
    requires l.scopes != []
  {
    var at := if local then ScopeOf(l.scopes, |l.scopes| - 1) else |l.scopes| - 1;
    if l.conditional > 0 && !local then
      var flag, one := l.next, l.next + 2;
      var flagged := l.(next := l.next + 3, slots := l.slots + [flag], flags := l.flags + [flag]);
      Piece(Register(flagged, at, Cleanup(object_, place, flag)), Two(Constant(1, one), Storing(one, flag)), 0)
    else Piece(Register(l, at, Cleanup(object_, place, 0)), End, 0)
  }

  // ----- Expressions -----

  /** An expression registers cleanups in the innermost scope, and leaves the rest as it is. */
  predicate Within(l: Lowering, later: Lowering)
    requires l.scopes != []
  {
    var last := |l.scopes| - 1;
    && |later.scopes| == |l.scopes| && later.scopes[..last] == l.scopes[..last]
    && later.scopes[last].statement == l.scopes[last].statement
    && l.scopes[last].cleanups <= later.scopes[last].cleanups
    && later.loops == l.loops && later.conditional == l.conditional && Later(l, later)
  }

  /** Numbers are given in order, to flags too. */
  predicate Later(l: Lowering, later: Lowering) {
    && l.next <= later.next && l.regions <= later.regions && l.flags <= later.flags
    && (forall i {:trigger later.flags[i]} :: |l.flags| <= i < |later.flags| ==> l.next <= later.flags[i] < later.next)
  }

  function LowerExpr(l: Lowering, e: Expr): (p: Piece)
    requires l.scopes != []
    ensures Within(l, p.l)
    decreases e, 1
  {
    match e
    case Call(function_) => Piece(l.(next := l.next + 1), One(Calling(function_, l.next)), l.next)
    case Temporary(object_) => LowerTemporary(l, object_)
    case Both(first, second) =>
      var one := LowerExpr(l, first);
      var two := LowerExpr(one.l, second);
      Piece(two.l, Concat(one.code, two.code), two.value)
    case Logical(_, _, _) => LowerLogical(l, e)
  }

  /** A temporary is built in a slot of its own, whose address is its value. */
  function LowerTemporary(l: Lowering, object_: nat): (p: Piece)
    requires l.scopes != []
    ensures Within(l, p.l)
  {
    var place, value := l.next, l.next + 1;
    var kept := AddCleanup(WithSlot(l).(next := l.next + 2), object_, place, false);
    Piece(kept.l, Plain(AddressOf(object_, place, value), Plain(Building(object_, place), kept.code)), value)
  }

  /** Both sides write what they come to into a hoisted slot, which is read once after the region. */
  function LowerLogical(l: Lowering, e: Expr): (p: Piece)
    requires l.scopes != [] && e.Logical?
    ensures Within(l, p.l)
    decreases e, 0
  {
    var answer := l.next;
    var left := LowerExpr(WithSlot(l), e.left);
    var right := LowerExpr(LogicalRight(left.l, e.isAnd), e.right);
    var test := if e.isAnd then left.value else left.l.next;
    var region := If(left.l.regions, test, Concat(right.code, One(Storing(right.value, answer))), false, End, HERE,
                     One(Loading(answer, right.l.next)));
    Piece(right.l.(conditional := l.conditional, next := right.l.next + 1),
          Concat(left.code, Plain(Storing(left.value, answer), if e.isAnd then region else Plain(Negating(left.value, left.l.next), region))),
          right.l.next)
  }

  /** With one more slot, hoisted. */
  function WithSlot(l: Lowering): Lowering {
    l.(next := l.next + 1, slots := l.slots + [l.next])
  }

  /** Where the right side starts: an `or` negates the left side's value first, into a value of
      its own, and what is built from here on is built on this path only. */
  function LogicalRight(l: Lowering, isAnd: bool): Lowering {
    l.(next := if isAnd then l.next else l.next + 1, regions := l.regions + 1, conditional := l.conditional + 1)
  }

  /** A statement of its own, whose temporaries end when it does. */
  function LowerWhole(l: Lowering, e: Expr): (p: Piece)
    ensures Around(l, p.l)
  {
    var given := LowerExpr(OpenScope(l, true), e);
    var closed := CloseScope(given.l, false);
    Piece(closed.l, Concat(given.code, closed.code), given.value)
  }

  // ----- Statements -----

  /** A statement leaves the scopes as they are, but for what it declares in its block. */
  predicate Around(l: Lowering, later: Lowering) {
    && later.loops == l.loops && later.conditional == l.conditional && Later(l, later)
    && later.scopes == l.scopes
  }

  predicate Declares(l: Lowering, later: Lowering)
    requires InBlock(l)
  {
    var last := |l.scopes| - 1;
    && later.loops == l.loops && later.conditional == l.conditional && Later(l, later)
    && |later.scopes| == |l.scopes| && later.scopes[..last] == l.scopes[..last] && !later.scopes[last].statement
    && l.scopes[last].cleanups <= later.scopes[last].cleanups
  }

  /** The innermost scope is a block's. */
  predicate InBlock(l: Lowering) {
    l.scopes != [] && !l.scopes[|l.scopes| - 1].statement
  }

  /** Only statements inside a loop `break` and `continue`. */
  predicate Lowerable(l: Lowering, body: Stmts) {
    InBlock(l) && HaardSource.InLoops(body, l.loops != [])
  }

  function LowerStmts(l: Lowering, body: Stmts): (p: Piece)
    requires Lowerable(l, body)
    ensures Declares(l, p.l)
    decreases body, 1
  {
    match body
    case Nothing => Piece(l, End, 0)
    case Then(first, rest) =>
      var one := LowerOne(l, first);
      if Stops(one.code) then one
      else
        var others := LowerStmts(one.l, rest);
        Piece(others.l, Concat(one.code, others.code), 0)
  }

  /** What follows a `return`, a `break` or a `continue` in its block is not lowered, and the
      block's end is not come to. */
  function LowerBlock(l: Lowering, body: Stmts): (p: Piece)
    requires HaardSource.InLoops(body, l.loops != [])
    ensures Around(l, p.l)
    decreases body, 2
  {
    var inside := LowerStmts(OpenScope(l, false), body);
    var closed := CloseScope(inside.l, Stops(inside.code));
    Piece(closed.l, Concat(inside.code, closed.code), 0)
  }

  function LowerOne(l: Lowering, s: Stmt): (p: Piece)
    requires InBlock(l) && HaardSource.InLoopsOne(s, l.loops != [])
    ensures Declares(l, p.l)
    decreases s, 1
  {
    match s
    case Evaluate(given) => LowerWhole(l, given)
    case Let(object_, given) => LowerLet(l, object_, given)
    case BlockOf(body) => LowerBlock(l, body)
    case IfElse(_, _, _, _) => LowerIf(l, s)
    case While(_, _, _) => LowerWhile(l, s)
    case For(_, _, _, _, _) => LowerFor(l, s)
    case Return(hasValue, given) => LowerReturn(l, hasValue, given)
    case BreakLoop =>
      var around := l.loops[|l.loops| - 1];
      var ended := RunCleanups(l, around.depth);
      Piece(ended.l, Concat(ended.code, Break(around.broken, HERE, End)), 0)
    case ContinueLoop =>
      var around := l.loops[|l.loops| - 1];
      var ended := RunCleanups(l, around.depth);
      var jump := if around.continueBreaks then Break(around.continued, HERE, End) else Continue(around.continued, HERE, End);
      Piece(ended.l, Concat(ended.code, jump), 0)
  }

  /** The local is built in its slot from what it is given, and ends with the block. */
  function LowerLet(l: Lowering, object_: nat, given: Expr): (p: Piece)
    requires InBlock(l)
    ensures Declares(l, p.l)
  {
    var placed := WithSlot(l);
    var value := LowerExpr(OpenScope(placed, true), given);
    LetRegisters(placed, value.l, object_, l.next);
    var kept := AddCleanup(value.l, object_, l.next, true);
    var closed := CloseScope(kept.l, false);
    Piece(closed.l, Concat(value.code, Plain(Building(object_, l.next), Concat(kept.code, closed.code))), 0)
  }

  /** A local is registered in the block its statement is in. */
  lemma LetRegisters(l: Lowering, inside: Lowering, object_: nat, place: nat)
    requires InBlock(l) && Within(OpenScope(l, true), inside)
    ensures var kept, last := AddCleanup(inside, object_, place, true), |l.scopes| - 1;
            && kept.code == End && kept.l.scopes[|l.scopes|] == inside.scopes[|l.scopes|]
            && kept.l.scopes[..|l.scopes|] ==
               l.scopes[last := l.scopes[last].(cleanups := l.scopes[last].cleanups + [Cleanup(object_, place, 0)])]
            && kept.l == inside.(scopes := kept.l.scopes) && |kept.l.scopes| == |inside.scopes|
  {
    var n := |l.scopes|;
    assert inside.scopes[..n] == OpenScope(l, true).scopes[..n] == l.scopes;
    assert inside.scopes[n - 1] == inside.scopes[..n][n - 1] == l.scopes[n - 1];
    assert ScopeOf(inside.scopes, n) == ScopeOf(inside.scopes, n - 1) == n - 1;
  }

  function LowerIf(l: Lowering, s: Stmt): (p: Piece)
    requires s.IfElse? && l.scopes != [] && HaardSource.InLoopsOne(s, l.loops != [])
    ensures Around(l, p.l)
    decreases s, 0
  {
    var test := LowerWhole(l, s.test);
    var chosen := LowerBlock(test.l.(regions := test.l.regions + 1), s.chosen);
    var otherwise := if s.hasElse then LowerBlock(chosen.l, s.otherwise) else Piece(chosen.l, End, 0);
    Piece(otherwise.l,
          Concat(test.code, If(test.l.regions, test.value, chosen.code, s.hasElse, otherwise.code, HERE, End)), 0)
  }

  /** `break` when the test fails. */
  function LowerTest(l: Lowering, hasTest: bool, test: Expr, loop: nat): (p: Piece)
    ensures Around(l, p.l)
  {
    if !hasTest then Piece(l, End, 0)
    else
      var whole := LowerWhole(l, test);
      Piece(whole.l.(next := whole.l.next + 1, regions := whole.l.regions + 1),
            Concat(whole.code,
                   Plain(Negating(whole.value, whole.l.next),
                         If(whole.l.regions, whole.l.next, Break(loop, HERE, End), false, End, HERE, End))), 0)
  }

  function LowerWhile(l: Lowering, s: Stmt): (p: Piece)
    requires s.While? && l.scopes != [] && HaardSource.InLoopsOne(s, l.loops != [])
    ensures Around(l, p.l)
    decreases s, 0
  {
    var loop := l.regions;
    var test := LowerTest(l.(regions := l.regions + 1), s.hasTest, s.test, loop);
    var around := LoopAround(loop, loop, false, |l.scopes|);
    var body := LowerBlock(test.l.(loops := l.loops + [around]), s.body);
    Piece(body.l.(loops := l.loops), Loop(loop, NO_BOUND, Concat(test.code, body.code), HERE, End), 0)
  }

  function LowerSteps(l: Lowering, steps: Exprs): (p: Piece)
    ensures Around(l, p.l)
    decreases steps
  {
    match steps
    case NoMore => Piece(l, End, 0)
    case More(first, rest) =>
      var one := LowerWhole(l, first);
      var others := LowerSteps(one.l, rest);
      Piece(others.l, Concat(one.code, others.code), 0)
  }

  /** A scope around the whole loop holds the head's locals. The body is a block of its own, so that
      a `continue` out of it comes to the steps. */
  function LowerFor(l: Lowering, s: Stmt): (p: Piece)
    requires s.For? && l.scopes != [] && HaardSource.InLoopsOne(s, l.loops != [])
    ensures Around(l, p.l)
    decreases s, 0
  {
    HeadsInLoops(s.head, l.loops != []);
    var head := LowerStmts(OpenScope(l, false), s.head);
    var loop := LowerRounds(head.l, s);
    var closed := CloseScope(loop.l, false);
    Piece(closed.l, Concat(head.code, Concat(loop.code, closed.code)), 0)
  }

  lemma LaterThrough(l: Lowering, between: Lowering, later: Lowering)
    requires Later(l, between) && Later(between, later)
    ensures Later(l, later)
  {
  }

  function LowerRounds(l: Lowering, s: Stmt): (p: Piece)
    requires s.For? && l.scopes != [] && HaardSource.InLoops(s.body, true)
    ensures Around(l, p.l)
    decreases s.body, 3
  {
    var loop := l.regions;
    var test := LowerTest(l.(regions := l.regions + 1), s.hasTest, s.test, loop);
    var block := test.l.regions;
    var around := LoopAround(loop, block, true, |l.scopes|);
    assert Later(l, test.l);
    var inside := test.l.(regions := test.l.regions + 1, loops := l.loops + [around]);
    var body := LowerBlock(inside, s.body);
    LaterThrough(l, inside, body.l);
    var after := body.l.(loops := l.loops);
    var steps := LowerSteps(after, s.steps);
    LaterThrough(l, after, steps.l);
    Piece(steps.l,
          Loop(loop, NO_BOUND, Concat(test.code, Block(block, body.code, HERE, steps.code)), HERE, End), 0)
  }

  lemma HeadsInLoops(head: Stmts, inLoop: bool)
    requires HaardSource.Heads(head)
    ensures HaardSource.InLoops(head, inLoop)
  {
  }

  /** Everything around ends, the statement's temporaries first, once the value is there. */
  function LowerReturn(l: Lowering, hasValue: bool, given: Expr): (p: Piece)
    ensures Around(l, p.l)
  {
    var begun := OpenScope(l, true);
    var value := if hasValue then LowerExpr(begun, given) else Piece(begun, End, 0);
    var ended := RunCleanups(value.l, 0);
    var closed := CloseScope(ended.l, true);
    Piece(closed.l, Concat(value.code, Concat(ended.code, Plain(Ret(value.value, HERE), End))), 0)
  }

  // ----- A function -----

  function SlotsCode(slots: seq<nat>): Code {
    if slots == [] then End else Plain(SlotAt(slots[0]), SlotsCode(slots[1..]))
  }

  function FlagsCode(flags: seq<nat>): Code {
    if flags == [] then End
    else Plain(Constant(0, flags[|flags| - 1] + 1), Plain(Storing(flags[|flags| - 1] + 1, flags[|flags| - 1]), FlagsCode(flags[..|flags| - 1])))
  }

  const BEGUN: Lowering := Lowering([], [], 0, 1, 1, [], [])

  predicate IsFunction(body: Stmts) {
    HaardSource.InLoops(body, false)
  }

  /** Where the end of the body can be come to and no value is asked for, a return is added; the
      hoisted slots and cleared flags come before everything. */
  function LowerFunction(body: Stmts, givesBack: bool): Structured
    requires IsFunction(body)
  {
    var lowered := LowerBlock(BEGUN, body);
    var all := if !Stops(lowered.code) && !givesBack then Concat(lowered.code, Plain(Ret(0, HERE), End)) else lowered.code;
    Structured(0, Concat(SlotsCode(lowered.l.slots), Concat(FlagsCode(lowered.l.flags), all)), false)
  }
}
