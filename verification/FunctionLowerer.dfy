/** The lowerer as the compiler runs it: the scopes and loops are pushed and popped while the
    statements are walked, each method gives the code it emitted, and the walk comes to what
    `Lowerer` says.
  */
module FunctionLowering {
  import opened Ir
  import HaardSource
  import Spec = Lowerer

  type Lowering = Spec.Lowering
  type Piece = Spec.Piece

  lemma {:induction false} ConcatAgain(first: Code, second: Code, third: Code)
    ensures Spec.Concat(Spec.Concat(first, second), third) == Spec.Concat(first, Spec.Concat(second, third))
    decreases first
  {
    if first != End {
      ConcatAgain(first.next, second, third);
    }
  }

  lemma {:induction false} ConcatEnd(code: Code)
    ensures Spec.Concat(code, End) == code
    decreases code
  {
    if code != End {
      ConcatEnd(code.next);
    }
  }

  lemma {:induction false} StopsAsItsEnd(first: Code, second: Code)
    requires second != End
    ensures Spec.Stops(Spec.Concat(first, second)) == Spec.Stops(second)
    decreases first
  {
    if first != End {
      StopsAsItsEnd(first.next, second);
    }
  }

  class FunctionLowerer {
    var scopes: seq<Spec.Scope>
    var loops: seq<Spec.LoopAround>
    var conditional: nat
    var next: nat
    var regions: nat
    var slots: seq<nat>
    var flags: seq<nat>

    function Now(): Lowering
      reads this
    {
      Spec.Lowering(scopes, loops, conditional, next, regions, slots, flags)
    }

    constructor ()
      ensures Now() == Spec.BEGUN
    {
      scopes, loops, conditional, next, regions, slots, flags := [], [], 0, 1, 1, [], [];
    }

    method NextValue() returns (value: nat)
      modifies this`next
      ensures value == old(next) && next == value + 1
    {
      value := next;
      next := next + 1;
    }

    method BeginRegion() returns (region: nat)
      modifies this`regions
      ensures region == old(regions) && regions == region + 1
    {
      region := regions;
      regions := regions + 1;
    }

    method OpenScope(statement: bool)
      modifies this`scopes
      ensures Now() == Spec.OpenScope(old(Now()), statement)
    {
      scopes := scopes + [Spec.Scope([], statement)];
    }

    method CloseScope(stopped: bool) returns (code: Code)
      requires scopes != []
      modifies this`scopes, this`next, this`regions
      ensures Spec.Piece(Now(), code, 0) == Spec.CloseScope(old(Now()), stopped)
    {
      code := End;
      if !stopped {
        code := RunCleanups(|scopes| - 1);
      }
      scopes := scopes[..|scopes| - 1];
    }

    method EndOne(one: Spec.Cleanup) returns (code: Code)
      modifies this`next, this`regions
      ensures Spec.Piece(Now(), code, 0) == Spec.EndOne(old(Now()), one)
    {
      if one.flag == 0 {
        code := Spec.One(Spec.Destroying(one.object_, one.place));
        return;
      }
      var test := NextValue();
      var region := BeginRegion();
      var zero := NextValue();
      var body := Plain(Spec.Destroying(one.object_, one.place), Spec.Two(Spec.Constant(0, zero), Spec.Storing(zero, one.flag)));
      code := Plain(Spec.Loading(one.flag, test), If(region, test, body, false, End, Spec.HERE, End));
    }

    method RunCleanups(depth: nat) returns (code: Code)
      modifies this`next, this`regions
      ensures Spec.Piece(Now(), code, 0) == Spec.RunCleanups(old(Now()), depth)
    {
      code := End;
      var s := |scopes|;
      assert scopes[..s] == scopes;
      while s > depth
        invariant 0 <= s <= |scopes|
        invariant var rest := Spec.EndScopes(Now(), scopes[..s], depth);
                  Spec.Piece(rest.l, Spec.Concat(code, rest.code), 0) == Spec.RunCleanups(old(Now()), depth)
      {
        ghost var begun, already := Now(), code;
        var cleanups := scopes[s - 1].cleanups;
        var c := |cleanups|;
        assert cleanups[..c] == cleanups;
        ConcatEnd(code);
        while c > 0
          invariant 0 <= c <= |cleanups|
          invariant var rest, whole := Spec.EndAll(Now(), cleanups[..c]), Spec.EndAll(begun, cleanups);
                    Spec.Piece(rest.l, Spec.Concat(code, rest.code), 0) == Spec.Piece(whole.l, Spec.Concat(already, whole.code), 0)
        {
          var one := EndOne(cleanups[c - 1]);
          assert cleanups[..c][..c - 1] == cleanups[..c - 1];
          ghost var rest := Spec.EndAll(Now(), cleanups[..c - 1]);
          ConcatAgain(code, one, rest.code);
          code := Spec.Concat(code, one);
          c := c - 1;
        }
        ConcatEnd(code);
        ghost var inner, outer := Spec.EndAll(begun, cleanups), Spec.EndScopes(Now(), scopes[..s - 1], depth);
        ConcatAgain(already, inner.code, outer.code);
        assert scopes[..s][..s - 1] == scopes[..s - 1];
        s := s - 1;
      }
      ConcatEnd(code);
    }

    method AddCleanup(object_: nat, place: nat, local: bool) returns (code: Code)
      requires scopes != []
      modifies this
      ensures Spec.Piece(Now(), code, 0) == Spec.AddCleanup(old(Now()), object_, place, local)
    {
      var at := |scopes| - 1;
      while local && at > 0 && scopes[at].statement
        invariant 0 <= at < |scopes|
        invariant !local ==> at == |scopes| - 1
        invariant Spec.ScopeOf(scopes, at) == Spec.ScopeOf(scopes, |scopes| - 1)
      {
        at := at - 1;
      }
      var flag := 0;
      code := End;
      if conditional > 0 && !local {
        flag := EntryFlag();
        var one := NextValue();
        code := Spec.Two(Spec.Constant(1, one), Spec.Storing(one, flag));
      }
      scopes := scopes[at := scopes[at].(cleanups := scopes[at].cleanups + [Spec.Cleanup(object_, place, flag)])];
    }

    method EntrySlot() returns (slot: nat)
      modifies this`next, this`slots
      ensures slot == old(next) && next == slot + 1 && slots == old(slots) + [slot]
    {
      slot := NextValue();
      slots := slots + [slot];
    }

    /** A slot, and the constant it is cleared with. */
    method EntryFlag() returns (flag: nat)
      modifies this`next, this`slots, this`flags
      ensures flag == old(next) && next == flag + 2 && slots == old(slots) + [flag] && flags == old(flags) + [flag]
    {
      flag := EntrySlot();
      var zero := NextValue();
      flags := flags + [flag];
    }

    method ValueOf(e: HaardSource.Expr) returns (code: Code, value: nat)
      requires scopes != []
      modifies this
      ensures Spec.Piece(Now(), code, value) == Spec.LowerExpr(old(Now()), e)
      decreases e, 1
    {
      match e
      case Call(function_) =>
        value := NextValue();
        code := Spec.One(Spec.Calling(function_, value));
      case Temporary(object_) =>
        var place := EntrySlot();
        value := NextValue();
        var kept := AddCleanup(object_, place, false);
        code := Plain(Spec.AddressOf(object_, place, value), Plain(Spec.Building(object_, place), kept));
      case Both(first, second) =>
        var before, _ := ValueOf(first);
        code, value := ValueOf(second);
        code := Spec.Concat(before, code);
      case Logical(_, _, _) =>
        code, value := Logical(e);
    }

    method Logical(e: HaardSource.Expr) returns (code: Code, value: nat)
      requires scopes != [] && e.Logical?
      modifies this
      ensures Spec.Piece(Now(), code, value) == Spec.LowerLogical(old(Now()), e)
      decreases e, 0
    {
      hide Spec.LowerExpr, Spec.Concat;
      var answer := EntrySlot();
      var before, left := ValueOf(e.left);
      var test := left;
      if !e.isAnd {
        test := NextValue();
      }
      var region := BeginRegion();
      conditional := conditional + 1;
      var inside, right := ValueOf(e.right);
      conditional := conditional - 1;
      value := NextValue();
      code := If(region, test, Spec.Concat(inside, Spec.One(Spec.Storing(right, answer))), false, End, Spec.HERE,
                 Spec.One(Spec.Loading(answer, value)));
      if !e.isAnd {
        code := Plain(Spec.Negating(left, test), code);
      }
      code := Spec.Concat(before, Plain(Spec.Storing(left, answer), code));
    }

    method LowerWhole(e: HaardSource.Expr) returns (code: Code, value: nat)
      modifies this
      ensures Spec.Piece(Now(), code, value) == Spec.LowerWhole(old(Now()), e)
    {
      OpenScope(true);
      code, value := ValueOf(e);
      var ended := CloseScope(false);
      code := Spec.Concat(code, ended);
    }

    method LowerBlock(body: HaardSource.Stmts) returns (code: Code)
      requires HaardSource.InLoops(body, loops != [])
      modifies this
      ensures Spec.Piece(Now(), code, 0) == Spec.LowerBlock(old(Now()), body)
      decreases body, 2
    {
      OpenScope(false);
      code := LowerChildren(body);
      var ended := CloseScope(Spec.Stops(code));
      code := Spec.Concat(code, ended);
    }

    /** One statement after another, up to one nothing comes after. */
    method LowerChildren(body: HaardSource.Stmts) returns (code: Code)
      requires Spec.Lowerable(Now(), body)
      modifies this
      ensures var lowered := Spec.LowerStmts(old(Now()), body); Now() == lowered.l && code == lowered.code
      decreases body, 1
    {
      hide Spec.LowerOne, Spec.Later, Spec.Stops, Spec.Concat;
      var child := body;
      code := End;
      NothingStops();
      while child.Then? && !Spec.Stops(code)
        invariant child == body || child < body
        invariant Spec.Lowerable(Now(), child)
        invariant var whole, rest := Spec.LowerStmts(old(Now()), body), Spec.LowerStmts(Now(), child);
                  if Spec.Stops(code) then whole.l == Now() && whole.code == code
                  else whole.l == rest.l && whole.code == Spec.Concat(code, rest.code)
        decreases child
      {
        ghost var begun := Now();
        var one := LowerStatement(child.first);
        StoppedHere(code, one);
        ghost var rest := Spec.LowerStmts(begun, child);
        if !Spec.Stops(one) {
          ConcatAgain(code, one, Spec.LowerStmts(Now(), child.rest).code);
        }
        code := Spec.Concat(code, one);
        child := child.rest;
      }
      ConcatEnd(code);
    }

    method LowerStatement(s: HaardSource.Stmt) returns (code: Code)
      requires Spec.InBlock(Now()) && HaardSource.InLoopsOne(s, loops != [])
      modifies this
      ensures var lowered := Spec.LowerOne(old(Now()), s); Now() == lowered.l && code == lowered.code
      decreases s, 1
    {
      match s
      case Evaluate(given) =>
        var value;
        code, value := LowerWhole(given);
      case Let(object_, given) => code := LowerLet(object_, given);
      case BlockOf(body) => code := LowerBlock(body);
      case IfElse(_, _, _, _) => code := LowerIf(s);
      case While(_, _, _) => code := LowerWhile(s);
      case For(_, _, _, _, _) => code := LowerFor(s);
      case Return(hasValue, given) => code := GiveBack(hasValue, given);
      case BreakLoop =>
        var around := loops[|loops| - 1];
        code := RunCleanups(around.depth);
        code := Spec.Concat(code, Break(around.broken, Spec.HERE, End));
      case ContinueLoop =>
        var around := loops[|loops| - 1];
        code := RunCleanups(around.depth);
        if around.continueBreaks {
          code := Spec.Concat(code, Break(around.continued, Spec.HERE, End));
        } else {
          code := Spec.Concat(code, Continue(around.continued, Spec.HERE, End));
        }
    }

    method LowerLet(object_: nat, given: HaardSource.Expr) returns (code: Code)
      requires Spec.InBlock(Now())
      modifies this
      ensures Spec.Piece(Now(), code, 0) == Spec.LowerLet(old(Now()), object_, given)
    {
      hide Spec.LowerExpr, Spec.AddCleanup, Spec.EndScopes;
      ghost var begun := Now();
      var place := EntrySlot();
      assert Now() == Spec.WithSlot(begun);
      OpenScope(true);
      var value;
      code, value := ValueOf(given);
      ghost var inside := Now();
      Spec.LetRegisters(Spec.WithSlot(begun), inside, object_, place);
      var kept := AddCleanup(object_, place, true);
      var ended := CloseScope(false);
      code := Spec.Concat(code, Plain(Spec.Building(object_, place), Spec.Concat(kept, ended)));
    }

    method LowerIf(s: HaardSource.Stmt) returns (code: Code)
      requires s.IfElse? && scopes != [] && HaardSource.InLoopsOne(s, loops != [])
      modifies this
      ensures Spec.Piece(Now(), code, 0) == Spec.LowerIf(old(Now()), s)
      decreases s, 0
    {
      hide Spec.LowerWhole, Spec.LowerBlock, Spec.Concat;
      var test;
      code, test := LowerWhole(s.test);
      var region := BeginRegion();
      var chosen := LowerBlock(s.chosen);
      var otherwise := End;
      if s.hasElse {
        otherwise := LowerBlock(s.otherwise);
      }
      code := Spec.Concat(code, If(region, test, chosen, s.hasElse, otherwise, Spec.HERE, End));
    }

    method LowerTest(hasTest: bool, test: HaardSource.Expr, loop: nat) returns (code: Code)
      modifies this
      ensures Spec.Piece(Now(), code, 0) == Spec.LowerTest(old(Now()), hasTest, test, loop)
    {
      code := End;
      if hasTest {
        var value;
        code, value := LowerWhole(test);
        var negated := NextValue();
        var region := BeginRegion();
        code := Spec.Concat(code, Plain(Spec.Negating(value, negated),
                                        If(region, negated, Break(loop, Spec.HERE, End), false, End, Spec.HERE, End)));
      }
    }

    method LowerWhile(s: HaardSource.Stmt) returns (code: Code)
      requires s.While? && scopes != [] && HaardSource.InLoopsOne(s, loops != [])
      modifies this
      ensures Spec.Piece(Now(), code, 0) == Spec.LowerWhile(old(Now()), s)
      decreases s, 0
    {
      hide Spec.LowerTest, Spec.LowerBlock, Spec.Concat;
      var loop := BeginRegion();
      var test := LowerTest(s.hasTest, s.test, loop);
      loops := loops + [Spec.LoopAround(loop, loop, false, |scopes|)];
      code := LowerBlock(s.body);
      loops := loops[..|loops| - 1];
      code := Loop(loop, NO_BOUND, Spec.Concat(test, code), Spec.HERE, End);
    }

    method LowerSteps(steps: HaardSource.Exprs) returns (code: Code)
      modifies this
      ensures Spec.Piece(Now(), code, 0) == Spec.LowerSteps(old(Now()), steps)
    {
      var step := steps;
      code := End;
      while step.More?
        invariant var whole, rest := Spec.LowerSteps(old(Now()), steps), Spec.LowerSteps(Now(), step);
                  whole == Spec.Piece(rest.l, Spec.Concat(code, rest.code), 0)
        decreases step
      {
        var one, _ := LowerWhole(step.first);
        ConcatAgain(code, one, Spec.LowerSteps(Now(), step.rest).code);
        code := Spec.Concat(code, one);
        step := step.rest;
      }
      ConcatEnd(code);
    }

    method LowerFor(s: HaardSource.Stmt) returns (code: Code)
      requires s.For? && scopes != [] && HaardSource.InLoopsOne(s, loops != [])
      modifies this
      ensures Spec.Piece(Now(), code, 0) == Spec.LowerFor(old(Now()), s)
      decreases s, 0
    {
      Spec.HeadsInLoops(s.head, loops != []);
      OpenScope(false);
      var head := LowerChildren(s.head);
      code := LowerRounds(s);
      var ended := CloseScope(false);
      code := Spec.Concat(head, Spec.Concat(code, ended));
    }

    method LowerRounds(s: HaardSource.Stmt) returns (code: Code)
      requires s.For? && scopes != [] && HaardSource.InLoops(s.body, true)
      modifies this
      ensures Spec.Piece(Now(), code, 0) == Spec.LowerRounds(old(Now()), s)
      decreases s.body, 3
    {
      hide Spec.LowerTest, Spec.LowerBlock, Spec.LowerSteps, Spec.Concat;
      var loop := BeginRegion();
      var test := LowerTest(s.hasTest, s.test, loop);
      var block := BeginRegion();
      loops := loops + [Spec.LoopAround(loop, block, true, |scopes|)];
      code := LowerBlock(s.body);
      loops := loops[..|loops| - 1];
      var steps := LowerSteps(s.steps);
      code := Loop(loop, NO_BOUND, Spec.Concat(test, Block(block, code, Spec.HERE, steps)), Spec.HERE, End);
    }

    method GiveBack(hasValue: bool, given: HaardSource.Expr) returns (code: Code)
      modifies this
      ensures Spec.Piece(Now(), code, 0) == Spec.LowerReturn(old(Now()), hasValue, given)
    {
      OpenScope(true);
      var value := 0;
      code := End;
      if hasValue {
        code, value := ValueOf(given);
      }
      var ended := RunCleanups(0);
      var _ := CloseScope(true);
      code := Spec.Concat(code, Spec.Concat(ended, Plain(Ret(value, Spec.HERE), End)));
    }

    /** The hoisted slots, the flags cleared, and the body. */
    method Lower(body: HaardSource.Stmts, givesBack: bool) returns (made: Structured)
      requires Now() == Spec.BEGUN && Spec.IsFunction(body)
      modifies this
      ensures made == Spec.LowerFunction(body, givesBack)
    {
      var code := LowerBlock(body);
      if !Spec.Stops(code) && !givesBack {
        code := Spec.Concat(code, Plain(Ret(0, Spec.HERE), End));
      }
      made := Structured(0, Spec.Concat(Spec.SlotsCode(slots), Spec.Concat(Spec.FlagsCode(flags), code)), false);
    }
  }

  /** What ends in a terminator goes on ending in one. */
  lemma NothingStops()
    ensures !Spec.Stops(End) && forall code: Code :: Spec.Concat(End, code) == code
  {
  }

  lemma StoppedHere(code: Code, one: Code)
    requires !Spec.Stops(code)
    ensures Spec.Stops(Spec.Concat(code, one)) == Spec.Stops(one)
  {
    if one == End {
      ConcatEnd(code);
    } else {
      StopsAsItsEnd(code, one);
    }
  }
}
