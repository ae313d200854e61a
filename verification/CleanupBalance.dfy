/** Cleanups balance on every run.

    The meaning of statements ends exactly what it builds (`BlockBalances`), the lowered code
    follows that meaning, and flattening preserves the code's; so in every run of the CFG that
    ends, each object that was built has been destroyed as often as it was built, and at no moment
    more often (`EveryRunBalances`).
  */
module CleanupBalance {
  import opened Ir
  import opened Interpreter
  import opened StructuredMeaning
  import opened Flattener
  import opened FlattenerMeaning
  import opened Lowerer
  import opened LowererMeaning
  import opened CleanupMeaning
  import opened HaardSource

  lemma {:induction false} BuiltMore(trace: Trace, event: Event)
    ensures BuiltIn(trace + [event]) == BuiltIn(trace) + if event.Built? then multiset{event.object_} else multiset{}
    ensures DestroyedIn(trace + [event]) == DestroyedIn(trace) + if event.Destroyed? then multiset{event.object_} else multiset{}
    decreases |trace|
  {
    if trace == [] {
      assert [event][1..] == [];
      assert trace + [event] == [event];
    } else {
      assert (trace + [event])[1..] == trace[1..] + [event];
      BuiltMore(trace[1..], event);
    }
  }

  lemma LeavesCall(trace: Trace, live: multiset<nat>, function_: nat)
    requires Leaves(trace, live)
    ensures Leaves(trace + [Called(function_)], live)
  {
    BuiltMore(trace, Called(function_));
    NotTooOften(trace, Called(function_));
  }

  lemma LeavesBuilt(trace: Trace, live: multiset<nat>, object_: nat)
    requires Leaves(trace, live)
    ensures Leaves(trace + [Built(object_)], live + multiset{object_})
  {
    BuiltMore(trace, Built(object_));
    NotTooOften(trace, Built(object_));
  }

  lemma LeavesDestroyed(trace: Trace, live: multiset<nat>, object_: nat)
    requires Leaves(trace, live + multiset{object_})
    ensures Leaves(trace + [Destroyed(object_)], live)
  {
    BuiltMore(trace, Destroyed(object_));
    NotTooOften(trace, Destroyed(object_));
  }

  lemma NotTooOften(trace: Trace, event: Event)
    requires NeverTooOften(trace) && DestroyedIn(trace + [event]) <= BuiltIn(trace + [event])
    ensures NeverTooOften(trace + [event])
  {
    var more := trace + [event];
    forall k | 0 <= k <= |more|
      ensures DestroyedIn(more[..k]) <= BuiltIn(more[..k])
    {
      if k <= |trace| {
        assert more[..k] == trace[..k];
      } else {
        assert more[..k] == more;
      }
    }
  }

  /** Ending objects that are there. */
  lemma {:induction false} LeavesEnded(trace: Trace, live: multiset<nat>, objects: seq<nat>)
    requires Leaves(trace, live + multiset(objects))
    ensures Leaves(trace + LastFirst(objects), live)
    decreases |objects|
  {
    if objects == [] {
      assert live + multiset(objects) == live;
      assert trace + LastFirst([]) == trace;
    } else {
      var last, before := objects[|objects| - 1], objects[..|objects| - 1];
      assert objects == before + [last];
      assert live + multiset(objects) == live + multiset(before) + multiset{last};
      LeavesDestroyed(trace, live + multiset(before), last);
      LeavesEnded(trace + [Destroyed(last)], live, before);
      assert trace + [Destroyed(last)] + LastFirst(before) == trace + LastFirst(objects);
    }
  }

  lemma {:induction false} EvalBalances(answers: Answers, e: Expr, trace: Trace, live: multiset<nat>)
    requires Leaves(trace, live)
    ensures var r := Eval(answers, e, trace); Leaves(r.trace, live + multiset(r.built))
    decreases e
  {
    var r := Eval(answers, e, trace);
    match e
    case Call(function_) =>
      LeavesCall(trace, live, function_);
      assert live + multiset([]) == live;
    case Temporary(object_) =>
      LeavesBuilt(trace, live, object_);
      assert multiset([object_]) == multiset{object_};
    case Both(first, second) =>
      var one := Eval(answers, first, trace);
      EvalBalances(answers, first, trace, live);
      EvalBalances(answers, second, one.trace, live + multiset(one.built));
      var two := Eval(answers, second, one.trace);
      assert live + multiset(one.built + two.built) == live + multiset(one.built) + multiset(two.built);
    case Logical(isAnd, left, right) =>
      var one := Eval(answers, left, trace);
      EvalBalances(answers, left, trace, live);
      if (one.value != 0) == isAnd {
        EvalBalances(answers, right, one.trace, live + multiset(one.built));
        var two := Eval(answers, right, one.trace);
        assert live + multiset(one.built + two.built) == live + multiset(one.built) + multiset(two.built);
      }
  }

  lemma WholeBalances(answers: Answers, e: Expr, trace: Trace, live: multiset<nat>)
    requires Leaves(trace, live)
    ensures Leaves(EvalWhole(answers, e, trace).1, live)
  {
    EvalBalances(answers, e, trace, live);
    var r := Eval(answers, e, trace);
    LeavesEnded(r.trace, live, r.built);
  }

  lemma {:induction false} RunBalances(answers: Answers, body: Stmts, trace: Trace, locals: seq<nat>, fuel: nat, live: multiset<nat>)
    requires Leaves(trace, live + multiset(locals))
    ensures var ran := Run(answers, body, trace, locals, fuel); Leaves(ran.trace, live + multiset(ran.locals))
    decreases fuel, body, 1
  {
    if body.Then? {
      OneBalances(answers, body.first, trace, locals, fuel, live);
      var one := RunOne(answers, body.first, trace, locals, fuel);
      if one.way == GoesOn {
        RunBalances(answers, body.rest, one.trace, one.locals, fuel, live);
      }
    }
  }

  /** A block leaves no object behind, and ends none that was there, however it is left. */
  lemma {:induction false} BlockBalances(answers: Answers, body: Stmts, trace: Trace, fuel: nat, live: multiset<nat>)
    requires Leaves(trace, live)
    ensures Leaves(RunBlock(answers, body, trace, fuel).1, live)
    decreases fuel, body, 2
  {
    assert live + multiset([]) == live;
    RunBalances(answers, body, trace, [], fuel, live);
    var ran := Run(answers, body, trace, [], fuel);
    LeavesEnded(ran.trace, live, ran.locals);
  }

  lemma {:induction false} OneBalances(answers: Answers, s: Stmt, trace: Trace, locals: seq<nat>, fuel: nat, live: multiset<nat>)
    requires Leaves(trace, live + multiset(locals))
    ensures var ran := RunOne(answers, s, trace, locals, fuel); Leaves(ran.trace, live + multiset(ran.locals))
    decreases fuel, s, 1
  {
    var there := live + multiset(locals);
    match s
    case Evaluate(given) => WholeBalances(answers, given, trace, there);
    case Let(object_, given) => LetBalances(answers, object_, given, trace, locals, live);
    case BlockOf(body) => BlockBalances(answers, body, trace, fuel, there);
    case IfElse(test, chosen, hasElse, otherwise) =>
      WholeBalances(answers, test, trace, there);
      var (value, after) := EvalWhole(answers, test, trace);
      if value != 0 {
        BlockBalances(answers, chosen, after, fuel, there);
      } else if hasElse {
        BlockBalances(answers, otherwise, after, fuel, there);
      }
    case While(_, _, _) => WhileBalances(answers, s, trace, fuel, there);
    case For(head, _, _, _, _) =>
      assert there + multiset([]) == there;
      RunBalances(answers, head, trace, [], fuel, there);
      var begun := Run(answers, head, trace, [], fuel);
      if begun.way == GoesOn {
        ForBalances(answers, s, begun.trace, fuel, there + multiset(begun.locals));
        LeavesEnded(RunFor(answers, s, begun.trace, fuel).1, there, begun.locals);
      } else {
        LeavesEnded(begun.trace, there, begun.locals);
      }
    case Return(hasValue, given) =>
      if hasValue {
        WholeBalances(answers, given, trace, there);
      }
    case BreakLoop =>
    case ContinueLoop =>
  }

  lemma LetBalances(answers: Answers, object_: nat, given: Expr, trace: Trace, locals: seq<nat>, live: multiset<nat>)
    requires Leaves(trace, live + multiset(locals))
    ensures var r := Eval(answers, given, trace);
            Leaves(r.trace + [Built(object_)] + LastFirst(r.built), live + multiset(locals + [object_]))
  {
    hide Eval, Leaves, LastFirst;
    var r, there := Eval(answers, given, trace), live + multiset(locals);
    EvalBalances(answers, given, trace, there);
    LeavesBuilt(r.trace, there + multiset(r.built), object_);
    assert there + multiset(r.built) + multiset{object_} == there + multiset{object_} + multiset(r.built);
    LeavesEnded(r.trace + [Built(object_)], there + multiset{object_}, r.built);
    assert live + multiset(locals + [object_]) == there + multiset{object_};
  }

  lemma {:induction false} WhileBalances(answers: Answers, s: Stmt, trace: Trace, fuel: nat, live: multiset<nat>)
    requires s.While? && Leaves(trace, live)
    ensures Leaves(RunWhile(answers, s, trace, fuel).1, live)
    decreases fuel, s, 0
  {
    if s.hasTest {
      WholeBalances(answers, s.test, trace, live);
    }
    var (goesIn, after) := Tested(answers, s.hasTest, s.test, trace);
    if goesIn {
      BlockBalances(answers, s.body, after, fuel, live);
      var ran := RunBlock(answers, s.body, after, fuel);
      if (ran.0 == GoesOn || ran.0 == Continues) && fuel != 0 {
        WhileBalances(answers, s, ran.1, fuel - 1, live);
      }
    }
  }

  lemma {:induction false} StepsBalance(answers: Answers, steps: Exprs, trace: Trace, live: multiset<nat>)
    requires Leaves(trace, live)
    ensures Leaves(RunSteps(answers, steps, trace), live)
    decreases steps
  {
    if steps.More? {
      WholeBalances(answers, steps.first, trace, live);
      StepsBalance(answers, steps.rest, EvalWhole(answers, steps.first, trace).1, live);
    }
  }

  lemma {:induction false} ForBalances(answers: Answers, s: Stmt, trace: Trace, fuel: nat, live: multiset<nat>)
    requires s.For? && Leaves(trace, live)
    ensures Leaves(RunFor(answers, s, trace, fuel).1, live)
    decreases fuel, s, 0
  {
    if s.hasTest {
      WholeBalances(answers, s.test, trace, live);
    }
    var (goesIn, after) := Tested(answers, s.hasTest, s.test, trace);
    if goesIn {
      BlockBalances(answers, s.body, after, fuel, live);
      var ran := RunBlock(answers, s.body, after, fuel);
      if ran.0 == GoesOn || ran.0 == Continues {
        StepsBalance(answers, s.steps, ran.1, live);
        if fuel != 0 {
          ForBalances(answers, s, RunSteps(answers, s.steps, ran.1), fuel - 1, live);
        }
      }
    }
  }

  // ----- The lowered code can be flattened -----

  /** The regions the loop around jumps to are around. */
  ghost predicate LoopIsAround(l: Lowering, around: seq<Flattener.Around>) {
    l.loops != [] ==>
      var loop := l.loops[|l.loops| - 1];
      && Encloses(around, loop.broken) && Encloses(around, loop.continued)
      && loop.broken < l.regions && loop.continued < l.regions
      && (!loop.continueBreaks ==> Innermost(around, loop.continued).isLoop)
  }

  /** A region more, numbered after the loops'. */
  lemma InsideRegion(l: Lowering, around: seq<Flattener.Around>, region: nat, isLoop: bool)
    requires LoopIsAround(l, around) && l.regions <= region
    ensures LoopIsAround(l, around + [Flattener.Around(region, isLoop)])
  {
    var inside := around + [Flattener.Around(region, isLoop)];
    if l.loops != [] {
      var loop := l.loops[|l.loops| - 1];
      assert inside[..|around|] == around;
      var i :| 0 <= i < |around| && around[i].region == loop.broken;
      assert inside[i].region == loop.broken;
      var j :| 0 <= j < |around| && around[j].region == loop.continued;
      assert inside[j].region == loop.continued;
    }
  }

  lemma {:induction false} EndAllScoped(l: Lowering, cleanups: seq<Cleanup>, around: seq<Flattener.Around>)
    ensures WellScoped(EndAll(l, cleanups).code, around)
    decreases |cleanups|
  {
    if cleanups != [] {
      var last := EndOne(l, cleanups[|cleanups| - 1]);
      var rest := EndAll(last.l, cleanups[..|cleanups| - 1]);
      EndAllScoped(last.l, cleanups[..|cleanups| - 1], around);
      EndOneScoped(l, cleanups[|cleanups| - 1], around);
      ConcatScoped(last.code, rest.code, around);
    }
  }

  lemma EndOneScoped(l: Lowering, one: Cleanup, around: seq<Flattener.Around>)
    ensures WellScoped(EndOne(l, one).code, around)
  {
    if one.flag != 0 {
      var test, zero := l.next, l.next + 1;
      var stored := Two(Constant(0, zero), Storing(zero, one.flag));
      var inside := around + [Flattener.Around(l.regions, false)];
      assert WellScoped(Plain(Storing(zero, one.flag), End), inside);
      assert WellScoped(stored, inside);
      assert WellScoped(Plain(Destroying(one.object_, one.place), stored), inside);
      assert WellScoped(If(l.regions, test, Plain(Destroying(one.object_, one.place), stored), false, End, HERE, End), around);
    }
  }

  lemma {:induction false} EndScopesScoped(l: Lowering, scopes: seq<Scope>, depth: nat, around: seq<Flattener.Around>)
    ensures WellScoped(EndScopes(l, scopes, depth).code, around)
    decreases |scopes|
  {
    if |scopes| > depth {
      var inner := EndAll(l, scopes[|scopes| - 1].cleanups);
      EndAllScoped(l, scopes[|scopes| - 1].cleanups, around);
      EndScopesScoped(inner.l, scopes[..|scopes| - 1], depth, around);
      ConcatScoped(inner.code, EndScopes(inner.l, scopes[..|scopes| - 1], depth).code, around);
    }
  }

  lemma {:induction false} ExprScoped(l: Lowering, e: Expr, around: seq<Flattener.Around>)
    requires l.scopes != []
    ensures WellScoped(LowerExpr(l, e).code, around)
    decreases e
  {
    match e
    case Call(function_) => assert WellScoped(One(Calling(function_, l.next)), around);
    case Temporary(object_) => TemporaryScoped(l, object_, around);
    case Both(first, second) =>
      var one := LowerExpr(l, first);
      ExprScoped(l, first, around);
      ExprScoped(one.l, second, around);
      ConcatScoped(one.code, LowerExpr(one.l, second).code, around);
    case Logical(isAnd, left, right) =>
      var first := LowerExpr(WithSlot(l), left);
      var second := LowerExpr(LogicalRight(first.l, isAnd), right);
      var inside := around + [Flattener.Around(first.l.regions, false)];
      ExprScoped(WithSlot(l), left, around);
      ExprScoped(LogicalRight(first.l, isAnd), right, inside);
      LogicalScoped(l, e, first, second, around);
  }

  lemma LogicalScoped(l: Lowering, e: Expr, left: Piece, right: Piece, around: seq<Flattener.Around>)
    requires l.scopes != [] && e.Logical? && left == LowerExpr(WithSlot(l), e.left) && right == LowerExpr(LogicalRight(left.l, e.isAnd), e.right)
    requires WellScoped(left.code, around) && WellScoped(right.code, around + [Flattener.Around(left.l.regions, false)])
    ensures WellScoped(LowerExpr(l, e).code, around)
  {
    hide LowerExpr;
    LogicalIsLogical(l, e);
    var inside := around + [Flattener.Around(left.l.regions, false)];
    var stores := One(Storing(right.value, l.next));
    assert WellScoped(stores, inside);
    ConcatScoped(right.code, stores, inside);
    var test := if e.isAnd then left.value else left.l.next;
    var last := One(Loading(l.next, right.l.next));
    assert WellScoped(last, around);
    var region := If(left.l.regions, test, Concat(right.code, stores), false, End, HERE, last);
    assert WellScoped(region, around);
    var rest := if e.isAnd then region else Plain(Negating(left.value, left.l.next), region);
    assert WellScoped(rest, around);
    ConcatScoped(left.code, Plain(Storing(left.value, l.next), rest), around);
  }

  lemma TemporaryScoped(l: Lowering, object_: nat, around: seq<Flattener.Around>)
    requires l.scopes != []
    ensures WellScoped(LowerExpr(l, Temporary(object_)).code, around)
  {
    var placed := WithSlot(l).(next := l.next + 2);
    var kept := AddCleanup(placed, object_, l.next, false);
    AddedScoped(placed, object_, l.next, false, around);
    assert WellScoped(Plain(Building(object_, l.next), kept.code), around);
  }

  lemma AddedScoped(l: Lowering, object_: nat, place: nat, local: bool, around: seq<Flattener.Around>)
    requires l.scopes != []
    ensures WellScoped(AddCleanup(l, object_, place, local).code, around)
  {
    var one, flag := l.next + 2, l.next;
    assert WellScoped(Plain(Storing(one, flag), End), around);
  }

  lemma WholeScoped(l: Lowering, e: Expr, around: seq<Flattener.Around>)
    ensures WellScoped(LowerWhole(l, e).code, around)
  {
    var given := LowerExpr(OpenScope(l, true), e);
    ExprScoped(OpenScope(l, true), e, around);
    EndScopesScoped(given.l, given.l.scopes, |given.l.scopes| - 1, around);
    ConcatScoped(given.code, CloseScope(given.l, false).code, around);
  }

  lemma {:induction false} StmtsScoped(l: Lowering, body: Stmts, around: seq<Flattener.Around>)
    requires Lowerable(l, body) && LoopIsAround(l, around)
    ensures WellScoped(LowerStmts(l, body).code, around)
    decreases body, 2
  {
    hide LowerOne, WellScoped;
    match body
    case Nothing => EmptyScoped(around);
    case Then(first, rest) =>
      var one := LowerOne(l, first);
      OneScoped(l, first, around);
      if !Stops(one.code) {
        StmtsScoped(one.l, rest, around);
        ConcatScoped(one.code, LowerStmts(one.l, rest).code, around);
      }
  }

  lemma EmptyScoped(around: seq<Flattener.Around>)
    ensures WellScoped(End, around)
  {
  }

  lemma {:induction false} BlockScoped(l: Lowering, body: Stmts, around: seq<Flattener.Around>)
    requires InLoops(body, l.loops != []) && LoopIsAround(l, around)
    ensures WellScoped(LowerBlock(l, body).code, around)
    decreases body, 3
  {
    hide LowerStmts, WellScoped, EndScopes;
    var inside := LowerStmts(OpenScope(l, false), body);
    StmtsScoped(OpenScope(l, false), body, around);
    EmptyScoped(around);
    EndScopesScoped(inside.l, inside.l.scopes, |inside.l.scopes| - 1, around);
    ConcatScoped(inside.code, CloseScope(inside.l, Stops(inside.code)).code, around);
  }

  lemma {:induction false} OneScoped(l: Lowering, first: Stmt, around: seq<Flattener.Around>)
    requires Lowerer.InBlock(l) && InLoopsOne(first, l.loops != []) && LoopIsAround(l, around)
    ensures WellScoped(LowerOne(l, first).code, around)
    decreases first, 1
  {
    hide LowerWhole, LowerBlock, LowerExpr, EndScopes;
    match first
    case Evaluate(given) => WholeScoped(l, given, around);
    case Let(object_, given) => LetScoped(l, object_, given, around);
    case BlockOf(body) => BlockScoped(l, body, around);
    case IfElse(_, _, _, _) => IfScoped(l, first, around);
    case While(_, _, _) => WhileScoped(l, first, around);
    case For(_, _, _, _, _) => ForScoped(l, first, around);
    case Return(hasValue, given) => ReturnScoped(l, hasValue, given, around);
    case BreakLoop =>
      var loop := l.loops[|l.loops| - 1];
      EndScopesScoped(l, l.scopes, loop.depth, around);
      assert WellScoped(Break(loop.broken, HERE, End), around);
      ConcatScoped(RunCleanups(l, loop.depth).code, Break(loop.broken, HERE, End), around);
    case ContinueLoop =>
      var loop := l.loops[|l.loops| - 1];
      var jump := if loop.continueBreaks then Break(loop.continued, HERE, End) else Continue(loop.continued, HERE, End);
      EndScopesScoped(l, l.scopes, loop.depth, around);
      assert WellScoped(jump, around);
      ConcatScoped(RunCleanups(l, loop.depth).code, jump, around);
  }

  lemma LetScoped(l: Lowering, object_: nat, given: Expr, around: seq<Flattener.Around>)
    requires Lowerer.InBlock(l)
    ensures WellScoped(LowerLet(l, object_, given).code, around)
  {
    hide LowerExpr, EndScopes;
    var placed := WithSlot(l);
    var value := LowerExpr(OpenScope(placed, true), given);
    LetRegisters(placed, value.l, object_, l.next);
    var kept := AddCleanup(value.l, object_, l.next, true);
    var closed := CloseScope(kept.l, false);
    ExprScoped(OpenScope(placed, true), given, around);
    EndScopesScoped(kept.l, kept.l.scopes, |kept.l.scopes| - 1, around);
    assert WellScoped(Plain(Building(object_, l.next), Concat(kept.code, closed.code)), around);
    ConcatScoped(value.code, Plain(Building(object_, l.next), Concat(kept.code, closed.code)), around);
  }

  lemma ReturnScoped(l: Lowering, hasValue: bool, given: Expr, around: seq<Flattener.Around>)
    ensures WellScoped(LowerReturn(l, hasValue, given).code, around)
  {
    hide LowerExpr, EndScopes;
    var begun := OpenScope(l, true);
    var value := if hasValue then LowerExpr(begun, given) else Piece(begun, End, 0);
    var ended, last := RunCleanups(value.l, 0), Plain(Ret(value.value, HERE), End);
    ExprScoped(begun, given, around);
    EndScopesScoped(value.l, value.l.scopes, 0, around);
    assert WellScoped(last, around);
    ConcatScoped(ended.code, last, around);
    ConcatScoped(value.code, Concat(ended.code, last), around);
  }

  lemma {:induction false} IfScoped(l: Lowering, first: Stmt, around: seq<Flattener.Around>)
    requires first.IfElse? && l.scopes != [] && InLoopsOne(first, l.loops != []) && LoopIsAround(l, around)
    ensures WellScoped(LowerIf(l, first).code, around)
    decreases first, 0
  {
    hide LowerWhole, LowerBlock;
    var test := LowerWhole(l, first.test);
    var region, begun := test.l.regions, test.l.(regions := test.l.regions + 1);
    var chosen := LowerBlock(begun, first.chosen);
    var inside := around + [Flattener.Around(region, false)];
    WholeScoped(l, first.test, around);
    InsideRegion(l, around, region, false);
    BlockScoped(begun, first.chosen, inside);
    if first.hasElse {
      BlockScoped(chosen.l, first.otherwise, inside);
    }
    var otherwise := if first.hasElse then LowerBlock(chosen.l, first.otherwise) else Piece(chosen.l, End, 0);
    var node := If(region, test.value, chosen.code, first.hasElse, otherwise.code, HERE, End);
    assert WellScoped(node, around);
    ConcatScoped(test.code, node, around);
  }

  lemma TestScoped(l: Lowering, hasTest: bool, test: Expr, loop: nat, around: seq<Flattener.Around>)
    requires Encloses(around, loop)
    ensures WellScoped(LowerTest(l, hasTest, test, loop).code, around)
  {
    hide LowerWhole;
    if hasTest {
      var whole := LowerWhole(l, test);
      var negated := whole.l.next;
      var inside := around + [Flattener.Around(whole.l.regions, false)];
      var i :| 0 <= i < |around| && around[i].region == loop;
      assert inside[i].region == loop;
      assert WellScoped(Break(loop, HERE, End), inside);
      var node := If(whole.l.regions, negated, Break(loop, HERE, End), false, End, HERE, End);
      assert WellScoped(node, around);
      WholeScoped(l, test, around);
      ConcatScoped(whole.code, Plain(Negating(whole.value, negated), node), around);
    }
  }

  lemma {:induction false} WhileScoped(l: Lowering, first: Stmt, around: seq<Flattener.Around>)
    requires first.While? && l.scopes != [] && InLoopsOne(first, l.loops != [])
    ensures WellScoped(LowerWhile(l, first).code, around)
    decreases first, 0
  {
    hide LowerTest, LowerBlock;
    var loop := l.regions;
    var test := LowerTest(l.(regions := l.regions + 1), first.hasTest, first.test, loop);
    var begun := test.l.(loops := l.loops + [LoopAround(loop, loop, false, |l.scopes|)]);
    var body := LowerBlock(begun, first.body);
    var inside := around + [Flattener.Around(loop, true)];
    assert inside[|around|].region == loop;
    TestScoped(l.(regions := l.regions + 1), first.hasTest, first.test, loop, inside);
    BlockScoped(begun, first.body, inside);
    ConcatScoped(test.code, body.code, inside);
    assert WellScoped(Loop(loop, NO_BOUND, Concat(test.code, body.code), HERE, End), around);
  }

  lemma {:induction false} StepsScoped(l: Lowering, steps: Exprs, around: seq<Flattener.Around>)
    ensures WellScoped(LowerSteps(l, steps).code, around)
    decreases steps
  {
    if steps.More? {
      var one := LowerWhole(l, steps.first);
      WholeScoped(l, steps.first, around);
      StepsScoped(one.l, steps.rest, around);
      ConcatScoped(one.code, LowerSteps(one.l, steps.rest).code, around);
    }
  }

  lemma {:induction false} ForScoped(l: Lowering, first: Stmt, around: seq<Flattener.Around>)
    requires first.For? && l.scopes != [] && InLoopsOne(first, l.loops != []) && LoopIsAround(l, around)
    ensures WellScoped(LowerFor(l, first).code, around)
    decreases first, 0
  {
    hide LowerStmts, LowerRounds, EndScopes;
    HeadsInLoops(first.head, l.loops != []);
    var head := LowerStmts(OpenScope(l, false), first.head);
    var rounds := LowerRounds(head.l, first);
    var closed := CloseScope(rounds.l, false);
    StmtsScoped(OpenScope(l, false), first.head, around);
    RoundsScoped(head.l, first, around);
    EndScopesScoped(rounds.l, rounds.l.scopes, |rounds.l.scopes| - 1, around);
    ConcatScoped(rounds.code, closed.code, around);
    ConcatScoped(head.code, Concat(rounds.code, closed.code), around);
  }

  lemma {:induction false} RoundsScoped(l: Lowering, first: Stmt, around: seq<Flattener.Around>)
    requires first.For? && l.scopes != [] && InLoops(first.body, true)
    ensures WellScoped(LowerRounds(l, first).code, around)
    decreases first.body, 4
  {
    hide LowerTest, LowerBlock, LowerSteps;
    var loop := l.regions;
    var test := LowerTest(l.(regions := l.regions + 1), first.hasTest, first.test, loop);
    var block := test.l.regions;
    var begun := test.l.(regions := test.l.regions + 1, loops := l.loops + [LoopAround(loop, block, true, |l.scopes|)]);
    var body := LowerBlock(begun, first.body);
    var steps := LowerSteps(body.l.(loops := l.loops), first.steps);
    var inLoop := around + [Flattener.Around(loop, true)];
    var inBlock := inLoop + [Flattener.Around(block, false)];
    assert inLoop[|around|].region == loop && inBlock[|around|].region == loop && inBlock[|around| + 1].region == block;
    TestScoped(l.(regions := l.regions + 1), first.hasTest, first.test, loop, inLoop);
    BlockScoped(begun, first.body, inBlock);
    StepsScoped(body.l.(loops := l.loops), first.steps, inLoop);
    assert WellScoped(Block(block, body.code, HERE, steps.code), inLoop);
    ConcatScoped(test.code, Block(block, body.code, HERE, steps.code), inLoop);
    assert WellScoped(Loop(loop, NO_BOUND, Concat(test.code, Block(block, body.code, HERE, steps.code)), HERE, End), around);
  }

  lemma {:induction false} SlotsScoped(slots: seq<nat>)
    ensures WellScoped(SlotsCode(slots), [])
    decreases |slots|
  {
    if slots != [] {
      SlotsScoped(slots[1..]);
    }
  }

  lemma {:induction false} FlagsScoped(flags: seq<nat>)
    ensures WellScoped(FlagsCode(flags), [])
    decreases |flags|
  {
    if flags != [] {
      FlagsScoped(flags[..|flags| - 1]);
    }
  }

  lemma LoweredIsFlattenable(body: Stmts, givesBack: bool)
    requires IsFunction(body)
    ensures Flattenable(LowerFunction(body, givesBack))
  {
    hide LowerBlock, SlotsCode, FlagsCode;
    var lowered := LowerBlock(BEGUN, body);
    var last := Plain(Ret(0, HERE), End);
    BlockScoped(BEGUN, body, []);
    assert WellScoped(last, []);
    ConcatScoped(lowered.code, last, []);
    var all := if !Stops(lowered.code) && !givesBack then Concat(lowered.code, last) else lowered.code;
    SlotsScoped(lowered.l.slots);
    FlagsScoped(lowered.l.flags);
    ConcatScoped(FlagsCode(lowered.l.flags), all, []);
    ConcatScoped(SlotsCode(lowered.l.slots), Concat(FlagsCode(lowered.l.flags), all), []);
  }

  // ----- Every run -----

  function LoweredCfg(body: Stmts, givesBack: bool): Cfg
    requires IsFunction(body)
  {
    LoweredIsFlattenable(body, givesBack);
    Flatten(LowerFunction(body, givesBack))
  }

  /** A call in which nothing is built. */
  const NOTHING_BUILT: Machine := Machine(map[], map[], [])

  /** How a function's statements end: with their value, or off the end -- which is an end with
      no value if it gives none back. */
  ghost predicate Comes(ran: (Way, Trace), givesBack: bool, result: Result<Machine>) {
    match ran.0
    case GoesOn => (if givesBack then result.RanOff? else result.Left? && result.value == 0) && result.s.trace == ran.1
    case Returns(value) => result.Left? && result.value == value && result.s.trace == ran.1
    case _ => false
  }

  /** The CFG of a function's lowered code ends as its statements do: with their value, having
      called, built and destroyed what they do, in their order. */
  lemma EveryRunFollows(answers: Answers, body: Stmts, givesBack: bool, result: Result<Machine>) returns (fuel: nat)
    requires IsFunction(body)
    requires CfgEnds(Does(answers), LoweredCfg(body, givesBack), NOTHING_BUILT, result)
    ensures Comes(RunBlock(answers, body, [], fuel), givesBack, result)
  {
    hide Does, LowerFunction, RunBlock, Flatten, Exec, CfgEnds;
    var function_ := LowerFunction(body, givesBack);
    LoweredIsFlattenable(body, givesBack);
    FlattenPreserves(Does(answers), function_, NOTHING_BUILT, result);
    fuel :| ComesTo(Exec(Does(answers), function_.body, NOTHING_BUILT, fuel), result);
    FunctionRuns(answers, body, givesBack, NOTHING_BUILT, fuel);
  }

  ghost predicate NeverLeft(answers: Answers, body: Stmts) {
    forall fuel: nat :: RunBlock(answers, body, [], fuel).0 == Endless
  }

  /** And it runs for ever exactly when they do. */
  lemma EndlessTogether(answers: Answers, body: Stmts, givesBack: bool)
    requires IsFunction(body)
    ensures NeverLeft(answers, body) <==> RunsForEver(Does(answers), LoweredCfg(body, givesBack), NOTHING_BUILT)
  {
    hide Does, LowerFunction, RunBlock, Flatten, Exec, RunsForEver;
    var function_ := LowerFunction(body, givesBack);
    LoweredIsFlattenable(body, givesBack);
    FlattenPreservesDivergence(Does(answers), function_, NOTHING_BUILT);
    forall fuel: nat
      ensures RunBlock(answers, body, [], fuel).0 == Endless <==> Exec(Does(answers), function_.body, NOTHING_BUILT, fuel).Unfinished?
    {
      EndlessSoFar(answers, body, givesBack, fuel);
    }
  }

  lemma EndlessSoFar(answers: Answers, body: Stmts, givesBack: bool, fuel: nat)
    requires IsFunction(body)
    ensures RunBlock(answers, body, [], fuel).0 == Endless <==>
            Exec(Does(answers), LowerFunction(body, givesBack).body, NOTHING_BUILT, fuel).Unfinished?
  {
    hide Does, LowerFunction, RunBlock, Exec;
    FunctionRuns(answers, body, givesBack, NOTHING_BUILT, fuel);
  }

  /** So in a run that ends, everything built has been destroyed as often as it was built, and
      nothing more often than it was built, at any moment. */
  lemma EveryRunBalances(answers: Answers, body: Stmts, givesBack: bool, result: Result<Machine>)
    requires IsFunction(body)
    requires CfgEnds(Does(answers), LoweredCfg(body, givesBack), NOTHING_BUILT, result)
    ensures result.Left? || (givesBack && result.RanOff?)
    ensures Leaves(result.s.trace, multiset{})
  {
    hide Does, LoweredCfg, RunBlock, Leaves;
    var fuel := EveryRunFollows(answers, body, givesBack, result);
    NothingYet();
    BlockBalances(answers, body, [], fuel, multiset{});
  }

  lemma NothingYet()
    ensures Leaves([], multiset{})
  {
  }
}
