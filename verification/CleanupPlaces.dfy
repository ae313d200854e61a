/** Objects end where they were built.

    Here a call of a constructor or a destructor is told by the place it is given, too. At every
    moment of every run of a function's CFG, also of one that never ends, a place holds one object at
    most, and what is ended is the object that was built there last (`AlwaysInPlace`, and
    `PlacesApart.OccupiedFits`); a run that ends leaves no place with an object
    (`EveryPlaceIsLeft`), and without the places it is the statements' own (`UnplacedFollows`).
  */
module CleanupPlaces {
  import opened Ir
  import opened Interpreter
  import opened StructuredMeaning
  import opened Lowerer
  import opened LowererMeaning
  import opened Wrappers
  import opened CleanupMeaning
  import opened CleanupBalance
  import opened FlattenerMeaning
  import Flattener
  import opened HaardSource
  import opened CleanupTags
  import opened PlacesApart

  // ----- No two objects of a function are given one place -----

  lemma {:induction false} SitesMore(e: Expr, from: nat, to: nat, low: nat, high: nat)
    requires SitesOf(e, from, to) && low <= from && to <= high
    ensures SitesOf(e, low, high)
    decreases e
  {
    SitesGo(e, from, to);
    match e
    case Call(_) =>
    case Temporary(_) =>
    case Both(first, second) =>
      var middle: nat :| SitesOf(first, from, middle) && SitesOf(second, middle, to);
      SitesMore(first, from, middle, low, middle);
      SitesMore(second, middle, to, middle, high);
    case Logical(_, left, right) =>
      var middle: nat :| SitesOf(left, from, middle) && SitesOf(right, middle, to);
      SitesMore(left, from, middle, low, middle);
      SitesMore(right, middle, to, middle, high);
  }

  lemma {:induction false} StmtSitesMore(body: Stmts, from: nat, to: nat, high: nat)
    requires Sites(body, from, to) && to <= high
    ensures Sites(body, from, high)
    decreases body
  {
    if body.Then? {
      var middle: nat :| OneSites(body.first, from, middle) && Sites(body.rest, middle, to);
      StmtSitesMore(body.rest, middle, to, high);
    }
  }

  lemma {:induction false} StepSitesMore(steps: Exprs, from: nat, to: nat, high: nat)
    requires StepSites(steps, from, to) && to <= high
    ensures StepSites(steps, from, high)
    decreases steps
  {
    if steps.More? {
      var middle: nat :| SitesOf(steps.first, from, middle) && StepSites(steps.rest, middle, to);
      StepSitesMore(steps.rest, middle, to, high);
    }
  }

  lemma {:induction false} ExprSites(l: Lowering, e: Expr)
    requires l.scopes != []
    ensures SitesOf(PlacedExpr(l, e), l.next, LowerExpr(l, e).l.next)
    decreases e, 1
  {
    match e
    case Call(_) =>
    case Temporary(object_) => PartsOfTag(object_, l.next);
    case Both(first, second) =>
      ExprSites(l, first);
      ExprSites(LowerExpr(l, first).l, second);
    case Logical(_, _, _) => LogicalSites(l, e);
  }

  lemma {:induction false} LogicalSites(l: Lowering, e: Expr)
    requires l.scopes != [] && e.Logical?
    ensures SitesOf(PlacedExpr(l, e), l.next, LowerExpr(l, e).l.next)
    decreases e, 0
  {
    hide LowerExpr, SitesOf;
    LogicalUnfolds(l, e);
    var begun := WithSlot(l);
    var left := LowerExpr(begun, e.left).l;
    var tested := LogicalRight(left, e.isAnd);
    var right := LowerExpr(tested, e.right).l;
    ExprSites(begun, e.left);
    ExprSites(tested, e.right);
    SitesMore(PlacedExpr(begun, e.left), begun.next, left.next, l.next, left.next);
    SitesMore(PlacedExpr(tested, e.right), tested.next, right.next, left.next, right.next + 1);
    assert SitesOf(PlacedExpr(l, e), l.next, right.next + 1) by {
      BothSites(e.isAnd, PlacedExpr(begun, e.left), PlacedExpr(tested, e.right), l.next, left.next, right.next + 1);
    }
  }

  lemma BothSites(isAnd: bool, left: Expr, right: Expr, from: nat, middle: nat, to: nat)
    requires SitesOf(left, from, middle) && SitesOf(right, middle, to)
    ensures SitesOf(Logical(isAnd, left, right), from, to)
  {
  }

  lemma WholeSites(l: Lowering, e: Expr)
    ensures SitesOf(PlacedWhole(l, e), l.next, LowerWhole(l, e).l.next)
  {
    hide LowerExpr, SitesOf, PlacedExpr, CloseScope;
    var begun := OpenScope(l, true);
    ExprSites(begun, e);
    var given := LowerExpr(begun, e);
    SitesMore(PlacedExpr(begun, e), l.next, given.l.next, l.next, CloseScope(given.l, false).l.next);
  }

  lemma TestsSites(l: Lowering, hasTest: bool, test: Expr, loop: nat)
    ensures TestSites(hasTest, PlacedTest(l, hasTest, test), l.next, LowerTest(l, hasTest, test, loop).l.next)
  {
    hide LowerWhole, SitesOf, PlacedWhole;
    if hasTest {
      var whole := LowerWhole(l, test);
      WholeSites(l, test);
      SitesMore(PlacedWhole(l, test), l.next, whole.l.next, l.next, whole.l.next + 1);
    }
  }

  lemma {:induction false} StepsSites(l: Lowering, steps: Exprs)
    ensures StepSites(PlacedSteps(l, steps), l.next, LowerSteps(l, steps).l.next)
    decreases steps
  {
    hide LowerWhole, SitesOf, PlacedWhole;
    if steps.More? {
      WholeSites(l, steps.first);
      StepsSites(LowerWhole(l, steps.first).l, steps.rest);
    }
  }

  lemma {:induction false} StmtsSites(l: Lowering, body: Stmts)
    requires Lowerable(l, body)
    ensures Sites(PlacedStmts(l, body), l.next, LowerStmts(l, body).l.next)
    decreases body, 1
  {
    hide LowerOne, PlacedOne, OneSites;
    if body.Then? {
      var one := LowerOne(l, body.first);
      OnesSites(l, body.first);
      if Stops(one.code) {
        assert Sites(Nothing, one.l.next, one.l.next);
      } else {
        StmtsSites(one.l, body.rest);
      }
    }
  }

  lemma {:induction false} BlockSites(l: Lowering, body: Stmts)
    requires InLoops(body, l.loops != [])
    ensures Sites(PlacedBlock(l, body), l.next, LowerBlock(l, body).l.next)
    decreases body, 2
  {
    hide LowerStmts, PlacedStmts, Sites, CloseScope;
    var begun := OpenScope(l, false);
    StmtsSites(begun, body);
    StmtSitesMore(PlacedStmts(begun, body), l.next, LowerStmts(begun, body).l.next, LowerBlock(l, body).l.next);
  }

  lemma {:induction false} OnesSites(l: Lowering, s: Stmt)
    requires Lowerer.InBlock(l) && InLoopsOne(s, l.loops != [])
    ensures OneSites(PlacedOne(l, s), l.next, LowerOne(l, s).l.next)
    decreases s, 1
  {
    hide LowerWhole, LowerBlock, LowerIf, LowerWhile, LowerFor, LowerReturn, LowerLet, RunCleanups;
    hide PlacedWhole, PlacedBlock, PlacedIf, PlacedWhile, PlacedFor, PlacedTest, PlacedExpr, Sites, SitesOf;
    match s
    case Evaluate(given) => WholeSites(l, given);
    case Let(object_, given) => LetSites(l, object_, given);
    case BlockOf(body) => BlockSites(l, body);
    case IfElse(_, _, _, _) => IfSites(l, s);
    case While(_, _, _) => WhileSites(l, s);
    case For(_, _, _, _, _) => ForSites(l, s);
    case Return(hasValue, given) => ReturnSites(l, hasValue, given);
    case BreakLoop =>
    case ContinueLoop =>
  }

  lemma LetSites(l: Lowering, object_: nat, given: Expr)
    requires Lowerer.InBlock(l)
    ensures PlaceOf(TagOf(object_, l.next)) == l.next
    ensures SitesOf(PlacedExpr(OpenScope(WithSlot(l), true), given), l.next + 1, LowerLet(l, object_, given).l.next)
  {
    hide LowerExpr, SitesOf, PlacedExpr, LowerLet;
    var begun := OpenScope(WithSlot(l), true);
    PartsOfTag(object_, l.next);
    ExprSites(begun, given);
    LetNext(l, object_, given);
    SitesMore(PlacedExpr(begun, given), l.next + 1, LowerExpr(begun, given).l.next, l.next + 1, LowerLet(l, object_, given).l.next);
  }

  lemma LetNext(l: Lowering, object_: nat, given: Expr)
    requires Lowerer.InBlock(l)
    ensures LowerExpr(OpenScope(WithSlot(l), true), given).l.next <= LowerLet(l, object_, given).l.next
  {
    hide LowerExpr, AddCleanup, CloseScope, Later;
    var value := LowerExpr(OpenScope(WithSlot(l), true), given);
    LetRegisters(WithSlot(l), value.l, object_, l.next);
    var kept := AddCleanup(value.l, object_, l.next, true);
    NotBack(kept.l);
  }

  lemma NotBack(l: Lowering)
    requires l.scopes != []
    ensures l.next <= CloseScope(l, false).l.next
  {
  }

  lemma ReturnSites(l: Lowering, hasValue: bool, given: Expr)
    ensures TestSites(hasValue, PlacedTest(l, hasValue, given), l.next, LowerReturn(l, hasValue, given).l.next)
  {
    hide LowerExpr, SitesOf, PlacedExpr, RunCleanups;
    if hasValue {
      var begun := OpenScope(l, true);
      ExprSites(begun, given);
      SitesMore(PlacedExpr(begun, given), l.next, LowerExpr(begun, given).l.next, l.next, LowerReturn(l, hasValue, given).l.next);
    }
  }

  lemma {:induction false} IfSites(l: Lowering, s: Stmt)
    requires s.IfElse? && l.scopes != [] && InLoopsOne(s, l.loops != [])
    ensures OneSites(PlacedIf(l, s), l.next, LowerIf(l, s).l.next)
    decreases s, 0
  {
    hide LowerWhole, LowerBlock, PlacedWhole, PlacedBlock, Sites, SitesOf;
    var test := LowerWhole(l, s.test);
    WholeSites(l, s.test);
    var inside := test.l.(regions := test.l.regions + 1);
    BlockSites(inside, s.chosen);
    var chosen := LowerBlock(inside, s.chosen);
    if s.hasElse {
      BlockSites(chosen.l, s.otherwise);
    }
  }

  lemma {:induction false} WhileSites(l: Lowering, s: Stmt)
    requires s.While? && l.scopes != [] && InLoopsOne(s, l.loops != [])
    ensures OneSites(PlacedWhile(l, s), l.next, LowerWhile(l, s).l.next)
    decreases s, 0
  {
    hide LowerTest, LowerBlock, PlacedTest, PlacedBlock, Sites, TestSites;
    var loop, begun := l.regions, l.(regions := l.regions + 1);
    TestsSites(begun, s.hasTest, s.test, loop);
    var test := LowerTest(begun, s.hasTest, s.test, loop);
    BlockSites(test.l.(loops := l.loops + [LoopAround(loop, loop, false, |l.scopes|)]), s.body);
  }

  lemma {:induction false} RoundsSites(l: Lowering, s: Stmt, head: Stmts, from: nat, high: nat)
    requires s.For? && l.scopes != [] && InLoops(s.body, true) && Heads(head)
    requires Sites(head, from, l.next) && LowerRounds(l, s).l.next <= high
    ensures OneSites(PlacedRounds(l, s, head), from, high)
    decreases s.body, 3
  {
    hide LowerTest, LowerBlock, LowerSteps, PlacedTest, PlacedBlock, PlacedSteps, Sites, TestSites, StepSites;
    var loop, begun := l.regions, l.(regions := l.regions + 1);
    TestsSites(begun, s.hasTest, s.test, loop);
    var test := LowerTest(begun, s.hasTest, s.test, loop);
    var block := test.l.regions;
    var inside := test.l.(regions := test.l.regions + 1, loops := l.loops + [LoopAround(loop, block, true, |l.scopes|)]);
    BlockSites(inside, s.body);
    var after := LowerBlock(inside, s.body).l.(loops := l.loops);
    StepsSites(after, s.steps);
    StepSitesMore(PlacedSteps(after, s.steps), after.next, LowerSteps(after, s.steps).l.next, high);
  }

  lemma {:induction false} ForSites(l: Lowering, s: Stmt)
    requires s.For? && l.scopes != [] && InLoopsOne(s, l.loops != [])
    ensures OneSites(PlacedFor(l, s), l.next, LowerFor(l, s).l.next)
    decreases s, 0
  {
    hide LowerStmts, LowerRounds, PlacedStmts, PlacedRounds, Sites, OneSites;
    HeadsInLoops(s.head, l.loops != []);
    var begun := OpenScope(l, false);
    StmtsSites(begun, s.head);
    var head := LowerStmts(begun, s.head);
    RoundsSites(head.l, s, PlacedStmts(begun, s.head), l.next, LowerFor(l, s).l.next);
  }

  lemma FunctionSites(body: Stmts)
    requires IsFunction(body)
    ensures Sites(PlacedFunction(body), 1, LowerBlock(BEGUN, body).l.next)
  {
    BlockSites(BEGUN, body);
  }

  // ----- Events with places -----

  /** What an instruction does, with what its call is given first: the object built, ended or asked
      for is told by its own number and by that place. */
  function DidAt(answers: Answers, inst: Inst, s: Machine): Machine
    requires inst.Compute?
  {
    match inst.opcode
    case Call =>
      if inst.operands == [] then
        s.(values := s.values[inst.result := answers(Answer(inst.extra), s.trace)], trace := s.trace + [Called(inst.extra)])
      else
        var tag := TagOf(inst.extra / 2, inst.operands[0]);
        s.(trace := s.trace + [if inst.extra % 2 == CONSTRUCTOR then Built(tag) else Destroyed(tag)])
    case Addr => s.(values := s.values[inst.result := answers(Address(TagOf(inst.extra, PlaceIn(inst))), s.trace)])
    case _ => Did(answers, inst, s)
  }

  function DoesAt(answers: Answers): Meaning<Machine> {
    Meaning(
      (inst: Inst, s: Machine) => Next(if inst.Compute? then DidAt(answers, inst, s) else s),
      (value: nat, s: Machine) => Held(s.values, value),
      (parameters: seq<nat>, arguments: seq<nat>, s: Machine) => s)
  }

  lemma DidRecoded(answers: Answers, inst: Inst, s: Machine)
    requires inst.Compute?
    ensures Recoded(TagOf, inst).Compute? && DidAt(answers, inst, s) == Did(answers, Recoded(TagOf, inst), s)
  {
    hide TagOf;
    if inst.opcode.Call? && inst.operands != [] {
      var tag := TagOf(inst.extra / 2, inst.operands[0]);
      assert (2 * tag + inst.extra % 2) / 2 == tag && (2 * tag + inst.extra % 2) % 2 == inst.extra % 2;
    }
  }

  /** So a list does what it would do if its calls named their places. */
  lemma {:induction false} ExecRecoded(answers: Answers, code: Code, s: Machine, fuel: nat)
    ensures Exec(DoesAt(answers), code, s, fuel) == Exec(Does(answers), Recode(TagOf, code), s, fuel)
    decreases fuel, code, 2
  {
    hide DoesAt, Does, Recoded;
    if code != End {
      HeadRecoded(answers, code, s, fuel);
      var head := ExecHead(DoesAt(answers), code, s, fuel);
      if head.Fall? {
        ExecRecoded(answers, code.next, head.s, fuel);
      }
    }
  }

  lemma PlainDoes(answers: Answers, inst: Inst, s: Machine)
    requires IsCommon(inst)
    ensures IsCommon(Recoded(TagOf, inst)) && Perform(DoesAt(answers), inst, s) == Perform(Does(answers), Recoded(TagOf, inst), s)
  {
    hide TagOf;
    if inst.Compute? {
      DidRecoded(answers, inst, s);
    }
  }

  lemma SameValues(answers: Answers, value: nat, s: Machine)
    ensures DoesAt(answers).value(value, s) == Does(answers).value(value, s)
  {
  }

  lemma {:induction false} HeadRecoded(answers: Answers, code: Code, s: Machine, fuel: nat)
    requires code != End
    ensures Recode(TagOf, code) != End
    ensures ExecHead(DoesAt(answers), code, s, fuel) == ExecHead(Does(answers), Recode(TagOf, code), s, fuel)
    decreases fuel, code, 1
  {
    hide DoesAt, Does, Recoded, Exec, ExecLoop;
    match code
    case Plain(inst, _) =>
      if IsCommon(inst) {
        PlainDoes(answers, inst, s);
      } else {
        assert !IsCommon(Recoded(TagOf, inst)) by { NotCommon(inst); }
      }
    case Block(_, body, _, _) => ExecRecoded(answers, body, s, fuel);
    case If(_, condition, chosen, hasElse, otherwise, _, _) =>
      SameValues(answers, condition, s);
      ExecRecoded(answers, chosen, s, fuel);
      ExecRecoded(answers, otherwise, s, fuel);
    case Loop(region, bound, body, _, _) => LoopAlike(answers, region, bound, body, 0, s, fuel);
    case Break(_, _, _) =>
    case Continue(_, _, _) =>
  }

  lemma NotCommon(inst: Inst)
    requires !IsCommon(inst)
    ensures Recoded(TagOf, inst) == inst
  {
  }

  lemma {:induction false} LoopAlike(answers: Answers, region: nat, bound: U32, body: Code, turns: nat, s: Machine, fuel: nat)
    ensures ExecLoop(DoesAt(answers), region, bound, body, turns, s, fuel)
         == ExecLoop(Does(answers), region, bound, Recode(TagOf, body), turns, s, fuel)
    decreases fuel, body, 3
  {
    hide DoesAt, Does, Recode, Exec;
    ExecRecoded(answers, body, s, fuel);
    var once := Exec(DoesAt(answers), body, s, fuel);
    if GoesRound(region, once) && fuel != 0 {
      LoopAlike(answers, region, bound, body, turns + 1, once.s, fuel - 1);
    }
  }

  /** Running cleanups ends each object that is there in its place, the last registered first, and
      clears the flags. */
  lemma EndAllInPlace(answers: Answers, l: Lowering, cleanups: seq<Cleanup>, s: Machine, fuel: nat) returns (t: Machine)
    requires Flagged(cleanups, l.next)
    ensures Exec(DoesAt(answers), EndAll(l, cleanups).code, s, fuel) == Fall(t)
    ensures t.trace == s.trace + LastFirst(LiveOf(TagAll(cleanups), s.memory))
    ensures SameBelow(s.values, t.values, l.next) && Clears(s, t, cleanups)
  {
    hide Exec, Does, DoesAt, EndAll, TagOf, LiveOf, LastFirst, SameBelow;
    var tagged := TagAll(cleanups);
    ExecRecoded(answers, EndAll(l, cleanups).code, s, fuel);
    EndAllTags(l, cleanups);
    TagsRest(l);
    t := EndAllRuns(answers, Tag(l), tagged, s, fuel);
    forall k | k >= 0
      ensures HasFlag(tagged, k) == HasFlag(cleanups, k)
    {
      if HasFlag(cleanups, k) {
        var i :| 0 <= i < |cleanups| && cleanups[i].flag == k;
        assert tagged[i].flag == k;
      }
    }
  }

  // ----- Every run -----

  /** The code comes to what the statements whose objects are told by their places come to. */
  lemma PlacedRuns(answers: Answers, body: Stmts, givesBack: bool, fuel: nat)
    requires IsFunction(body)
    ensures FunctionFollows(RunBlock(answers, PlacedFunction(body), [], fuel), givesBack,
                            Exec(DoesAt(answers), LowerFunction(body, givesBack).body, NOTHING_BUILT, fuel))
  {
    hide Does, DoesAt, Exec, RunBlock, LowerFunction, PlacedFunction, Recode;
    FunctionIsTagged(body, givesBack);
    ExecRecoded(answers, LowerFunction(body, givesBack).body, NOTHING_BUILT, fuel);
    FunctionRuns(answers, PlacedFunction(body), givesBack, NOTHING_BUILT, fuel);
  }

  /** And those leave no place with an object, and no place ever has two. */
  lemma PlacedEnds(answers: Answers, body: Stmts, fuel: nat)
    requires IsFunction(body)
    ensures Occupied(RunBlock(answers, PlacedFunction(body), [], fuel).1) == Some(map[])
  {
    hide RunBlock, PlacedFunction, Sites, LowerBlock, Occupied;
    FunctionSites(body);
    NoneThere();
    BlockKeepsPlaces(answers, PlacedFunction(body), [], fuel, {}, 1, LowerBlock(BEGUN, body).l.next);
    NoneLeft(RunBlock(answers, PlacedFunction(body), [], fuel).1, {});
  }

  lemma NoneThere()
    ensures Lives([], {})
  {
  }

  lemma NoneLeft(trace: Trace, live: set<nat>)
    requires Lives(trace, live) && live == {}
    ensures Occupied(trace) == Some(map[])
  {
    hide Occupied;
    var here := Occupied(trace).value;
    forall place: nat
      ensures place !in here
    {
      var there := if place in here then here[place] else 0;
      PartsOfTag(there, place);
      assert TagOf(there, place) !in live;
    }
  }

  // ----- Every moment -----

  /** As `DoesAt`, but stopping where an event is out of place. */
  function Guards(answers: Answers): Meaning<Machine> {
    DoesAt(answers).(compute := (inst: Inst, s: Machine) =>
      if !inst.Compute? then Next(s)
      else if Occupied(DidAt(answers, inst, s).trace).Some? then Next(DidAt(answers, inst, s)) else Stop(DidAt(answers, inst, s)))
  }

  function StateOf(o: Outcome<Machine>): Machine {
    match o
    case Fall(s) => s
    case Broke(_, s) => s
    case Continued(_, s) => s
    case Ended(result) => result.s
    case Unfinished(s) => s
  }

  ghost predicate InPlace(trace: Trace) {
    Occupied(trace).Some?
  }

  lemma {:induction false} InPlaceBefore(trace: Trace, later: Trace)
    requires trace <= later && InPlace(later)
    ensures InPlace(trace)
    decreases |later|
  {
    if trace != later {
      var before := later[..|later| - 1];
      assert trace <= before;
      InPlaceBefore(trace, before);
    }
  }

  lemma DidMore(answers: Answers, inst: Inst, s: Machine)
    requires inst.Compute?
    ensures s.trace <= DidAt(answers, inst, s).trace
  {
  }

  /** What one meaning and the other come to, at the same fuel: the same, if what came is in place. */
  ghost predicate Guarded(trace: Trace, o: Outcome<Machine>, guarded: Outcome<Machine>) {
    trace <= StateOf(o).trace && (InPlace(StateOf(o).trace) ==> guarded == o)
  }

  lemma PlainGuarded(answers: Answers, inst: Inst, s: Machine)
    requires IsCommon(inst)
    ensures var one := Perform(DoesAt(answers), inst, s);
            s.trace <= (if one.Goes? then one.s else one.result.s).trace
            && (InPlace((if one.Goes? then one.s else one.result.s).trace) ==> Perform(Guards(answers), inst, s) == one)
  {
    hide DidAt, Occupied;
    if inst.Compute? {
      DidMore(answers, inst, s);
    }
  }

  lemma SameWatched(answers: Answers, value: nat, s: Machine)
    ensures Guards(answers).value(value, s) == DoesAt(answers).value(value, s)
  {
  }

  lemma GuardedThrough(trace: Trace, first: Machine, o: Outcome<Machine>)
    requires trace <= first.trace <= StateOf(o).trace && InPlace(StateOf(o).trace)
    ensures trace <= StateOf(o).trace && InPlace(first.trace)
  {
    InPlaceBefore(first.trace, StateOf(o).trace);
  }

  lemma {:induction false} ExecGuarded(answers: Answers, code: Code, s: Machine, fuel: nat)
    ensures Guarded(s.trace, Exec(DoesAt(answers), code, s, fuel), Exec(Guards(answers), code, s, fuel))
    decreases fuel, code, 2
  {
    hide DoesAt, Guards, InPlace;
    if code != End {
      HeadGuarded(answers, code, s, fuel);
      var head := ExecHead(DoesAt(answers), code, s, fuel);
      if head.Fall? {
        ExecGuarded(answers, code.next, head.s, fuel);
        var o := Exec(DoesAt(answers), code.next, head.s, fuel);
        if InPlace(StateOf(o).trace) {
          GuardedThrough(s.trace, head.s, o);
        }
      }
    }
  }

  lemma {:induction false} HeadGuarded(answers: Answers, code: Code, s: Machine, fuel: nat)
    requires code != End
    ensures Guarded(s.trace, ExecHead(DoesAt(answers), code, s, fuel), ExecHead(Guards(answers), code, s, fuel))
    decreases fuel, code, 1
  {
    hide DoesAt, Guards, InPlace, Exec, ExecLoop;
    match code
    case Plain(inst, _) =>
      if IsCommon(inst) {
        PlainGuarded(answers, inst, s);
      }
    case Block(_, body, _, _) => ExecGuarded(answers, body, s, fuel);
    case If(_, condition, chosen, hasElse, otherwise, _, _) =>
      SameWatched(answers, condition, s);
      ExecGuarded(answers, chosen, s, fuel);
      ExecGuarded(answers, otherwise, s, fuel);
    case Loop(region, bound, body, _, _) => LoopGuarded(answers, region, bound, body, 0, s, fuel);
    case Break(_, _, _) =>
    case Continue(_, _, _) =>
  }

  lemma {:induction false} LoopGuarded(answers: Answers, region: nat, bound: U32, body: Code, turns: nat, s: Machine, fuel: nat)
    ensures Guarded(s.trace, ExecLoop(DoesAt(answers), region, bound, body, turns, s, fuel),
                    ExecLoop(Guards(answers), region, bound, body, turns, s, fuel))
    decreases fuel, body, 3
  {
    hide DoesAt, Guards, InPlace, Exec;
    ExecGuarded(answers, body, s, fuel);
    var once := Exec(DoesAt(answers), body, s, fuel);
    if GoesRound(region, once) && fuel != 0 {
      LoopGuarded(answers, region, bound, body, turns + 1, once.s, fuel - 1);
      var o := ExecLoop(DoesAt(answers), region, bound, body, turns + 1, once.s, fuel - 1);
      if InPlace(StateOf(o).trace) {
        GuardedThrough(s.trace, once.s, o);
      }
    }
  }

  function StateAt(c: Config<Machine>): Machine {
    match c
    case At(_, _, s, _) => s
    case Done(result) => result.s
  }

  ghost predicate OutOfPlace(c: Config<Machine>) {
    c.Done? && c.result.Halted? && !InPlace(c.result.s.trace)
  }

  lemma StepGuarded(answers: Answers, blocks: seq<BasicBlock>, c: Config<Machine>)
    requires InPlace(StateAt(c).trace)
    ensures var (one, guarded) := (Step(DoesAt(answers), blocks, c), Step(Guards(answers), blocks, c));
            if InPlace(StateAt(one).trace) then guarded == one else OutOfPlace(guarded)
  {
    hide DidAt, Occupied, LoopsAround;
  }

  lemma {:induction false} StepsGuarded(answers: Answers, blocks: seq<BasicBlock>, c: Config<Machine>, n: nat)
    requires InPlace(StateAt(c).trace) && !InPlace(StateAt(Steps(DoesAt(answers), blocks, c, n)).trace)
    ensures OutOfPlace(Steps(Guards(answers), blocks, c, n))
    decreases n
  {
    hide DoesAt, Guards, InPlace, Step;
    if n != 0 {
      var one, guarded := Step(DoesAt(answers), blocks, c), Step(Guards(answers), blocks, c);
      StepGuarded(answers, blocks, c);
      if InPlace(StateAt(one).trace) {
        StepsGuarded(answers, blocks, one, n - 1);
      } else {
        DoneStays(Guards(answers), blocks, guarded, n - 1);
      }
    }
  }

  /** At every moment of every run of a function's CFG, those that never end among them, an object
      is ended where it was built, having been ended in no other way, and no place has two. */
  lemma AlwaysInPlace(answers: Answers, body: Stmts, givesBack: bool, n: nat)
    requires IsFunction(body)
    ensures var cfg := LoweredCfg(body, givesBack);
            InPlace(StateAt(Steps(DoesAt(answers), cfg.blocks, Start(cfg.body, NOTHING_BUILT), n)).trace)
  {
    hide DoesAt, Guards, LowerFunction, Flattener.Flatten, PlacedFunction, Steps, Exec, RunBlock;
    var function_ := LowerFunction(body, givesBack);
    var cfg, code, m := LoweredCfg(body, givesBack), function_.body, Guards(answers);
    var start: Config<Machine> := Start(cfg.body, NOTHING_BUILT);
    if !InPlace(StateAt(Steps(DoesAt(answers), cfg.blocks, start, n)).trace) {
      StepsGuarded(answers, cfg.blocks, start, n);
      var result := Steps(m, cfg.blocks, start, n).result;
      LoweredIsFlattenable(body, givesBack);
      assert CfgEnds(m, cfg, NOTHING_BUILT, result);
      FlattenPreserves(m, function_, NOTHING_BUILT, result);
      var fuel: nat :| ComesTo(Exec(m, code, NOTHING_BUILT, fuel), result);
      NeverOutOfPlace(answers, body, givesBack, fuel);
    }
  }

  lemma NeverOutOfPlace(answers: Answers, body: Stmts, givesBack: bool, fuel: nat)
    requires IsFunction(body)
    ensures var o := Exec(Guards(answers), LowerFunction(body, givesBack).body, NOTHING_BUILT, fuel);
            !(o.Ended? && o.result.Halted?)
  {
    hide DoesAt, Guards, LowerFunction, PlacedFunction, Exec, RunBlock, Occupied;
    var code := LowerFunction(body, givesBack).body;
    PlacedRuns(answers, body, givesBack, fuel);
    PlacedEnds(answers, body, fuel);
    ExecGuarded(answers, code, NOTHING_BUILT, fuel);
    var o := Exec(DoesAt(answers), code, NOTHING_BUILT, fuel);
    InPlaceBefore(StateOf(o).trace, RunBlock(answers, PlacedFunction(body), [], fuel).1);
  }

  /** A run that ends leaves no place with an object, and comes to what the statements do. */
  lemma EveryPlaceIsLeft(answers: Answers, body: Stmts, givesBack: bool, result: Result<Machine>) returns (fuel: nat)
    requires IsFunction(body)
    requires CfgEnds(DoesAt(answers), LoweredCfg(body, givesBack), NOTHING_BUILT, result)
    ensures Occupied(result.s.trace) == Some(map[])
    ensures Comes(RunBlock(answers, PlacedFunction(body), [], fuel), givesBack, result)
  {
    hide DoesAt, LowerFunction, PlacedFunction, RunBlock, Flattener.Flatten, Exec, CfgEnds, Occupied;
    var function_ := LowerFunction(body, givesBack);
    LoweredIsFlattenable(body, givesBack);
    FlattenPreserves(DoesAt(answers), function_, NOTHING_BUILT, result);
    fuel :| ComesTo(Exec(DoesAt(answers), function_.body, NOTHING_BUILT, fuel), result);
    PlacedRuns(answers, body, givesBack, fuel);
    PlacedEnds(answers, body, fuel);
  }

  /** And one that never ends is one of statements that never end. */
  lemma PlacedEndlessTogether(answers: Answers, body: Stmts, givesBack: bool)
    requires IsFunction(body)
    ensures NeverLeft(answers, PlacedFunction(body)) <==> RunsForEver(DoesAt(answers), LoweredCfg(body, givesBack), NOTHING_BUILT)
  {
    hide DoesAt, LowerFunction, PlacedFunction, RunBlock, Flattener.Flatten, Exec, RunsForEver;
    var function_ := LowerFunction(body, givesBack);
    LoweredIsFlattenable(body, givesBack);
    FlattenPreservesDivergence(DoesAt(answers), function_, NOTHING_BUILT);
    forall fuel: nat
      ensures RunBlock(answers, PlacedFunction(body), [], fuel).0 == Endless <==> Exec(DoesAt(answers), function_.body, NOTHING_BUILT, fuel).Unfinished?
    {
      PlacedRuns(answers, body, givesBack, fuel);
    }
  }

  // ----- Without their places -----

  function Unplaced(event: Event): Event {
    match event
    case Called(_) => event
    case Built(tag) => Built(ObjectOf(tag))
    case Destroyed(tag) => Destroyed(ObjectOf(tag))
  }

  function UnplacedTrace(trace: Trace): Trace {
    seq(|trace|, i requires 0 <= i < |trace| => Unplaced(trace[i]))
  }

  function UnplacedMachine(s: Machine): Machine {
    s.(trace := UnplacedTrace(s.trace))
  }

  function UnplacedConfig(c: Config<Machine>): Config<Machine> {
    match c
    case At(block, index, s, turns) => At(block, index, UnplacedMachine(s), turns)
    case Done(result) => Done(UnplacedResult(result))
  }

  function UnplacedResult(result: Result<Machine>): Result<Machine> {
    match result
    case Left(value, s) => Left(value, UnplacedMachine(s))
    case Halted(inst, s) => Halted(inst, UnplacedMachine(s))
    case Exceeded(bound, s) => Exceeded(bound, UnplacedMachine(s))
    case RanOff(s) => RanOff(UnplacedMachine(s))
    case CannotRun(inst, s) => CannotRun(inst, UnplacedMachine(s))
  }

  /** Answers of a program that does not see where objects are. */
  function Unseeing(answers: Answers): Answers {
    (asked: Asked, trace: Trace) =>
      answers(match asked case Answer(_) => asked case Address(tag) => Address(ObjectOf(tag)), UnplacedTrace(trace))
  }

  lemma UnplacedMore(trace: Trace, event: Event)
    ensures UnplacedTrace(trace + [event]) == UnplacedTrace(trace) + [Unplaced(event)]
  {
  }

  lemma DidUnplaced(answers: Answers, inst: Inst, s: Machine)
    requires inst.Compute?
    ensures UnplacedMachine(DidAt(Unseeing(answers), inst, s)) == Did(answers, inst, UnplacedMachine(s))
  {
    hide TagOf, UnplacedTrace;
    match inst.opcode
    case Call =>
      if inst.operands == [] {
        UnplacedMore(s.trace, Called(inst.extra));
      } else {
        PartsOfTag(inst.extra / 2, inst.operands[0]);
        var tag := TagOf(inst.extra / 2, inst.operands[0]);
        UnplacedMore(s.trace, if inst.extra % 2 == CONSTRUCTOR then Built(tag) else Destroyed(tag));
      }
    case Addr => PartsOfTag(inst.extra, PlaceIn(inst));
    case _ =>
  }

  lemma StepUnplaced(answers: Answers, blocks: seq<BasicBlock>, c: Config<Machine>)
    ensures UnplacedConfig(Step(DoesAt(Unseeing(answers)), blocks, c)) == Step(Does(answers), blocks, UnplacedConfig(c))
  {
    hide DidAt, Did, UnplacedTrace, LoopsAround;
    if c.At? && c.block < |blocks| && c.index < |blocks[c.block].insts| && blocks[c.block].insts[c.index].Compute? {
      DidUnplaced(answers, blocks[c.block].insts[c.index], c.s);
    }
  }

  lemma {:induction false} StepsUnplaced(answers: Answers, blocks: seq<BasicBlock>, c: Config<Machine>, n: nat)
    ensures UnplacedConfig(Steps(DoesAt(Unseeing(answers)), blocks, c, n)) == Steps(Does(answers), blocks, UnplacedConfig(c), n)
    decreases n
  {
    hide DoesAt, Does, Step, UnplacedConfig;
    if n != 0 {
      StepUnplaced(answers, blocks, c);
      StepsUnplaced(answers, blocks, Step(DoesAt(Unseeing(answers)), blocks, c), n - 1);
    }
  }

  /** Where the places make no difference to the program around it, a function's CFG calls, builds and
      ends what its own statements do, in their order, and ends with their value. */
  lemma UnplacedFollows(answers: Answers, body: Stmts, givesBack: bool, result: Result<Machine>) returns (fuel: nat)
    requires IsFunction(body)
    requires CfgEnds(DoesAt(Unseeing(answers)), LoweredCfg(body, givesBack), NOTHING_BUILT, result)
    ensures Comes(RunBlock(answers, body, [], fuel), givesBack, UnplacedResult(result))
  {
    hide Does, DoesAt, LowerFunction, RunBlock, Flattener.Flatten, Steps, UnplacedResult;
    var cfg := LoweredCfg(body, givesBack);
    var start: Config<Machine> := Start(cfg.body, NOTHING_BUILT);
    var n: nat :| Steps(DoesAt(Unseeing(answers)), cfg.blocks, start, n) == Done(result);
    StepsUnplaced(answers, cfg.blocks, start, n);
    assert UnplacedTrace([]) == [];
    assert CfgEnds(Does(answers), cfg, NOTHING_BUILT, UnplacedResult(result));
    fuel := EveryRunFollows(answers, body, givesBack, UnplacedResult(result));
  }
}
