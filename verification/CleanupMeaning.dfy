/** Every scope's cleanups run, in the right order, however the scope is left. */
module CleanupMeaning {
  import opened Ir
  import opened Interpreter
  import opened StructuredMeaning
  import opened Lowerer
  import opened LowererMeaning
  import opened HaardSource

  /** Every flag there will be is clear. */
  ghost predicate AllClear(flags: seq<nat>, s: Machine) {
    forall flag <- flags :: Held(s.memory, flag) == 0
  }

  /** The flags asked for so far are the first ones, and the rest are asked for later. */
  ghost predicate FlagsFit(l: Lowering, flags: seq<nat>) {
    && l.flags <= flags
    && (forall i {:trigger flags[i]} :: 0 <= i < |l.flags| ==> flags[i] < l.next)
    && (forall i {:trigger flags[i]} :: |l.flags| <= i < |flags| ==> l.next <= flags[i])
  }

  /** Numbers given later, so the flags before fit too. */
  lemma FitBefore(l: Lowering, later: Lowering, flags: seq<nat>)
    requires Later(l, later) && FlagsFit(later, flags) && FlagsBelow(l)
    ensures FlagsFit(l, flags)
  {
    assert forall i :: 0 <= i < |l.flags| ==> l.flags[i] in l.flags;
    assert forall i :: 0 <= i < |later.flags| ==> flags[i] == later.flags[i];
    assert forall i :: 0 <= i < |l.flags| ==> later.flags[i] == l.flags[i];
  }

  predicate FlagsBelow(l: Lowering) {
    forall flag <- l.flags :: flag < l.next
  }

  lemma StillBelow(l: Lowering, later: Lowering)
    requires FlagsBelow(l) && Later(l, later)
    ensures FlagsBelow(later)
  {
    forall flag | flag in later.flags
      ensures flag < later.next
    {
      var i :| 0 <= i < |later.flags| && later.flags[i] == flag;
      if i < |l.flags| {
        assert l.flags[i] == flag && flag in l.flags;
      }
    }
  }

  /** The flags an expression asks for are clear. */
  lemma ClearIsUnset(l: Lowering, later: Lowering, more: seq<Cleanup>, flags: seq<nat>, s: Machine)
    requires l.scopes != [] && later.scopes != [] && Registers(l, later, more) && later.flags <= flags && AllClear(flags, s)
    ensures Unset(more, s.memory)
  {
    forall i | 0 <= i < |more|
      ensures Held(s.memory, more[i].flag) == 0 || more[i].flag == 0
    {
      if more[i].flag != 0 {
        assert HasFlag(more, more[i].flag);
        FlagsOfHas(more, more[i].flag);
        assert more[i].flag in later.flags;
      }
    }
  }

  lemma NotBefore(l: Lowering, later: Lowering, more: seq<Cleanup>, i: nat)
    requires FlagsBelow(l) && later.flags == l.flags + FlagsOf(more) && i < |later.flags| && l.next <= later.flags[i]
    ensures later.flags[i] in FlagsOf(more)
  {
    assert later.flags[i] in l.flags + FlagsOf(more);
  }

  /** Once its statement has ended what it registered, every flag is clear again. */
  lemma ClearAgain(l: Lowering, later: Lowering, more: seq<Cleanup>, flags: seq<nat>, s: Machine, u: Machine, t: Machine)
    requires l.scopes != [] && later.scopes != [] && Registers(l, later, more) && FlagsFit(later, flags) && FlagsBelow(l)
    requires AllClear(flags, s) && Touches(s, u, l.next, later.next) && Clears(u, t, more)
    ensures AllClear(flags, t)
  {
    forall flag | flag in flags
      ensures Held(t.memory, flag) == 0
    {
      assert Held(t.memory, flag) == if HasFlag(more, flag) then 0 else Held(u.memory, flag);
      if l.next <= flag < later.next {
        var i :| 0 <= i < |flags| && flags[i] == flag;
        assert i < |later.flags| && later.flags[i] == flag;
        NotBefore(l, later, more, i);
        FlagsOfHas(more, flag);
      } else {
        assert Held(u.memory, flag) == Held(s.memory, flag);
      }
    }
  }

  /** A scope of its own, whose temporaries end with it. */
  lemma WholeRuns(answers: Answers, l: Lowering, e: Expr, s: Machine, fuel: nat, flags: seq<nat>) returns (t: Machine)
    requires 0 < l.next && FlagsBelow(l) && FlagsFit(LowerWhole(l, e).l, flags) && AllClear(flags, s)
    ensures Exec(Does(answers), LowerWhole(l, e).code, s, fuel) == Fall(t)
    ensures var p := LowerWhole(l, e);
            && t.trace == EvalWhole(answers, e, s.trace).1 && Held(t.values, p.value) == EvalWhole(answers, e, s.trace).0
            && p.value < p.l.next && AllClear(flags, t)
  {
    hide Exec, Does, LowerExpr, Registers, Given, FlagsOf, EndAll, Touches;
    var begun := OpenScope(l, true);
    var given := LowerExpr(begun, e);
    var more := ExprRegisters(begun, e);
    RegistersTail(begun, given.l, more);
    assert FlagsFit(given.l, flags) by { FitClosed(l, given.l, LowerWhole(l, e).l, flags); }
    ClearIsUnset(begun, given.l, more, flags, s);
    var u := ExprRuns(answers, begun, e, more, s, fuel);
    t := ScopeEnds(answers, begun, given.l, more, s, u, fuel, flags);
    ExecConcat(Does(answers), given.code, CloseScope(given.l, false).code, s, fuel);
  }

  lemma FitClosed(l: Lowering, inside: Lowering, closed: Lowering, flags: seq<nat>)
    requires FlagsBelow(l) && Later(l, inside) && Later(inside, closed) && FlagsFit(closed, flags)
    ensures FlagsFit(inside, flags) && FlagsBelow(inside)
  {
    StillBelow(l, inside);
    FitBefore(inside, closed, flags);
  }

  lemma RegistersTail(l: Lowering, later: Lowering, more: seq<Cleanup>)
    requires l.scopes != [] && later.scopes != [] && Registers(l, later, more) && Cleanups(l) == [] && 0 < l.next
    ensures Cleanups(later) == more && Flagged(more, later.next)
  {
    assert [] + more == more;
    forall i | 0 <= i < |more|
      ensures more[i].flag < later.next || more[i].flag == 0
    {
    }
  }

  /** Closing the scope of a statement that registered `more` between `l` and `later`. */
  lemma ScopeEnds(answers: Answers, l: Lowering, later: Lowering, more: seq<Cleanup>, s: Machine, u: Machine, fuel: nat, flags: seq<nat>)
      returns (t: Machine)
    requires l.scopes != [] && later.scopes != [] && Registers(l, later, more) && Cleanups(later) == more && 0 < l.next
    requires Flagged(more, later.next) && FlagsFit(later, flags) && FlagsBelow(l) && AllClear(flags, s)
    requires Touches(s, u, l.next, later.next)
    ensures Exec(Does(answers), CloseScope(later, false).code, u, fuel) == Fall(t)
    ensures t.trace == u.trace + LastFirst(LiveOf(more, u.memory)) && AllClear(flags, t)
    ensures SameBelow(u.values, t.values, later.next)
  {
    hide Exec, Does, Registers, EndAll, LiveOf, Clears, Touches;
    var n := |later.scopes| - 1;
    var inner := EndAll(later, more);
    t := EndAllRuns(answers, later, more, u, fuel);
    ClearAgain(l, later, more, flags, s, u, t);
    assert EndScopes(inner.l, later.scopes[..n], n).code == End;
    ExecConcat(Does(answers), inner.code, End, u, fuel);
    ExecEnd(answers, t, fuel);
  }

  // ----- Statements -----

  /** Where a statement's code starts: every flag clear, only locals around, and the loops around
      numbered before. */
  ghost predicate Starts(l: Lowering, later: Lowering, flags: seq<nat>, s: Machine) {
    && Stands(l) && FlagsFit(later, flags) && AllClear(flags, s)
  }

  ghost predicate Stands(l: Lowering) {
    && 0 < l.next && l.conditional == 0 && FlagsBelow(l) && AllPlain(l.scopes)
    && (forall around <- l.loops :: around.depth <= |l.scopes| && around.broken < l.regions && around.continued < l.regions)
  }

  /** What a jump out of here ends, the innermost scope having these locals. */
  function Unwinding(l: Lowering, locals: seq<nat>, depth: nat): Trace
    requires l.scopes != []
  {
    if |l.scopes| <= depth then [] else LastFirst(locals) + Unwound(l.scopes[..|l.scopes| - 1], depth)
  }

  /** The jump a `break` or a `continue` becomes. */
  predicate JumpsOut<S>(l: Lowering, way: Way, o: Outcome<S>) {
    && l.loops != []
    && var around := l.loops[|l.loops| - 1];
       if way == Breaks then o.Broke? && o.region == around.broken
       else if around.continueBreaks then o.Broke? && o.region == around.continued
       else o.Continued? && o.region == around.continued
  }

  function DepthOf(l: Lowering): nat {
    if l.loops == [] then 0 else l.loops[|l.loops| - 1].depth
  }

  /** The code leaves the way the statement does, having ended the scopes a jump leaves. */
  ghost predicate LeavesLike(l: Lowering, way: Way, trace: Trace, jumped: Trace, returned: Trace, flags: seq<nat>, o: Outcome<Machine>) {
    match way
    case GoesOn => o.Fall? && o.s.trace == trace && AllClear(flags, o.s)
    case Breaks => JumpsOut(l, way, o) && o.s.trace == trace + jumped && AllClear(flags, o.s)
    case Continues => JumpsOut(l, way, o) && o.s.trace == trace + jumped && AllClear(flags, o.s)
    case Returns(value) => o.Ended? && o.result.Left? && o.result.value == value && o.result.s.trace == trace + returned
    case Endless => o.Unfinished? && o.s.trace <= trace
  }

  ghost predicate StmtFollows(l: Lowering, later: Lowering, ran: Ran, flags: seq<nat>, o: Outcome<Machine>)
    requires l.scopes != [] && later.scopes != []
  {
    && LeavesLike(l, ran.way, ran.trace, Unwinding(l, ran.locals, DepthOf(l)), Unwinding(l, ran.locals, 0), flags, o)
    && (ran.way == GoesOn ==> ObjectsOf(Cleanups(later)) == ran.locals)
  }

  ghost predicate BlockFollows(l: Lowering, way: Way, trace: Trace, flags: seq<nat>, o: Outcome<Machine>) {
    LeavesLike(l, way, trace, Unwound(l.scopes, DepthOf(l)), Unwound(l.scopes, 0), flags, o)
  }

  lemma {:induction false} StopsNeverFalls<S>(m: Meaning<S>, code: Code, s: S, fuel: nat)
    requires Stops(code)
    ensures !Exec(m, code, s, fuel).Fall?
    decreases code
  {
    if code.next != End {
      var head := ExecHead(m, code, s, fuel);
      if head.Fall? {
        StopsNeverFalls(m, code.next, head.s, fuel);
      }
    }
  }

  lemma {:induction false} StmtsRuns(answers: Answers, l: Lowering, body: Stmts, s: Machine, fuel: nat, flags: seq<nat>)
    requires Lowerable(l, body) && Starts(l, LowerStmts(l, body).l, flags, s)
    ensures Stands(LowerStmts(l, body).l)
    ensures StmtFollows(l, LowerStmts(l, body).l, Run(answers, body, s.trace, ObjectsOf(Cleanups(l)), fuel), flags,
                        Exec(Does(answers), LowerStmts(l, body).code, s, fuel))
    decreases fuel, body, 1
  {
    hide Does, LowerOne, RunOne, AllPlain, Unwinding, FlagsFit, FlagsBelow, AllClear;
    StmtsStand(l, body);
    match body
    case Nothing =>
    case Then(first, rest) =>
      var one := LowerOne(l, first);
      var ran := RunOne(answers, first, s.trace, ObjectsOf(Cleanups(l)), fuel);
      var o := Exec(Does(answers), one.code, s, fuel);
      if Stops(one.code) {
        OneRuns(answers, l, first, s, fuel, flags);
        StopsNeverFalls(Does(answers), one.code, s, fuel);
      } else {
        var others := LowerStmts(one.l, rest);
        StandsAfter(l, one.l, others.l, flags);
        OneRuns(answers, l, first, s, fuel, flags);
        ExecConcat(Does(answers), one.code, others.code, s, fuel);
        if ran.way == GoesOn {
          StmtsRuns(answers, one.l, rest, o.s, fuel, flags);
          SameUnwinding(l, one.l, Run(answers, rest, ran.trace, ran.locals, fuel).locals);
        }
      }
  }

  lemma {:induction false} StmtsStand(l: Lowering, body: Stmts)
    requires Lowerable(l, body) && Stands(l)
    ensures Stands(LowerStmts(l, body).l)
    decreases body
  {
    hide LowerOne, Stands;
    match body
    case Nothing =>
    case Then(first, rest) =>
      OneStands(l, first);
      if !Stops(LowerOne(l, first).code) {
        StmtsStand(LowerOne(l, first).l, rest);
      }
  }

  lemma OneStands(l: Lowering, first: Stmt)
    requires InBlock(l) && InLoopsOne(first, l.loops != []) && Stands(l)
    ensures Stands(LowerOne(l, first).l)
  {
    hide LowerWhole, LowerBlock, LowerIf, LowerWhile, LowerFor, LowerReturn, LowerExpr;
    if first.Let? {
      LetStandsToo(l, first.object_, first.given);
    } else {
      StillStands(l, LowerOne(l, first).l);
    }
  }

  lemma LetStandsToo(l: Lowering, object_: nat, given: Expr)
    requires InBlock(l) && Stands(l)
    ensures Stands(LowerLet(l, object_, given).l)
  {
    hide LowerExpr, Stands;
    LetRegisters(WithSlot(l), LowerExpr(OpenScope(WithSlot(l), true), given).l, object_, l.next);
    LetStands(l, LowerLet(l, object_, given).l, object_, l.next);
  }

  lemma SameUnwinding(l: Lowering, later: Lowering, locals: seq<nat>)
    requires InBlock(l) && Declares(l, later)
    ensures forall depth: nat :: Unwinding(later, locals, depth) == Unwinding(l, locals, depth)
  {
  }

  /** What a statement declares in its block is a local, on every path. */
  lemma StandsAfter(l: Lowering, later: Lowering, end: Lowering, flags: seq<nat>)
    requires InBlock(l) && Stands(l) && Declares(l, later) && Later(later, end) && FlagsFit(end, flags)
    ensures FlagsFit(later, flags) && FlagsFit(l, flags) && FlagsBelow(later)
  {
    StillBelow(l, later);
    FitBefore(later, end, flags);
    FitBefore(l, later, flags);
  }

  lemma {:induction false} OneRuns(answers: Answers, l: Lowering, first: Stmt, s: Machine, fuel: nat, flags: seq<nat>)
    requires InBlock(l) && InLoopsOne(first, l.loops != []) && Starts(l, LowerOne(l, first).l, flags, s)
    ensures Stands(LowerOne(l, first).l)
    ensures StmtFollows(l, LowerOne(l, first).l, RunOne(answers, first, s.trace, ObjectsOf(Cleanups(l)), fuel), flags,
                        Exec(Does(answers), LowerOne(l, first).code, s, fuel))
    decreases fuel, first, 1, 0
  {
    hide Does, Exec, LowerWhole, LowerLet, LowerBlock, LowerIf, LowerWhile, LowerFor, LowerReturn, RunCleanups;
    hide RunBlock, RunWhile, EvalWhole, Eval, FlagsFit, AllClear, Concat;
    match first
    case Evaluate(given) =>
      var t := WholeRuns(answers, l, given, s, fuel, flags);
      StillStands(l, LowerWhole(l, given).l);
    case Let(object_, given) => LetRuns(answers, l, object_, given, s, fuel, flags);
    case BlockOf(body) =>
      BlockRuns(answers, l, body, s, fuel, flags);
      StillStands(l, LowerBlock(l, body).l);
    case IfElse(_, _, _, _) =>
      IfRuns(answers, l, first, s, fuel, flags);
      StillStands(l, LowerIf(l, first).l);
    case While(_, _, _) =>
      WhileRuns(answers, l, first, s, fuel, flags);
      StillStands(l, LowerWhile(l, first).l);
    case For(_, _, _, _, _) =>
      ForRuns(answers, l, first, s, fuel, flags);
      StillStands(l, LowerFor(l, first).l);
    case Return(hasValue, given) =>
      ReturnRuns(answers, l, hasValue, given, s, fuel, flags);
      StillStands(l, LowerReturn(l, hasValue, given).l);
    case BreakLoop =>
      JumpRuns(answers, l, Breaks, s, fuel, flags);
      StillStands(l, LowerOne(l, first).l);
    case ContinueLoop =>
      JumpRuns(answers, l, Continues, s, fuel, flags);
      StillStands(l, LowerOne(l, first).l);
  }

  lemma StillStands(l: Lowering, later: Lowering)
    requires Stands(l) && Later(l, later) && later.scopes == l.scopes && later.loops == l.loops && later.conditional == l.conditional
    ensures Stands(later)
  {
    StillBelow(l, later);
  }

  /** A jump out of the loop: what is inside it ends first. */
  lemma JumpRuns(answers: Answers, l: Lowering, way: Way, s: Machine, fuel: nat, flags: seq<nat>)
    requires l.scopes != [] && l.loops != [] && Stands(l) && AllClear(flags, s) && way in {Breaks, Continues}
    ensures var stmt := if way == Breaks then BreakLoop else ContinueLoop;
            InBlock(l) ==> BlockFollows(l, way, s.trace, flags, Exec(Does(answers), LowerOne(l, stmt).code, s, fuel))
  {
    hide Does, EndScopes, LastFirst, AllPlain, Unwound, FlagsFit;
    var around := l.loops[|l.loops| - 1];
    var ended := RunCleanups(l, around.depth);
    var t := EndScopesRuns(answers, l, l.scopes, around.depth, s, fuel);
    StaysClear(flags, s, t);
    var jump := if way == Breaks then Break(around.broken, HERE, End)
                else if around.continueBreaks then Break(around.continued, HERE, End) else Continue(around.continued, HERE, End);
    ExecConcat(Does(answers), ended.code, jump, s, fuel);
    assert Exec(Does(answers), jump, t, fuel) == ExecHead(Does(answers), jump, t, fuel);
  }

  lemma StaysClear(flags: seq<nat>, s: Machine, t: Machine)
    requires AllClear(flags, s) && Clears(s, t, [])
    ensures AllClear(flags, t)
  {
    forall flag | flag in flags
      ensures Held(t.memory, flag) == 0
    {
      assert Held(t.memory, flag) == if HasFlag([], flag) then 0 else Held(s.memory, flag);
    }
  }

  /** The value first, then everything around ends: the statement's temporaries, and every scope
      out to the function's. */
  lemma ReturnRuns(answers: Answers, l: Lowering, hasValue: bool, given: Expr, s: Machine, fuel: nat, flags: seq<nat>)
    requires Stands(l) && FlagsFit(LowerReturn(l, hasValue, given).l, flags) && AllClear(flags, s)
    ensures var (value, trace) := if hasValue then EvalWhole(answers, given, s.trace) else (0, s.trace);
            BlockFollows(l, Returns(value), trace, flags, Exec(Does(answers), LowerReturn(l, hasValue, given).code, s, fuel))
  {
    hide Does, LowerExpr, EndScopes, LastFirst, AllPlain, Registers, Touches, LiveOf, Flagged, Clears;
    var begun := OpenScope(l, true);
    var value := if hasValue then LowerExpr(begun, given) else Piece(begun, End, 0);
    var ended := RunCleanups(value.l, 0);
    var more: seq<Cleanup>, u: Machine := [], s;
    if hasValue {
      more := ExprRegisters(begun, given);
      RegistersTail(begun, value.l, more);
      FitClosed(l, value.l, LowerReturn(l, hasValue, given).l, flags);
      ClearIsUnset(begun, value.l, more, flags, s);
      u := ExprRuns(answers, begun, given, more, s, fuel);
    } else {
      ExecEnd(answers, s, fuel);
      NothingLive(s.memory, value.l.next);
    }
    var t := AllEnds(answers, l, value.l, more, u, fuel);
    ExecConcat(Does(answers), value.code, Concat(ended.code, Plain(Ret(value.value, HERE), End)), s, fuel);
    ExecConcat(Does(answers), ended.code, Plain(Ret(value.value, HERE), End), u, fuel);
    ExecRet(answers, value.value, t, fuel);
  }

  lemma NothingLive(memory: map<nat, nat>, next: nat)
    ensures LiveOf([], memory) == [] && Flagged([], next) && LastFirst([]) == []
  {
  }

  lemma ExecRet(answers: Answers, value: nat, s: Machine, fuel: nat)
    ensures Exec(Does(answers), Plain(Ret(value, HERE), End), s, fuel)
         == Outcome.Ended(Left(if value == 0 then 0 else Held(s.values, value), s))
  {
  }

  /** From inside a statement, every scope. */
  lemma AllEnds(answers: Answers, l: Lowering, later: Lowering, more: seq<Cleanup>, u: Machine, fuel: nat) returns (t: Machine)
    requires AllPlain(l.scopes) && 0 < later.next && Flagged(more, later.next)
    requires |later.scopes| == |l.scopes| + 1 && later.scopes[..|l.scopes|] == l.scopes && Cleanups(later) == more
    ensures Exec(Does(answers), RunCleanups(later, 0).code, u, fuel) == Fall(t)
    ensures t.trace == u.trace + LastFirst(LiveOf(more, u.memory)) + Unwound(l.scopes, 0)
    ensures SameBelow(u.values, t.values, later.next)
  {
    hide Does, EndAll, LastFirst, AllPlain, LiveOf, Flagged;
    var inner := EndAll(later, more);
    var v := EndAllRuns(answers, later, more, u, fuel);
    t := EndScopesRuns(answers, inner.l, l.scopes, 0, v, fuel);
    ExecConcat(Does(answers), inner.code, EndScopes(inner.l, l.scopes, 0).code, u, fuel);
    forall k | 0 <= k < later.next
      ensures Held(t.values, k) == Held(u.values, k)
    {
      assert Held(v.values, k) == Held(u.values, k);
    }
  }

  lemma LetRuns(answers: Answers, l: Lowering, object_: nat, given: Expr, s: Machine, fuel: nat, flags: seq<nat>)
    requires InBlock(l) && Starts(l, LowerLet(l, object_, given).l, flags, s)
    ensures Stands(LowerLet(l, object_, given).l)
    ensures StmtFollows(l, LowerLet(l, object_, given).l, RunOne(answers, Let(object_, given), s.trace, ObjectsOf(Cleanups(l)), fuel), flags,
                        Exec(Does(answers), LowerLet(l, object_, given).code, s, fuel))
  {
    hide Does, LowerExpr, EndScopes, LastFirst, AllPlain, Registers, Touches, LiveOf, Flagged, Exec;
    var place, begun := l.next, OpenScope(WithSlot(l), true);
    var value := LowerExpr(begun, given);
    LetRegisters(WithSlot(l), value.l, object_, place);
    var kept := AddCleanup(value.l, object_, place, true);
    var closed := CloseScope(kept.l, false);
    var more := ExprRegisters(begun, given);
    RegistersTail(begun, value.l, more);
    FitClosed(l, value.l, LowerLet(l, object_, given).l, flags);
    ClearIsUnset(begun, value.l, more, flags, s);
    var u := ExprRuns(answers, begun, given, more, s, fuel);
    var built := u.(trace := u.trace + [Built(object_)]);
    LetTouches(begun, value.l, kept.l, more, s, u, built);
    var t := ScopeEnds(answers, begun, kept.l, more, s, built, fuel, flags);
    ExecConcat(Does(answers), value.code, Plain(Building(object_, place), closed.code), s, fuel);
    ExecBuilding(answers, object_, place, closed.code, u, fuel);
    LetStands(l, LowerLet(l, object_, given).l, object_, place);
  }

  lemma LetTouches(l: Lowering, later: Lowering, kept: Lowering, more: seq<Cleanup>, s: Machine, u: Machine, built: Machine)
    requires l.scopes != [] && later.scopes != [] && kept.scopes != [] && Registers(l, later, more)
    requires Cleanups(kept) == Cleanups(later) && kept == later.(scopes := kept.scopes)
    requires Touches(s, u, l.next, later.next) && built == u.(trace := built.trace)
    ensures Registers(l, kept, more) && Touches(s, built, l.next, kept.next)
  {
  }

  lemma LetStands(l: Lowering, later: Lowering, object_: nat, place: nat)
    requires InBlock(l) && Stands(l) && Declares(l, later)
    requires Cleanups(later) == Cleanups(l) + [Cleanup(object_, place, 0)]
    ensures Stands(later) && ObjectsOf(Cleanups(later)) == ObjectsOf(Cleanups(l)) + [object_]
  {
    StillBelow(l, later);
    var last := |l.scopes| - 1;
    forall scope | scope in later.scopes
      ensures Plainly(scope.cleanups)
    {
      var i :| 0 <= i < |later.scopes| && later.scopes[i] == scope;
      if i < last {
        assert later.scopes[..last][i] == l.scopes[i];
        assert l.scopes[i] in l.scopes;
      } else {
        assert l.scopes[last] in l.scopes;
      }
    }
  }

  lemma {:induction false} BlockRuns(answers: Answers, l: Lowering, body: Stmts, s: Machine, fuel: nat, flags: seq<nat>)
    requires InLoops(body, l.loops != []) && Starts(l, LowerBlock(l, body).l, flags, s)
    ensures var (way, trace) := RunBlock(answers, body, s.trace, fuel);
            BlockFollows(l, way, trace, flags, Exec(Does(answers), LowerBlock(l, body).code, s, fuel))
    decreases fuel, body, 2
  {
    hide Does, LowerStmts, EndScopes, LastFirst, Exec, Run, AllPlain, FlagsBelow;
    var begun := OpenScope(l, false);
    var inside := LowerStmts(begun, body);
    var ran := Run(answers, body, s.trace, [], fuel);
    var o := Exec(Does(answers), inside.code, s, fuel);
    var closed := CloseScope(inside.l, Stops(inside.code));
    BlockStands(l);
    FitBlock(l, inside.l, closed.l, flags);
    StmtsRuns(answers, begun, body, s, fuel, flags);
    ExecConcat(Does(answers), inside.code, closed.code, s, fuel);
    if ran.way == GoesOn {
      if Stops(inside.code) {
        StopsNeverFalls(Does(answers), inside.code, s, fuel);
      } else {
        var n := |l.scopes|;
        var t := EndScopesRuns(answers, inside.l, inside.l.scopes, n, o.s, fuel);
        StaysClear(flags, o.s, t);
        assert Unwound(inside.l.scopes[..n], n) == [];
      }
    } else {
      assert begun.scopes[..|l.scopes|] == l.scopes;
      assert forall depth: nat :: ran.trace + (LastFirst(ran.locals) + Unwound(l.scopes, depth)) == ran.trace + LastFirst(ran.locals) + Unwound(l.scopes, depth);
    }
  }

  lemma BlockStands(l: Lowering)
    requires Stands(l)
    ensures Stands(OpenScope(l, false)) && Cleanups(OpenScope(l, false)) == [] && ObjectsOf([]) == []
  {
  }

  lemma FitBlock(l: Lowering, inside: Lowering, closed: Lowering, flags: seq<nat>)
    requires FlagsBelow(l) && Later(l, inside) && Later(inside, closed) && FlagsFit(closed, flags)
    ensures FlagsFit(inside, flags)
  {
    FitClosed(l, inside, closed, flags);
  }

  /** A jump out of a region made since is not caught by it. */
  lemma NotCaught(l: Lowering, way: Way, trace: Trace, flags: seq<nat>, o: Outcome<Machine>, region: nat)
    requires Stands(l) && BlockFollows(l, way, trace, flags, o) && l.regions <= region
    ensures AfterRegion(region, o) == o
  {
  }

  lemma {:induction false} IfRuns(answers: Answers, l: Lowering, first: Stmt, s: Machine, fuel: nat, flags: seq<nat>)
    requires first.IfElse? && l.scopes != [] && InLoopsOne(first, l.loops != []) && Starts(l, LowerIf(l, first).l, flags, s)
    ensures var ran := RunOne(answers, first, s.trace, [], fuel);
            BlockFollows(l, ran.way, ran.trace, flags, Exec(Does(answers), LowerIf(l, first).code, s, fuel))
    decreases fuel, first, 0, 0
  {
    hide Does, LowerWhole, LowerBlock, RunBlock, AllPlain, Unwound, FlagsBelow, Exec;
    var test := LowerWhole(l, first.test);
    var region, begun := test.l.regions, test.l.(regions := test.l.regions + 1);
    var chosen := LowerBlock(begun, first.chosen);
    var otherwise := if first.hasElse then LowerBlock(chosen.l, first.otherwise) else Piece(chosen.l, End, 0);
    IfFits(l, test.l, begun, chosen.l, otherwise.l, flags);
    var u := WholeRuns(answers, l, first.test, s, fuel, flags);
    var node := If(region, test.value, chosen.code, first.hasElse, otherwise.code, HERE, End);
    ExecConcat(Does(answers), test.code, node, s, fuel);
    ExecRegion(answers, node, u, fuel);
    if Held(u.values, test.value) != 0 {
      BlockRuns(answers, begun, first.chosen, u, fuel, flags);
      var (way, trace) := RunBlock(answers, first.chosen, u.trace, fuel);
      NotCaught(l, way, trace, flags, Exec(Does(answers), chosen.code, u, fuel), region);
    } else if first.hasElse {
      BlockRuns(answers, chosen.l, first.otherwise, u, fuel, flags);
      var (way, trace) := RunBlock(answers, first.otherwise, u.trace, fuel);
      NotCaught(l, way, trace, flags, Exec(Does(answers), otherwise.code, u, fuel), region);
    }
  }

  lemma IfFits(l: Lowering, test: Lowering, begun: Lowering, chosen: Lowering, otherwise: Lowering, flags: seq<nat>)
    requires Stands(l) && Around(l, test) && begun == test.(regions := test.regions + 1) && Around(begun, chosen) && Around(chosen, otherwise)
    requires FlagsFit(otherwise, flags)
    ensures FlagsFit(test, flags) && FlagsFit(chosen, flags) && Stands(begun) && Stands(chosen)
  {
    StillStands(l, begun);
    StillStands(begun, chosen);
    FitBefore(chosen, otherwise, flags);
    FitBefore(begun, chosen, flags);
  }

  /** A region on its own in a list. */
  lemma ExecRegion(answers: Answers, node: Code, s: Machine, fuel: nat)
    requires node != End && node.next == End
    ensures Exec(Does(answers), node, s, fuel) == ExecHead(Does(answers), node, s, fuel)
    ensures node.If? ==>
              ExecHead(Does(answers), node, s, fuel) ==
              (if Held(s.values, node.condition) != 0 then AfterRegion(node.region, Exec(Does(answers), node.chosen, s, fuel))
               else if node.hasElse then AfterRegion(node.region, Exec(Does(answers), node.otherwise, s, fuel))
               else Fall(s))
  {
  }

  /** The test of a loop leaves it when it fails. */
  lemma TestRuns(answers: Answers, l: Lowering, hasTest: bool, test: Expr, loop: nat, s: Machine, fuel: nat, flags: seq<nat>)
      returns (t: Machine)
    requires Starts(l, LowerTest(l, hasTest, test, loop).l, flags, s) && loop < l.regions
    ensures var (goesIn, trace) := Tested(answers, hasTest, test, s.trace);
            && t.trace == trace && AllClear(flags, t)
            && Exec(Does(answers), LowerTest(l, hasTest, test, loop).code, s, fuel) == if goesIn then Fall(t) else Broke(loop, t)
  {
    hide Does, Exec, LowerWhole;
    if !hasTest {
      t := s;
      ExecEnd(answers, s, fuel);
    } else {
      var whole := LowerWhole(l, test);
      var negated := whole.l.next;
      FitBefore(whole.l, LowerTest(l, hasTest, test, loop).l, flags) by { StillBelow(l, whole.l); }
      var u := WholeRuns(answers, l, test, s, fuel, flags);
      t := u.(values := u.values[negated := if Held(u.values, whole.value) == 0 then 1 else 0]);
      var node := If(whole.l.regions, negated, Break(loop, HERE, End), false, End, HERE, End);
      ExecConcat(Does(answers), whole.code, Plain(Negating(whole.value, negated), node), s, fuel);
      ExecNegating(answers, whole.value, negated, node, u, fuel);
      ExecRegion(answers, node, t, fuel);
      ExecRegion(answers, Break(loop, HERE, End), t, fuel);
    }
  }

  lemma {:induction false} WhileRuns(answers: Answers, l: Lowering, first: Stmt, s: Machine, fuel: nat, flags: seq<nat>)
    requires first.While? && l.scopes != [] && InLoopsOne(first, l.loops != []) && Starts(l, LowerWhile(l, first).l, flags, s)
    ensures var (way, trace) := RunWhile(answers, first, s.trace, fuel);
            BlockFollows(l, way, trace, flags, Exec(Does(answers), LowerWhile(l, first).code, s, fuel))
    decreases fuel, first, 0, 1
  {
    hide Does, LowerBlock, LowerTest, Starts, BlockFollows, RunWhile, ExecLoop;
    WhileRounds(answers, l, first, 0, s, fuel, flags);
    ExecRegion(answers, LowerWhile(l, first).code, s, fuel);
  }

  /** One way round a loop and the rest of them, having gone round `turns` times. */
  lemma {:induction false} WhileRounds(answers: Answers, l: Lowering, first: Stmt, turns: nat, s: Machine, fuel: nat, flags: seq<nat>)
    requires first.While? && l.scopes != [] && InLoopsOne(first, l.loops != []) && Starts(l, LowerWhile(l, first).l, flags, s)
    ensures var (way, trace) := RunWhile(answers, first, s.trace, fuel);
            var node := LowerWhile(l, first).code;
            node.Loop? && BlockFollows(l, way, trace, flags, ExecLoop(Does(answers), node.region, node.bound, node.body, turns, s, fuel))
    decreases fuel, first, 0, 0
  {
    hide Does, LowerBlock, LowerTest, RunBlock, Unwound, AllPlain, FlagsBelow, Exec;
    var loop := l.regions;
    var begun := l.(regions := l.regions + 1);
    var test := LowerTest(begun, first.hasTest, first.test, loop);
    var around := LoopAround(loop, loop, false, |l.scopes|);
    var inside := test.l.(loops := l.loops + [around]);
    var body := LowerBlock(inside, first.body);
    LoopFits(l, begun, test.l, inside, body.l, around, flags);
    var u := TestRuns(answers, begun, first.hasTest, first.test, loop, s, fuel, flags);
    ExecConcat(Does(answers), test.code, body.code, s, fuel);
    var (goesIn, after) := Tested(answers, first.hasTest, first.test, s.trace);
    if goesIn {
      BlockRuns(answers, inside, first.body, u, fuel, flags);
      var (way, trace) := RunBlock(answers, first.body, u.trace, fuel);
      var o := Exec(Does(answers), body.code, u, fuel);
      NothingUnwound(l, trace);
      if (way == GoesOn || way == Continues) && fuel != 0 {
        WhileRounds(answers, l, first, turns + 1, o.s, fuel - 1, flags);
      }
    }
  }

  lemma NothingUnwound(l: Lowering, trace: Trace)
    ensures trace + Unwound(l.scopes, |l.scopes|) == trace
  {
  }

  lemma LoopFits(l: Lowering, begun: Lowering, test: Lowering, inside: Lowering, body: Lowering, around: LoopAround, flags: seq<nat>)
    requires Stands(l) && begun == l.(regions := l.regions + 1) && Around(begun, test)
    requires inside.scopes == test.scopes && inside.conditional == test.conditional && inside.next == test.next
    requires inside.flags == test.flags && test.regions <= inside.regions && inside.loops == l.loops + [around]
    requires around.depth <= |l.scopes| && around.broken < inside.regions && around.continued < inside.regions
    requires Around(inside, body) && FlagsFit(body, flags)
    ensures Stands(begun) && Stands(inside) && FlagsFit(test, flags)
  {
    StillStands(l, begun);
    StillStands(begun, test);
    FitBefore(inside, body, flags);
  }

  lemma {:induction false} StepsRuns(answers: Answers, l: Lowering, steps: Exprs, s: Machine, fuel: nat, flags: seq<nat>) returns (t: Machine)
    requires Starts(l, LowerSteps(l, steps).l, flags, s)
    ensures Exec(Does(answers), LowerSteps(l, steps).code, s, fuel) == Fall(t)
    ensures t.trace == RunSteps(answers, steps, s.trace) && AllClear(flags, t)
    decreases steps
  {
    hide Does, Exec, LowerWhole, AllPlain;
    match steps
    case NoMore =>
      t := s;
      ExecEnd(answers, s, fuel);
    case More(first, rest) =>
      var one := LowerWhole(l, first);
      StillStands(l, one.l);
      FitBefore(one.l, LowerSteps(one.l, rest).l, flags);
      var u := WholeRuns(answers, l, first, s, fuel, flags);
      t := StepsRuns(answers, one.l, rest, u, fuel, flags);
      ExecConcat(Does(answers), one.code, LowerSteps(one.l, rest).code, s, fuel);
  }

  lemma ExecBlock(answers: Answers, region: nat, body: Code, next: Code, s: Machine, fuel: nat)
    ensures Exec(Does(answers), Block(region, body, HERE, next), s, fuel) ==
            var left := AfterRegion(region, Exec(Does(answers), body, s, fuel));
            if left.Fall? then Exec(Does(answers), next, left.s, fuel) else left
  {
  }

  lemma {:induction false} HeadsGoOn(answers: Answers, head: Stmts, trace: Trace, locals: seq<nat>, fuel: nat)
    requires Heads(head)
    ensures Run(answers, head, trace, locals, fuel).way == GoesOn
  {
    if head.Then? {
      var one := RunOne(answers, head.first, trace, locals, fuel);
      HeadsGoOn(answers, head.rest, one.trace, one.locals, fuel);
    }
  }

  lemma {:induction false} ForRuns(answers: Answers, l: Lowering, first: Stmt, s: Machine, fuel: nat, flags: seq<nat>)
    requires first.For? && l.scopes != [] && InLoopsOne(first, l.loops != []) && Starts(l, LowerFor(l, first).l, flags, s)
    ensures var ran := RunOne(answers, first, s.trace, [], fuel);
            BlockFollows(l, ran.way, ran.trace, flags, Exec(Does(answers), LowerFor(l, first).code, s, fuel))
    decreases fuel, first, 0, 3
  {
    hide Does, LowerStmts, LowerRounds, Run, RunFor, Exec, AllPlain, FlagsBelow, EndScopes;
    var begun := OpenScope(l, false);
    HeadsInLoops(first.head, l.loops != []);
    var head := LowerStmts(begun, first.head);
    var rounds := LowerRounds(head.l, first);
    var closed := CloseScope(rounds.l, false);
    BlockStands(l);
    StmtsStand(begun, first.head);
    ForFits(begun, head.l, rounds.l, closed.l, flags);
    HeadsGoOn(answers, first.head, s.trace, [], fuel);
    StmtsRuns(answers, begun, first.head, s, fuel, flags);
    var o := Exec(Does(answers), head.code, s, fuel);
    var ran := Run(answers, first.head, s.trace, [], fuel);
    ExecConcat(Does(answers), head.code, Concat(rounds.code, closed.code), s, fuel);
    RoundsRun(answers, head.l, first, o.s, fuel, flags);
    var p := Exec(Does(answers), rounds.code, o.s, fuel);
    ExecConcat(Does(answers), rounds.code, closed.code, o.s, fuel);
    var (way, trace) := RunFor(answers, first, o.s.trace, fuel);
    HeadUnwound(l, head.l, ran.locals, trace);
    if p.Fall? {
      var t := EndScopesRuns(answers, rounds.l, rounds.l.scopes, |l.scopes|, p.s, fuel);
      StaysClear(flags, p.s, t);
    }
  }

  lemma ForFits(begun: Lowering, head: Lowering, rounds: Lowering, closed: Lowering, flags: seq<nat>)
    requires Stands(begun) && Stands(head) && Around(head, rounds) && Later(rounds, closed) && FlagsFit(closed, flags) && Later(begun, head)
    ensures FlagsFit(rounds, flags) && FlagsFit(head, flags) && Stands(rounds)
  {
    StillStands(head, rounds);
    FitBefore(rounds, closed, flags);
    FitBefore(head, rounds, flags);
  }

  lemma HeadUnwound(l: Lowering, head: Lowering, locals: seq<nat>, trace: Trace)
    requires head.scopes != [] && ObjectsOf(Cleanups(head)) == locals
    requires |head.scopes| == |l.scopes| + 1 && head.scopes[..|l.scopes|] == l.scopes
    ensures trace + Unwound(head.scopes, |l.scopes|) == trace + LastFirst(locals)
    ensures trace + Unwound(head.scopes, 0) == trace + LastFirst(locals) + Unwound(l.scopes, 0)
  {
    assert Unwound(l.scopes, |l.scopes|) == [];
    assert trace + (LastFirst(locals) + Unwound(l.scopes, 0)) == trace + LastFirst(locals) + Unwound(l.scopes, 0);
  }

  lemma {:induction false} RoundsRun(answers: Answers, l: Lowering, first: Stmt, s: Machine, fuel: nat, flags: seq<nat>)
    requires first.For? && l.scopes != [] && InLoops(first.body, true) && Starts(l, LowerRounds(l, first).l, flags, s)
    ensures var (way, trace) := RunFor(answers, first, s.trace, fuel);
            BlockFollows(l, way, trace, flags, Exec(Does(answers), LowerRounds(l, first).code, s, fuel))
    ensures var way := RunFor(answers, first, s.trace, fuel).0; way != Breaks && way != Continues
    decreases fuel, first, 0, 2
  {
    hide Does, LowerBlock, LowerTest, Starts, BlockFollows, RunFor, ExecLoop;
    ForRounds(answers, l, first, 0, s, fuel, flags);
    ExecRegion(answers, LowerRounds(l, first).code, s, fuel);
  }

  lemma {:induction false} ForRounds(answers: Answers, l: Lowering, first: Stmt, turns: nat, s: Machine, fuel: nat, flags: seq<nat>)
    requires first.For? && l.scopes != [] && InLoops(first.body, true) && Starts(l, LowerRounds(l, first).l, flags, s)
    ensures var (way, trace) := RunFor(answers, first, s.trace, fuel);
            var node := LowerRounds(l, first).code;
            && node.Loop? && BlockFollows(l, way, trace, flags, ExecLoop(Does(answers), node.region, node.bound, node.body, turns, s, fuel))
            && way != Breaks && way != Continues
    decreases fuel, first, 0, 0
  {
    hide Does, LowerBlock, LowerTest, LowerSteps, RunBlock, RunSteps, Unwound, AllPlain, FlagsBelow, Exec, Concat, Tested, Stands, FlagsFit, AllClear;
    var loop := l.regions;
    var begun := l.(regions := l.regions + 1);
    var test := LowerTest(begun, first.hasTest, first.test, loop);
    var block := test.l.regions;
    var around := LoopAround(loop, block, true, |l.scopes|);
    var inside := test.l.(regions := test.l.regions + 1, loops := l.loops + [around]);
    var body := LowerBlock(inside, first.body);
    var stepping := body.l.(loops := l.loops);
    var steps := LowerSteps(stepping, first.steps);
    StepsFit(l, begun, test.l, inside, body.l, stepping, steps.l, around, flags);
    var u := TestRuns(answers, begun, first.hasTest, first.test, loop, s, fuel, flags);
    ExecConcat(Does(answers), test.code, Block(block, body.code, HERE, steps.code), s, fuel);
    var (goesIn, after) := Tested(answers, first.hasTest, first.test, s.trace);
    if goesIn {
      BlockRuns(answers, inside, first.body, u, fuel, flags);
      var (way, trace) := RunBlock(answers, first.body, u.trace, fuel);
      var o := Exec(Does(answers), body.code, u, fuel);
      NothingUnwound(l, trace);
      ExecBlock(answers, block, body.code, steps.code, u, fuel);
      if way == GoesOn || way == Continues {
        var t := StepsRuns(answers, stepping, first.steps, o.s, fuel, flags);
        if fuel != 0 {
          ForRounds(answers, l, first, turns + 1, t, fuel - 1, flags);
        }
      }
    }
  }

  lemma StepsFit(l: Lowering, begun: Lowering, test: Lowering, inside: Lowering, body: Lowering, stepping: Lowering, steps: Lowering,
                 around: LoopAround, flags: seq<nat>)
    requires Stands(l) && begun == l.(regions := l.regions + 1) && Around(begun, test)
    requires inside == test.(regions := test.regions + 1, loops := l.loops + [around])
    requires around.depth <= |l.scopes| && around.broken < inside.regions && around.continued < inside.regions
    requires Around(inside, body) && stepping == body.(loops := l.loops) && Around(stepping, steps) && FlagsFit(steps, flags)
    ensures Stands(begun) && Stands(inside) && Stands(stepping) && FlagsFit(test, flags) && FlagsFit(body, flags)
  {
    StillStands(l, begun);
    StillStands(begun, test);
    StillBelow(inside, body);
    FitBefore(stepping, steps, flags);
    FitBefore(inside, body, flags);
  }

  // ----- A function -----

  /** Slots are asked for, and change nothing. */
  lemma {:induction false} SlotsRun(answers: Answers, slots: seq<nat>, s: Machine, fuel: nat)
    ensures Exec(Does(answers), SlotsCode(slots), s, fuel) == Fall(s)
    decreases |slots|
  {
    hide Does, Exec;
    if slots == [] {
      ExecEnd(answers, s, fuel);
    } else {
      ExecSlot(answers, slots[0], SlotsCode(slots[1..]), s, fuel);
      SlotsRun(answers, slots[1..], s, fuel);
    }
  }

  /** Every flag is cleared before anything runs. */
  lemma {:induction false} FlagsRun(answers: Answers, flags: seq<nat>, s: Machine, fuel: nat) returns (t: Machine)
    ensures Exec(Does(answers), FlagsCode(flags), s, fuel) == Fall(t)
    ensures t.trace == s.trace && AllClear(flags, t)
    ensures forall k {:trigger Held(t.memory, k)} :: k >= 0 && Held(s.memory, k) == 0 ==> Held(t.memory, k) == 0
    decreases |flags|
  {
    hide Does, Exec;
    if flags == [] {
      t := s;
      ExecEnd(answers, s, fuel);
    } else {
      var last, before := flags[|flags| - 1], flags[..|flags| - 1];
      var zeroed := s.(values := s.values[last + 1 := 0]);
      var stored := zeroed.(memory := zeroed.memory[last := 0]);
      ExecConstant(answers, 0, last + 1, Plain(Storing(last + 1, last), FlagsCode(before)), s, fuel);
      ExecStoring(answers, last + 1, last, FlagsCode(before), zeroed, fuel);
      t := FlagsRun(answers, before, stored, fuel);
      assert Held(stored.memory, last) == 0;
      assert flags == before + [last];
      forall k | k >= 0 && Held(s.memory, k) == 0
        ensures Held(t.memory, k) == 0
      {
        assert Held(stored.memory, k) == 0;
      }
    }
  }

  /** What a function's statements come to, and how its code ends: with its value, or -- when it
      gives one back and does not say which -- off its end. */
  ghost predicate FunctionFollows(ran: (Way, Trace), givesBack: bool, o: Outcome<Machine>) {
    match ran.0
    case GoesOn => if givesBack then o.Fall? && o.s.trace == ran.1
                   else o.Ended? && o.result.Left? && o.result.value == 0 && o.result.s.trace == ran.1
    case Returns(value) => o.Ended? && o.result.Left? && o.result.value == value && o.result.s.trace == ran.1
    case Endless => o.Unfinished? && o.s.trace <= ran.1
    case _ => false
  }

  /** Whatever the functions it calls answer, the lowered function leaves the trace of its
      statements, and ends with their value. */
  lemma FunctionRuns(answers: Answers, body: Stmts, givesBack: bool, s: Machine, fuel: nat)
    requires IsFunction(body)
    ensures FunctionFollows(RunBlock(answers, body, s.trace, fuel), givesBack,
                            Exec(Does(answers), LowerFunction(body, givesBack).body, s, fuel))
  {
    hide Does, Exec, LowerBlock, RunBlock, SlotsCode, FlagsCode;
    var lowered := LowerBlock(BEGUN, body);
    var flags := lowered.l.flags;
    var all := if !Stops(lowered.code) && !givesBack then Concat(lowered.code, Plain(Ret(0, HERE), End)) else lowered.code;
    SlotsRun(answers, lowered.l.slots, s, fuel);
    ExecConcat(Does(answers), SlotsCode(lowered.l.slots), Concat(FlagsCode(flags), all), s, fuel);
    var u := FlagsRun(answers, flags, s, fuel);
    ExecConcat(Does(answers), FlagsCode(flags), all, s, fuel);
    assert Starts(BEGUN, lowered.l, flags, u) by { BeginningStands(lowered.l); }
    BlockRuns(answers, BEGUN, body, u, fuel, flags);
    var o := Exec(Does(answers), lowered.code, u, fuel);
    ExecConcat(Does(answers), lowered.code, Plain(Ret(0, HERE), End), u, fuel);
    if o.Fall? {
      if Stops(lowered.code) {
        StopsNeverFalls(Does(answers), lowered.code, u, fuel);
      }
      ExecRet(answers, 0, o.s, fuel);
    } else {
      assert forall trace: Trace :: trace + Unwound(BEGUN.scopes, 0) == trace;
    }
  }

  lemma BeginningStands(lowered: Lowering)
    requires Around(BEGUN, lowered)
    ensures Stands(BEGUN) && FlagsFit(lowered, lowered.flags)
  {
    StillBelow(BEGUN, lowered);
    assert forall i :: 0 <= i < |lowered.flags| ==> lowered.flags[i] in lowered.flags;
  }
}
