/** Bounds, which the interpreter keeps and the text does not.

    A loop with a bound stops the interpreter's run at the turn past it; the text counts no turns. So
    a run of the CFG and of its text come to the same if and only if no loop passes its bound
    (`X8664Runs.TogetherExactly`), and every CFG whose loops carry no bound but `b` runs as its text if and only
    if `b` is 'none' (`BoundDecides`): of any other, `^1: br ^2; ^2: br ^2`, with the bound on `^2`,
    stops and its text runs for ever (`SpinsApart`). The same is said of structured functions
    (`BoundDecidesCompiled`).
  */
module BoundedLoops {
  import opened Ir
  import opened Interpreter
  import opened StructuredMeaning
  import opened Flattener
  import opened X8664Runs
  import FlattenerMeaning
  import FlattenerScope
  import FlattenerVerified
  import Verifier
  import CompiledRuns
  import X8664Machine
  import Words
  import IrOpcodes

  type Types = Words.Types
  type Cells = IrOpcodes.Cells
  type State = X8664Machine.State

  const HERE: Position := Position(0, 0)

  // ----- A CFG and its text -----

  /** The CFGs that have a text and whose loops carry no bound but `b` all run as their text does, in
      every run, if and only if `b` is none. */
  lemma BoundDecides(types: Types, b: U32)
    ensures (forall cfg: Cfg, given: nat, cells: Cells, s: State ::
               Writable(types, cfg, given) && BoundedBy(cfg, b) && Begins(types, given, s, cells) ==> Together(types, cfg, cells, s))
            <==> b == NO_BOUND
  {
    hide Verifier.Accepted, Begins, Together, PassesABound;
    if b == NO_BOUND {
      forall cfg: Cfg, given: nat, cells: Cells, s: State | Writable(types, cfg, given) && BoundedBy(cfg, b) && Begins(types, given, s, cells)
        ensures Together(types, cfg, cells, s)
      {
        PassesNone(types, cfg, given, cells, s);
        TogetherExactly(types, cfg, given, cells, s);
      }
    } else {
      var s := X8664Machine.State(0, 0, 0, 0, 0, map[]);
      SpinsApart(types, b, map[], s);
      NothingGiven(types, map[], s);
    }
  }

  lemma NothingGiven(types: Types, cells: Cells, s: State)
    ensures Begins(types, 0, s, cells)
  {
  }

  // ----- The CFG that stops and whose text does not -----

  /** A loop of nothing. */
  function SpinsFunction(b: U32): Structured {
    Structured(0, Loop(1, b, End, HERE, End), false)
  }

  /** What it is flattened to. */
  function Spins(b: U32): Cfg {
    var jump := [Br(2, [], HERE)];
    Cfg([BasicBlock([], [], false, NO_BOUND, 0, 0), BasicBlock(jump, [], false, NO_BOUND, 0, 0),
         BasicBlock(jump, [], true, b, 2, 0), BasicBlock([], [], false, NO_BOUND, 0, 0)], [1, 2], 1, map[], false)
  }

  lemma SpinsIsFlattened(b: U32)
    ensures Flattenable(SpinsFunction(b)) && Flatten(SpinsFunction(b)) == Spins(b)
  {
    SpinsIsScoped(b);
    var f, code := Begun(0), SpinsFunction(b).body;
    var inside := IntoLoop(f, 1, b, HERE);
    var out := OutOf(inside, 2, 3, 0, HERE);
    EntersSpins(b);
    LeavesSpins(b);
    assert InLoop(f, code) == FlattenCode(inside, End) == inside;
    assert FlattenHead(f, code) == AcrossLoop(f, code) == out;
    assert FlattenCode(f, code) == FlattenCode(out, End) == out;
    assert Parameters(0) == map[];
  }

  lemma SpinsIsScoped(b: U32)
    ensures Flattenable(SpinsFunction(b))
  {
    assert WellScoped(End, [] + [Around(1, true)]) && WellScoped(End, []);
  }

  /** Into the loop: the entry jumps to the header, and the block after waits. */
  lemma EntersSpins(b: U32)
    ensures var (f, blocks) := (IntoLoop(Begun(0), 1, b, HERE), Spins(b).blocks);
            && f.blocks == [blocks[0], blocks[1], blocks[2].(insts := []), blocks[3].(loop := 0)]
            && f.jumpsTo == [0, 0, 1, 0] && f.order == [1, 2] && f.values == Parameters(0) && f.current == 2
  {
    var f := Begun(0);
    var empty := BasicBlock([], [], false, NO_BOUND, 0, 0);
    assert f.Made().Made().blocks == [empty, empty, empty, empty] && f.Made().Made().jumpsTo == [0, 0, 0, 0];
    var jumped := f.Made().Made().Headed(2, b).Jumped(2, HERE);
    assert jumped.blocks[1].insts == [] + [Br(2, [], HERE)] == [Br(2, [], HERE)];
    assert jumped.blocks[1] == Spins(b).blocks[1] && jumped.blocks[2] == Spins(b).blocks[2].(insts := []);
    assert jumped.blocks == [empty, Spins(b).blocks[1], Spins(b).blocks[2].(insts := []), empty];
    assert jumped.jumpsTo == [0, 0, 1, 0];
  }

  /** Out of it: the header jumps to itself, and nothing to the block after. */
  lemma LeavesSpins(b: U32)
    ensures var out := OutOf(IntoLoop(Begun(0), 1, b, HERE), 2, 3, 0, HERE);
            && out.blocks == Spins(b).blocks && out.Closed().order == [1, 2] && out.Closed().blocks == out.blocks
            && out.values == Parameters(0)
  {
    EntersSpins(b);
    hide IntoLoop;
    var inside := IntoLoop(Begun(0), 1, b, HERE);
    assert inside.Falls();
    var jumped := inside.Jumped(2, HERE);
    assert jumped.blocks[2] == Spins(b).blocks[2] && jumped.jumpsTo == [0, 0, 2, 0];
    assert jumped.Closed() == jumped;
    assert OutOf(inside, 2, 3, 0, HERE).order == [1, 2] + [3];
  }

  lemma SpinsIsVerified(b: U32)
    ensures FlattenerScope.VerifiedFunction(SpinsFunction(b)) && !FlattenerVerified.FallsOff(SpinsFunction(b).body, true)
  {
    SpinsIsScoped(b);
  }

  /** The turns left are counted down to the bound, or for ever. */
  lemma {:induction false} TurnsOn(m: Meaning<Cells>, b: U32, turns: nat, cells: Cells, fuel: nat)
    requires b == NO_BOUND || turns <= b
    ensures ExecLoop(m, 1, b, End, turns, cells, fuel) == if b != NO_BOUND && b - turns <= fuel then Ended(Exceeded(b, cells)) else Unfinished(cells)
    decreases fuel
  {
    if fuel > 0 && (b == NO_BOUND || turns < b) {
      TurnsOn(m, b, turns + 1, cells, fuel - 1);
    }
  }

  lemma SpinsRuns(m: Meaning<Cells>, b: U32, cells: Cells, fuel: nat)
    ensures Exec(m, SpinsFunction(b).body, cells, fuel) == if b != NO_BOUND && b <= fuel then Ended(Exceeded(b, cells)) else Unfinished(cells)
  {
    TurnsOn(m, b, 0, cells, fuel);
    assert ExecHead(m, SpinsFunction(b).body, cells, fuel) == ExecLoop(m, 1, b, End, 0, cells, fuel);
  }

  lemma SpinsIsWritable(types: Types, b: U32)
    ensures Writable(types, Spins(b), 0) && Unbounded(Spins(b)) == Spins(NO_BOUND)
  {
    hide Writable, Flatten, FlattenerScope.VerifiedFunction, FlattenerVerified.FallsOff;
    SpinsIsFlattened(b);
    SpinsIsVerified(b);
    CompiledRuns.FlattenIsWritable(types, SpinsFunction(b), 0);
    assert Unbounded(Spins(b)).blocks == Spins(NO_BOUND).blocks;
  }

  /** With any bound, the interpreter stops at it and the machine goes on for ever. */
  lemma SpinsApart(types: Types, b: U32, cells: Cells, s: State)
    requires b != NO_BOUND
    ensures Writable(types, Spins(b), 0) && BoundedBy(Spins(b), b) && Begins(types, 0, s, cells)
    ensures FlattenerMeaning.CfgEnds(IrOpcodes.Meant(types), Spins(b), cells, Exceeded(b, cells))
    ensures MachineRunsForEver(TextOf(types, Spins(b)), s)
    ensures !Together(types, Spins(b), cells, s)
  {
    hide Writable, Runnable, Exec, Flatten, FlattenerMeaning.RunsForEver, MachineRunsForEver, FlattenerMeaning.CfgEnds, Spins, Begins;
    var m := IrOpcodes.Meant(types);
    SpinsStops(m, b, cells);
    SpinsForEver(m, cells);
    SpinsIsWritable(types, b);
    NothingGiven(types, cells, s);
    UnboundedIsRunnable(types, Spins(b), 0);
    NeitherEnds(types, Spins(NO_BOUND), 0, cells, s);
    BoundsOfSpins(types, b);
    StopsNotTogether(types, b, cells, s);
  }

  lemma BoundsOfSpins(types: Types, b: U32)
    requires Writable(types, Spins(b), 0)
    ensures BoundedBy(Spins(b), b)
  {
  }

  lemma StopsNotTogether(types: Types, b: U32, cells: Cells, s: State)
    requires Writable(types, Spins(b), 0) && FlattenerMeaning.CfgEnds(IrOpcodes.Meant(types), Spins(b), cells, Exceeded(b, cells))
    ensures !Together(types, Spins(b), cells, s)
  {
    hide Verifier.Accepted, TextOf, MachineEnds, FlattenerMeaning.CfgEnds, Spins;
    assert forall ending :: !Agrees(Spins(b), Exceeded(b, cells), ending);
  }

  lemma SpinsStops(m: Meaning<Cells>, b: U32, cells: Cells)
    requires b != NO_BOUND
    ensures FlattenerMeaning.CfgEnds(m, Spins(b), cells, Exceeded(b, cells))
  {
    hide Exec, Flatten, FlattenerMeaning.CfgEnds, Spins;
    SpinsIsFlattened(b);
    SpinsRuns(m, b, cells, b);
    assert FlattenerMeaning.ComesTo(Exec(m, SpinsFunction(b).body, cells, b), Exceeded(b, cells));
    FlattenerMeaning.FlattenPreserves(m, SpinsFunction(b), cells, Exceeded(b, cells));
  }

  lemma SpinsForEver(m: Meaning<Cells>, cells: Cells)
    ensures FlattenerMeaning.RunsForEver(m, Spins(NO_BOUND), cells)
  {
    hide Exec, Flatten, FlattenerMeaning.RunsForEver, Spins;
    SpinsIsFlattened(NO_BOUND);
    forall fuel: nat
      ensures Exec(m, SpinsFunction(NO_BOUND).body, cells, fuel).Unfinished?
    {
      SpinsRuns(m, NO_BOUND, cells, fuel);
    }
    FlattenerMeaning.FlattenPreservesDivergence(m, SpinsFunction(NO_BOUND), cells);
  }

  // ----- A structured function and its text -----

  /** No loop of the code carries a bound other than this one. */
  predicate LoopsBoundedBy(code: Code, b: U32) {
    match code
    case End => true
    case Plain(_, next) => LoopsBoundedBy(next, b)
    case Block(_, body, _, next) => LoopsBoundedBy(body, b) && LoopsBoundedBy(next, b)
    case If(_, _, chosen, hasElse, otherwise, _, next) =>
      LoopsBoundedBy(chosen, b) && (hasElse ==> LoopsBoundedBy(otherwise, b)) && LoopsBoundedBy(next, b)
    case Loop(_, bound, body, _, next) => (bound == NO_BOUND || bound == b) && LoopsBoundedBy(body, b) && LoopsBoundedBy(next, b)
    case Break(_, _, next) => LoopsBoundedBy(next, b)
    case Continue(_, _, next) => LoopsBoundedBy(next, b)
  }

  predicate StopsAtABound(outcome: Outcome<Cells>) {
    outcome.Ended? && outcome.result.Exceeded?
  }

  /** Without bounds none is passed. */
  lemma {:induction false} NeverStops(m: Meaning<Cells>, code: Code, cells: Cells, fuel: nat)
    requires LoopsBoundedBy(code, NO_BOUND)
    ensures !StopsAtABound(Exec(m, code, cells, fuel))
    decreases fuel, code, 2
  {
    if code != End {
      HeadNeverStops(m, code, cells, fuel);
      var first := ExecHead(m, code, cells, fuel);
      if first.Fall? {
        NeverStops(m, code.next, first.s, fuel);
      }
    }
  }

  lemma {:induction false} HeadNeverStops(m: Meaning<Cells>, code: Code, cells: Cells, fuel: nat)
    requires code != End && LoopsBoundedBy(code, NO_BOUND)
    ensures !StopsAtABound(ExecHead(m, code, cells, fuel))
    decreases fuel, code, 1
  {
    match code
    case Plain(_, _) =>
    case Block(_, body, _, _) => NeverStops(m, body, cells, fuel);
    case If(_, _, chosen, hasElse, otherwise, _, _) =>
      NeverStops(m, chosen, cells, fuel);
      if hasElse {
        NeverStops(m, otherwise, cells, fuel);
      }
    case Loop(region, bound, body, _, _) => RoundsNeverStop(m, region, body, 0, cells, fuel);
    case Break(_, _, _) =>
    case Continue(_, _, _) =>
  }

  lemma {:induction false} RoundsNeverStop(m: Meaning<Cells>, region: nat, body: Code, turns: nat, cells: Cells, fuel: nat)
    requires LoopsBoundedBy(body, NO_BOUND)
    ensures !StopsAtABound(ExecLoop(m, region, NO_BOUND, body, turns, cells, fuel))
    decreases fuel, body, 3
  {
    NeverStops(m, body, cells, fuel);
    var once := Exec(m, body, cells, fuel);
    if GoesRound(region, once) && fuel > 0 {
      RoundsNeverStop(m, region, body, turns + 1, once.s, fuel - 1);
    }
  }

  lemma CompiledPassesNone(types: Types, function_: Structured, cells: Cells)
    requires Flattenable(function_) && LoopsBoundedBy(function_.body, NO_BOUND)
    ensures !PassesABound(types, Flatten(function_), cells)
  {
    hide Flatten, Exec, PassesABound, IrOpcodes.Meant, LoopsBoundedBy;
    var m := IrOpcodes.Meant(types);
    if PassesABound(types, Flatten(function_), cells) {
      var bound, end := BoundPassed(types, Flatten(function_), cells);
      FlattenerMeaning.FlattenPreserves(m, function_, cells, Exceeded(bound, end));
      var fuel: nat :| FlattenerMeaning.ComesTo(Exec(m, function_.body, cells, fuel), Exceeded(bound, end));
      NeverStops(m, function_.body, cells, fuel);
    }
  }

  /** The functions that can be compiled and whose loops carry no bound but `b` all run as their text
      does, in every run, if and only if `b` is none. */
  lemma BoundDecidesCompiled(types: Types, b: U32)
    ensures (forall function_: Structured, given: nat, cells: Cells, s: State ::
               CompiledRuns.Compilable(types, function_, given) && LoopsBoundedBy(function_.body, b) && Begins(types, given, s, cells) ==>
                 CompiledRuns.CompiledTogether(types, function_, cells, s))
            <==> b == NO_BOUND
  {
    hide Flatten, Writable, Begins, CompiledRuns.CompiledTogether, Together, PassesABound, CompiledRuns.Compilable, LoopsBoundedBy;
    if b == NO_BOUND {
      forall function_: Structured, given: nat, cells: Cells, s: State |
        CompiledRuns.Compilable(types, function_, given) && LoopsBoundedBy(function_.body, b) && Begins(types, given, s, cells)
        ensures CompiledRuns.CompiledTogether(types, function_, cells, s)
      {
        CompiledRuns.CompilableIsWritable(types, function_, given);
        CompiledPassesNone(types, function_, cells);
        TogetherExactly(types, Flatten(function_), given, cells, s);
        CompiledRuns.TogetherThrough(types, function_, given, cells, s);
      }
    } else {
      CompiledApart(types, b, map[], X8664Machine.State(0, 0, 0, 0, 0, map[]));
    }
  }

  lemma SpinsIsCompilable(types: Types, b: U32)
    ensures CompiledRuns.Compilable(types, SpinsFunction(b), 0) && LoopsBoundedBy(SpinsFunction(b).body, b)
  {
    SpinsIsVerified(b);
    assert CompiledRuns.CodeWritten(types, End) && LoopsBoundedBy(End, b);
  }

  /** A loop of nothing, structured. */
  lemma CompiledApart(types: Types, b: U32, cells: Cells, s: State)
    requires b != NO_BOUND
    ensures CompiledRuns.Compilable(types, SpinsFunction(b), 0) && LoopsBoundedBy(SpinsFunction(b).body, b) && Begins(types, 0, s, cells)
    ensures !CompiledRuns.CompiledTogether(types, SpinsFunction(b), cells, s)
  {
    hide Flatten, Writable, Begins, CompiledRuns.CompiledTogether, Together, FlattenerMeaning.CfgEnds, Spins, CompiledRuns.Compilable, LoopsBoundedBy;
    SpinsIsFlattened(b);
    SpinsIsCompilable(types, b);
    CompiledRuns.CompilableIsWritable(types, SpinsFunction(b), 0);
    SpinsApart(types, b, cells, s);
    CompiledRuns.TogetherThrough(types, SpinsFunction(b), 0, cells, s);
  }
}
