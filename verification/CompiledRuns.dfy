/** From a structured function to the machine.

    A verified function of instructions that have a text, flattened and written: the function and its
    text end together, with the same value or an abort, or run for ever together, if and only if no
    loop passes its bound (`CompiledRunsAreMeant`).
  */
module CompiledRuns {
  import opened Ir
  import opened Interpreter
  import opened Flattener
  import FlattenerMeaning
  import FlattenerOrder
  import FlattenerScope
  import FlattenerVerified
  import Verifier
  import VerifierSoundness
  import X8664Machine
  import X8664Writer
  import Words
  import IrOpcodes
  import X8664Runs

  type Types = Words.Types
  type Cells = IrOpcodes.Cells
  type State = X8664Machine.State

  /** Every instruction has a text that does not misread it, and every condition is a bool. */
  predicate CodeWritten(types: Types, code: Code) {
    match code
    case End => true
    case Plain(inst, next) => IsWritten(types, inst) && CodeWritten(types, next)
    case Block(_, body, _, next) => CodeWritten(types, body) && CodeWritten(types, next)
    case If(_, condition, chosen, hasElse, otherwise, _, next) =>
      && types(condition) == 1 && CodeWritten(types, chosen)
      && (hasElse ==> CodeWritten(types, otherwise)) && CodeWritten(types, next)
    case Loop(_, _, body, _, next) => CodeWritten(types, body) && CodeWritten(types, next)
    case Break(_, _, next) => CodeWritten(types, next)
    case Continue(_, _, next) => CodeWritten(types, next)
  }

  predicate IsWritten(types: Types, inst: Inst) {
    X8664Writer.Written(types, inst) && !X8664Writer.Misread(types, inst)
  }

  lemma {:induction false} CodeIsAdmitted(types: Types, code: Code)
    requires CodeWritten(types, code)
    ensures FlattenerVerified.Admitted(code, inst => IsWritten(types, inst)) && FlattenerVerified.Signed(code)
  {
    hide IsWritten;
    JumpsAreWritten(types);
    match code
    case End =>
    case Plain(inst, next) =>
      CallsNothing(types, inst);
      CodeIsAdmitted(types, next);
    case Block(_, body, _, next) =>
      CodeIsAdmitted(types, body);
      CodeIsAdmitted(types, next);
    case If(_, condition, chosen, hasElse, otherwise, at, next) =>
      forall one, other
        ensures IsWritten(types, CondBr(condition, one, other, at))
      {
        BranchIsWritten(types, condition, one, other, at);
      }
      CodeIsAdmitted(types, chosen);
      if hasElse {
        CodeIsAdmitted(types, otherwise);
      }
      CodeIsAdmitted(types, next);
    case Loop(_, _, body, _, next) =>
      CodeIsAdmitted(types, body);
      CodeIsAdmitted(types, next);
    case Break(_, _, next) => CodeIsAdmitted(types, next);
    case Continue(_, _, next) => CodeIsAdmitted(types, next);
  }

  lemma CallsNothing(types: Types, inst: Inst)
    requires IsWritten(types, inst)
    ensures !PassesUnchecked(inst)
  {
  }

  lemma BranchIsWritten(types: Types, condition: nat, chosen: nat, otherwise: nat, at: Position)
    requires types(condition) == 1
    ensures IsWritten(types, CondBr(condition, chosen, otherwise, at))
  {
  }

  /** The flattened function is all that is asked for a text. */
  lemma FlattenIsWritable(types: Types, function_: Structured, given: nat)
    requires FlattenerScope.VerifiedFunction(function_) && !FlattenerVerified.FallsOff(function_.body, true)
    requires CodeWritten(types, function_.body) && function_.parameters <= given
    ensures X8664Runs.Writable(types, Flatten(function_), given)
  {
    hide CodeWritten, IsWritten, FlattenerVerified.Signed, FlattenCode, Verifier.Accepted, VerifierSoundness.Complete;
    hide FlattenerVerified.FallsOff, FlattenerVerified.Admits, FlattenerVerified.Admitted, FlattenerOrder.Orderly;
    var cfg := Flatten(function_);
    CodeIsAdmitted(types, function_.body);
    FlattenerVerified.FlattenAdmits(function_, inst => IsWritten(types, inst));
    FlattenerVerified.FlattenIsAccepted(function_);
    FlattenerVerified.FlattenIsComplete(function_, given);
    OrderHasNoRepeats(function_);
    forall block | block in cfg.order
      ensures X8664Writer.AllWritten(types, cfg.blocks[block].insts) && X8664Runs.NoneMisread(types, cfg.blocks[block].insts)
    {
      forall inst | inst in cfg.blocks[block].insts
        ensures X8664Writer.Written(types, inst) && !X8664Writer.Misread(types, inst)
      {
        var i :| 0 <= i < |cfg.blocks[block].insts| && cfg.blocks[block].insts[i] == inst;
        WrittenIs(types, inst);
      }
    }
  }

  lemma WrittenIs(types: Types, inst: Inst)
    requires IsWritten(types, inst)
    ensures X8664Writer.Written(types, inst) && !X8664Writer.Misread(types, inst)
  {
  }

  lemma JumpsAreWritten(types: Types)
    ensures forall target, at :: IsWritten(types, Br(target, [], at))
  {
  }

  lemma OrderHasNoRepeats(function_: Structured)
    requires FlattenerScope.VerifiedFunction(function_) && !FlattenerVerified.FallsOff(function_.body, true)
    ensures FlattenerOrder.NoRepeats(Flatten(function_).order)
  {
    hide FlattenerOrder.Orderly, FlattenerOrder.NoRepeats, FlattenerVerified.FallsOff;
    var f, scopes := FlattenerVerified.FlattenMakes(function_);
    FlattenerOrder.ClosedOrder(f, {});
  }

  /** What is asked of a function whose text is to be written. */
  ghost predicate Compilable(types: Types, function_: Structured, given: nat) {
    && FlattenerScope.VerifiedFunction(function_) && !FlattenerVerified.FallsOff(function_.body, true)
    && CodeWritten(types, function_.body) && function_.parameters <= given
  }

  /** A function's flattened form has a text. */
  ghost predicate HasText(types: Types, function_: Structured) {
    && Flattenable(function_) && Verifier.InRange(Flatten(function_))
    && X8664Writer.HasText(types, Flatten(function_).blocks, Flatten(function_).order)
  }

  /** A text is written, and a run of the function and one of the text end as the other does, or
      neither ends. */
  ghost predicate CompiledTogether(types: Types, function_: Structured, cells: Cells, s: State) {
    HasText(types, function_) &&
    var (m, cfg) := (IrOpcodes.Meant(types), Flatten(function_));
    var text := X8664Runs.TextOf(types, cfg);
    && (forall result {:trigger FlattenerMeaning.StructuredEnds(m, function_, cells, result)} ::
          FlattenerMeaning.StructuredEnds(m, function_, cells, result) ==>
          exists ending :: X8664Runs.MachineEnds(text, s, ending) && X8664Runs.Agrees(cfg, result, ending))
    && (forall ending :: X8664Runs.MachineEnds(text, s, ending) ==>
          exists result :: FlattenerMeaning.StructuredEnds(m, function_, cells, result) && X8664Runs.Agrees(cfg, result, ending))
    && (FlattenerMeaning.AlwaysUnfinished(m, function_, cells) <==> X8664Runs.MachineRunsForEver(text, s))
  }

  /** Flattening keeps every run, so it is the CFG's that decide. */
  lemma TogetherThrough(types: Types, function_: Structured, given: nat, cells: Cells, s: State)
    requires Flattenable(function_) && X8664Runs.Writable(types, Flatten(function_), given)
    ensures CompiledTogether(types, function_, cells, s) <==> X8664Runs.Together(types, Flatten(function_), cells, s)
  {
    hide Flatten, X8664Runs.TextOf, X8664Runs.MachineEnds, X8664Runs.MachineRunsForEver, X8664Runs.Agrees, Verifier.Accepted, X8664Writer.HasText;
    hide FlattenerMeaning.StructuredEnds, FlattenerMeaning.CfgEnds, FlattenerMeaning.RunsForEver, FlattenerMeaning.AlwaysUnfinished;
    var m := IrOpcodes.Meant(types);
    forall result: Result<Cells>
      ensures FlattenerMeaning.StructuredEnds(m, function_, cells, result) <==> FlattenerMeaning.CfgEnds(m, Flatten(function_), cells, result)
    {
      FlattenerMeaning.FlattenPreserves(m, function_, cells, result);
    }
    FlattenerMeaning.FlattenPreservesDivergence(m, function_, cells);
  }

  ghost predicate PassesABound(types: Types, function_: Structured, cells: Cells) {
    exists bound: U32, end: Cells ::
      FlattenerMeaning.StructuredEnds(IrOpcodes.Meant(types), function_, cells, Exceeded(bound, end))
  }

  /** A compiled function's run and its text's come to the same exactly when no loop passes its
      bound. */
  lemma CompiledRunsAreMeant(types: Types, function_: Structured, given: nat, cells: Cells, s: State)
    requires Compilable(types, function_, given) && X8664Runs.Begins(types, given, s, cells)
    ensures X8664Runs.Writable(types, Flatten(function_), given)
    ensures CompiledTogether(types, function_, cells, s) <==> !PassesABound(types, function_, cells)
  {
    hide Flatten, X8664Runs.Writable, X8664Runs.Begins, CompiledTogether, X8664Runs.Together, X8664Runs.PassesABound, PassesABound, Compilable;
    CompilableIsWritable(types, function_, given);
    TogetherThrough(types, function_, given, cells, s);
    X8664Runs.TogetherExactly(types, Flatten(function_), given, cells, s);
    SamePassed(types, function_, cells);
  }

  lemma CompilableIsWritable(types: Types, function_: Structured, given: nat)
    requires Compilable(types, function_, given)
    ensures Flattenable(function_) && X8664Runs.Writable(types, Flatten(function_), given)
  {
    hide Flatten, X8664Runs.Writable, CodeWritten, FlattenerVerified.FallsOff;
    FlattenIsWritable(types, function_, given);
  }

  lemma SamePassed(types: Types, function_: Structured, cells: Cells)
    requires Flattenable(function_)
    ensures PassesABound(types, function_, cells) <==> X8664Runs.PassesABound(types, Flatten(function_), cells)
  {
    hide Flatten, FlattenerMeaning.StructuredEnds, IrOpcodes.Meant;
    var m, cfg := IrOpcodes.Meant(types), Flatten(function_);
    if X8664Runs.PassesABound(types, cfg, cells) {
      var bound, end := X8664Runs.BoundPassed(types, cfg, cells);
      FlattenerMeaning.FlattenPreserves(m, function_, cells, Exceeded(bound, end));
    }
    if PassesABound(types, function_, cells) {
      var bound: U32, end: Cells :| FlattenerMeaning.StructuredEnds(m, function_, cells, Exceeded(bound, end));
      FlattenerMeaning.FlattenPreserves(m, function_, cells, Exceeded(bound, end));
      var n: nat :| Steps(m, cfg.blocks, Start(cfg.body, cells), n) == Done(Exceeded(bound, end));
      assert X8664Runs.Exceeds(Steps(m, cfg.blocks, Start(cfg.body, cells), n));
    }
  }
}
