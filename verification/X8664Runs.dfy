/** The machine, running a function's whole text, does what the interpreter does with its CFG.

    `MachineFollows`: after any number of the interpreter's steps the machine is at the same place,
    with every value written so far in its cell and below its width; it gives back what the
    interpreter gives back, and aborts where the interpreter stops. Whole runs end together or run
    for ever together, if and only if no loop passes its bound (`TogetherExactly`), and always do
    with the bounds taken away, which leaves the text the same (`TextIsUnbounded`).
  */
module X8664Runs {
  import Ir
  import Interpreter
  import Verifier
  import VerifierSoundness
  import FlattenerMeaning
  import FlattenerOrder
  import opened Words
  import opened IrArithmetic
  import opened IrOpcodes
  import opened X8664Machine
  import opened X8664Labels
  import opened X8664TextLabels
  import opened X8664Writer
  import opened X8664Simulates
  import opened X8664Meaning

  // ----- Where a block is -----

  lemma {:induction false} BlockIsThere(types: Types, blocks: seq<Ir.BasicBlock>, order: seq<nat>, labels: nat, block: nat)
      returns (before: Text, from: nat, after: Text)
    requires HasText(types, blocks, order) && block in order
    ensures block < |blocks| && AllWritten(types, blocks[block].insts)
    ensures BlocksText(types, blocks, order, labels)
         == before + ([BlockLabel(block)] + (InstsText(types, blocks[block].insts, from) + after))
  {
    hide AllWritten, InstsText;
    assert order[0] in order;
    var insts := blocks[order[0]].insts;
    var rest := BlocksText(types, blocks, order[1..], labels + TakenBy(types, insts));
    if block == order[0] {
      before, from, after := [], labels, rest;
    } else {
      before, from, after := BlockIsThere(types, blocks, order[1..], labels + TakenBy(types, insts), block);
      var own := [BlockLabel(order[0])] + InstsText(types, insts, labels);
      assert BlocksText(types, blocks, order, labels) == own + rest;
      before := own + before;
    }
  }

  /** The machine is where the instructions from this one on are written. */
  ghost predicate Stands(types: Types, text: Text, insts: seq<Ir.Inst>, index: nat, pc: nat) {
    && index <= |insts| && AllWritten(types, insts)
    && exists labels: nat, next: nat :: IsAt(text, pc, InstsText(types, insts[index..], labels), next)
  }

  lemma BlockIsFound(types: Types, blocks: seq<Ir.BasicBlock>, order: seq<nat>, block: nat)
    requires HasText(types, blocks, order) && FlattenerOrder.NoRepeats(order) && block in order
    ensures var text := BlocksText(types, blocks, order, 0);
            Stands(types, text, blocks[block].insts, 0, PlaceAfter(text, BlockLabel(block)))
  {
    hide AllWritten, InstsText, BlocksText, LabelsIn, PlaceAfter, Once;
    var text, insts := BlocksText(types, blocks, order, 0), blocks[block].insts;
    var before, from, after := BlockIsThere(types, blocks, order, 0, block);
    BlocksLabels(types, blocks, order, 0);
    var lines := InstsText(types, insts, from);
    PlaceIsFound(text, before, BlockLabel(block), lines + after);
    var pc := |before| + 1;
    assert text[pc..pc + |lines|] == lines;
    assert insts[0..] == insts;
    assert IsAt(text, pc, InstsText(types, insts[0..], from), pc + |lines|);
  }

  /** One instruction's lines, and what follows them. */
  lemma StandsOn(types: Types, text: Text, insts: seq<Ir.Inst>, index: nat, pc: nat) returns (labels: nat, next: nat)
    requires Stands(types, text, insts, index, pc) && index < |insts|
    ensures Written(types, insts[index]) && IsAt(text, pc, InstText(types, insts[index], labels), next)
    ensures Stands(types, text, insts, index + 1, next)
  {
    hide InstText, Written, Taken;
    var whole: nat, end: nat :| IsAt(text, pc, InstsText(types, insts[index..], whole), end);
    labels := whole;
    assert insts[index..][0] == insts[index] && insts[index..][1..] == insts[index + 1..];
    var first, rest := InstText(types, insts[index], labels), InstsText(types, insts[index + 1..], labels + Taken(types, insts[index]));
    next := pc + |first|;
    assert text[pc..end] == first + rest;
    assert text[pc..next] == text[pc..end][..|first|];
    assert text[next..end] == text[pc..end][|first|..];
    assert IsAt(text, next, rest, end);
  }

  // ----- One step -----

  type Watching = (Cells, set<nat>)

  /** What is asked of a CFG and its types: the verifier's acceptance and what it does not look at,
      blocks that are each written once, and instructions that have a text and that it does not
      misread. */
  ghost predicate Writable(types: Types, cfg: Ir.Cfg, given: nat) {
    && Verifier.InRange(cfg) && Verifier.Accepted(cfg) && VerifierSoundness.Consistent(cfg)
    && VerifierSoundness.Complete(cfg, given)
    && HasText(types, cfg.blocks, cfg.order) && FlattenerOrder.NoRepeats(cfg.order)
    && (forall block <- cfg.order :: NoneMisread(types, cfg.blocks[block].insts))
  }

  /** And no loop has a bound: the text counts no turns. */
  ghost predicate Runnable(types: Types, cfg: Ir.Cfg, given: nat) {
    Writable(types, cfg, given) && Machinable(types, cfg)
  }

  ghost predicate Machinable(types: Types, cfg: Ir.Cfg) {
    && HasText(types, cfg.blocks, cfg.order) && FlattenerOrder.NoRepeats(cfg.order)
    && (forall block <- cfg.order :: NoneMisread(types, cfg.blocks[block].insts) && cfg.blocks[block].bound == Ir.NO_BOUND)
  }

  predicate NoneMisread(types: Types, insts: seq<Ir.Inst>) {
    forall inst <- insts :: !Misread(types, inst)
  }

  function TextOf(types: Types, cfg: Ir.Cfg): Text
    requires HasText(types, cfg.blocks, cfg.order)
  {
    BlocksText(types, cfg.blocks, cfg.order, 0)
  }

  ghost predicate HoldsAll(types: Types, s: State, cells: Cells, written: set<nat>) {
    forall value <- written :: HoldsValue(types, s, cells, value)
  }

  /** Every return of the function names a value: the verifier asks it of a function that gives one. */
  predicate GivesAValue(cfg: Ir.Cfg)
    requires Verifier.InRange(cfg)
  {
    forall block <- cfg.order, i | 0 <= i < |cfg.blocks[block].insts| :: cfg.blocks[block].insts[i].Ret? ==> cfg.blocks[block].insts[i].value != 0
  }

  /** A value given back is in `rax`, and a stop is an abort. */
  predicate Agrees<S>(cfg: Ir.Cfg, result: Interpreter.Result<S>, ending: Ending)
    requires Verifier.InRange(cfg)
  {
    match result
    case Left(value, _) => ending.Returned? && (GivesAValue(cfg) ==> ending.value == value)
    case Halted(_, _) => ending.Aborted?
    case _ => false
  }

  ghost predicate Matches(types: Types, cfg: Ir.Cfg, c: Interpreter.Config<Watching>, m: Machine)
    requires Verifier.InRange(cfg) && HasText(types, cfg.blocks, cfg.order)
  {
    match c
    case At(block, index, s, _) =>
      && m.Running? && block < |cfg.blocks| && Stands(types, TextOf(types, cfg), cfg.blocks[block].insts, index, m.pc)
      && HoldsAll(types, m.s, s.0, s.1)
    case Done(result) => m.Finished? && Agrees(cfg, result, m.ending)
  }

  function Watched(types: Types): Interpreter.Meaning<Watching> {
    VerifierSoundness.Watched(Meant(types))
  }

  /** The lines of one instruction, wherever they are. */
  lemma InstRuns(types: Types, cfg: Ir.Cfg, block: nat, index: nat, m: Machine) returns (n: nat, labels: nat, next: nat)
    requires Verifier.InRange(cfg) && HasText(types, cfg.blocks, cfg.order) && FlattenerOrder.NoRepeats(cfg.order)
    requires block in cfg.order && m.Running?
    requires var insts := cfg.blocks[block].insts;
             index < |insts| && Stands(types, TextOf(types, cfg), insts, index, m.pc)
    ensures var insts, text := cfg.blocks[block].insts, TextOf(types, cfg);
            && Written(types, insts[index]) && Stands(types, text, insts, index + 1, next)
            && Arrives(text, Steps(text, m, n), Run(InstText(types, insts[index], labels), m.s), next) && n > 0
  {
    hide InstText, Written, Stands, Arrives, BlocksText, Run, Once, Forward, LabelsIn;
    var insts, text := cfg.blocks[block].insts, TextOf(types, cfg);
    labels, next := StandsOn(types, text, insts, index, m.pc);
    InstLabels(types, insts[index], labels);
    BlocksLabels(types, cfg.blocks, cfg.order, 0);
    InstHasLines(types, insts[index], labels);
    n := RunsInPlace(text, m.pc, InstText(types, insts[index], labels), next, m.s);
  }

  lemma InstHasLines(types: Types, inst: Ir.Inst, labels: nat)
    requires Written(types, inst)
    ensures InstText(types, inst, labels) != []
  {
  }

  /** A value is computed, or the program stops. */
  lemma ComputeFollows(types: Types, cfg: Ir.Cfg, c: Interpreter.Config<Watching>, m: Machine) returns (n: nat)
    requires Verifier.InRange(cfg) && Machinable(types, cfg) && c.At? && c.block in cfg.order && Matches(types, cfg, c, m)
    requires c.index < |cfg.blocks[c.block].insts| && cfg.blocks[c.block].insts[c.index].Compute?
    requires forall value <- Ir.Reads(cfg.blocks[c.block].insts[c.index]) :: value in c.s.1
    ensures n > 0 && Matches(types, cfg, Interpreter.Step(Watched(types), cfg.blocks, c), Steps(TextOf(types, cfg), m, n))
  {
    hide BlocksText, Run, ComputeText, Stands, Typed, Computed, Interpreter.Step, HoldsAll;
    var insts := cfg.blocks[c.block].insts;
    var inst := insts[c.index];
    var labels, next;
    n, labels, next := InstRuns(types, cfg, c.block, c.index, m);
    assert inst in insts;
    ResultIsGiven(types, inst);
    forall value <- inst.operands
      ensures HoldsValue(types, m.s, c.s.0, value)
    {
      ReadHolds(types, m.s, c.s.0, c.s.1, value, inst);
    }
    ComputeStep(types, cfg.blocks, c);
    ComputeSimulates(types, inst, labels, m.s, c.s.0);
    var o, r := Run(ComputeText(types, inst, labels), m.s), Computed(types, inst, c.s.0);
    if r.Gives? {
      StoredHolds(types, m.s, o.s, c.s.0, c.s.1, inst.result, r.value);
    }
  }

  lemma ComputeStep(types: Types, blocks: seq<Ir.BasicBlock>, c: Interpreter.Config<Watching>)
    requires c.At? && c.block < |blocks| && c.index < |blocks[c.block].insts| && blocks[c.block].insts[c.index].Compute?
    requires blocks[c.block].insts[c.index].result != 0
    ensures var inst := blocks[c.block].insts[c.index];
            var r := Computed(types, inst, c.s.0);
            Interpreter.Step(Watched(types), blocks, c) ==
            if r.Gives? then Interpreter.At(c.block, c.index + 1, (c.s.0[inst.result := r.value], c.s.1 + {inst.result}), c.turns)
            else Interpreter.Done(Interpreter.Halted(inst, c.s))
  {
    hide Computed;
    var inst, cells := blocks[c.block].insts[c.index], c.s.0;
    var r := Computed(types, inst, cells);
    var went := Meant(types).compute(inst, cells);
    assert went == if r.Gives? then Interpreter.Next(cells[inst.result := r.value]) else Interpreter.Stop(cells);
    var watched := Watched(types).compute(inst, c.s);
    assert watched == if r.Gives? then Interpreter.Next((cells[inst.result := r.value], c.s.1 + {inst.result})) else Interpreter.Stop((cells, c.s.1));
    assert (cells, c.s.1) == c.s;
  }

  lemma ResultIsGiven(types: Types, inst: Ir.Inst)
    requires inst.Compute? && Typed(types, inst)
    ensures inst.result != 0
  {
  }

  lemma StoredHolds(types: Types, s: State, t: State, cells: Cells, written: set<nat>, result: nat, value: Word)
    requires HoldsAll(types, s, cells, written) && t.cells == s.cells[result := value] && value < Two(types(result))
    ensures HoldsAll(types, t, cells[result := value], written + {result})
  {
    forall v | v in written + {result}
      ensures HoldsValue(types, t, cells[result := value], v)
    {
      if v != result {
        assert HoldsValue(types, s, cells, v);
      }
    }
  }

  /** Into a block of the order, which takes nothing and counts to no bound. */
  lemma EntersBlock(types: Types, cfg: Ir.Cfg, from: nat, to: nat, s: Watching, turns: map<nat, nat>, t: State)
    requires Verifier.InRange(cfg) && Machinable(types, cfg) && to in cfg.order && HoldsAll(types, t, s.0, s.1)
    ensures Matches(types, cfg, Interpreter.Enter(cfg.blocks, from, to, s, turns), Running(PlaceAfter(TextOf(types, cfg), BlockLabel(to)), t))
  {
    hide Stands, BlocksText, PlaceAfter, HoldsAll;
    BlockIsFound(types, cfg.blocks, cfg.order, to);
  }

  lemma JumpFollows(types: Types, cfg: Ir.Cfg, c: Interpreter.Config<Watching>, m: Machine) returns (n: nat)
    requires Verifier.InRange(cfg) && Verifier.Accepted(cfg) && Machinable(types, cfg)
    requires c.At? && c.block in cfg.order && Matches(types, cfg, c, m)
    requires c.index < |cfg.blocks[c.block].insts| && !cfg.blocks[c.block].insts[c.index].Compute?
    requires forall value <- Ir.Reads(cfg.blocks[c.block].insts[c.index]) :: value in c.s.1
    ensures n > 0 && Matches(types, cfg, Interpreter.Step(Watched(types), cfg.blocks, c), Steps(TextOf(types, cfg), m, n))
  {
    hide BlocksText, Run, Stands, Interpreter.Enter, PlaceAfter, GivesAValue, HoldsAll;
    var insts := cfg.blocks[c.block].insts;
    var inst := insts[c.index];
    var labels, next;
    n, labels, next := InstRuns(types, cfg, c.block, c.index, m);
    match inst
    case Br(target, _, _) =>
      JumpRuns(target, m.s);
      VerifierSoundness.JumpsToAnother(cfg, c.block, c.index, target);
      TakesNothing(types, cfg, c.block, c.index, target, c.s);
      EntersBlock(types, cfg, c.block, target, c.s, c.turns, m.s);
    case CondBr(condition, chosen, otherwise, _) =>
      var t := BranchRuns(condition, chosen, otherwise, m.s);
      assert HoldsValue(types, m.s, c.s.0, condition) by { ReadHolds(types, m.s, c.s.0, c.s.1, condition, inst); }
      var to := if CellOf(c.s.0, condition) != 0 then chosen else otherwise;
      VerifierSoundness.JumpsToAnother(cfg, c.block, c.index, to);
      SameCellsHold(types, m.s, t, c.s.0, c.s.1);
      EntersBlock(types, cfg, c.block, to, c.s, c.turns, t);
    case Ret(value, _) =>
      var t := ReturnRuns(value, m.s);
      if value != 0 {
        ReadHolds(types, m.s, c.s.0, c.s.1, value, inst);
      }
      RetGives(cfg, c.block, c.index);
  }

  lemma ReadHolds(types: Types, s: State, cells: Cells, written: set<nat>, value: nat, inst: Ir.Inst)
    requires HoldsAll(types, s, cells, written) && value in Ir.Reads(inst)
    requires forall value <- Ir.Reads(inst) :: value in written
    ensures HoldsValue(types, s, cells, value)
  {
  }

  lemma SameCellsHold(types: Types, s: State, t: State, cells: Cells, written: set<nat>)
    requires HoldsAll(types, s, cells, written) && t.cells == s.cells
    ensures HoldsAll(types, t, cells, written)
  {
    forall v | v in written
      ensures HoldsValue(types, t, cells, v)
    {
      assert HoldsValue(types, s, cells, v);
    }
  }

  lemma RetGives(cfg: Ir.Cfg, block: nat, index: nat)
    requires Verifier.InRange(cfg) && block in cfg.order && index < |cfg.blocks[block].insts| && cfg.blocks[block].insts[index].Ret?
    ensures GivesAValue(cfg) ==> cfg.blocks[block].insts[index].value != 0
  {
  }

  /** A jump without arguments goes to a block without parameters. */
  lemma TakesNothing(types: Types, cfg: Ir.Cfg, block: nat, index: nat, target: nat, s: Watching)
    requires Verifier.InRange(cfg) && Verifier.Accepted(cfg) && Machinable(types, cfg) && block in cfg.order
    requires index < |cfg.blocks[block].insts| && cfg.blocks[block].insts[index].Br? && cfg.blocks[block].insts[index].target == target
    requires Written(types, cfg.blocks[block].insts[index])
    ensures Interpreter.Pass(Watched(types), cfg.blocks, target, [], s) == s && cfg.blocks[block].insts[index].arguments == []
  {
    assert Verifier.AcceptedBlock(cfg, block) && Verifier.AcceptedInst(cfg, block, index);
    assert Verifier.AcceptedTarget(cfg, cfg.blocks[block].insts[index], target);
  }

  // ----- Whole runs -----

  lemma StepFollows(types: Types, cfg: Ir.Cfg, given: nat, c: Interpreter.Config<Watching>, m: Machine) returns (n: nat)
    requires Runnable(types, cfg, given) && c.At? && VerifierSoundness.Came(cfg, c) && Matches(types, cfg, c, m)
    ensures n > 0 && Matches(types, cfg, Interpreter.Step(Watched(types), cfg.blocks, c), Steps(TextOf(types, cfg), m, n))
    ensures VerifierSoundness.Came(cfg, Interpreter.Step(Watched(types), cfg.blocks, c))
  {
    hide Verifier.AcceptedBlock, VerifierSoundness.Consistent, VerifierSoundness.CallsUnchecked, Machinable, Interpreter.Step, Stands, HoldsAll;
    hide VerifierSoundness.ParametersOf, VerifierSoundness.WritesOf, BlocksText;
    VerifierSoundness.StepsSafely(Meant(types), cfg, c);
    assert c.block in cfg.order;
    if cfg.blocks[c.block].insts[c.index].Compute? {
      n := ComputeFollows(types, cfg, c, m);
    } else {
      n := JumpFollows(types, cfg, c, m);
    }
  }

  lemma {:induction false} RunFollows(types: Types, cfg: Ir.Cfg, given: nat, c: Interpreter.Config<Watching>, m: Machine, n: nat) returns (k: nat)
    requires Runnable(types, cfg, given) && VerifierSoundness.Came(cfg, c) && Matches(types, cfg, c, m)
    ensures var end := Interpreter.Steps(Watched(types), cfg.blocks, c, n);
            Matches(types, cfg, end, Steps(TextOf(types, cfg), m, k)) && (end.At? ==> n <= k)
    decreases n
  {
    hide Matches, Interpreter.Step, Step, VerifierSoundness.Came, BlocksText;
    k := 0;
    if c.Done? {
      Interpreter.DoneStays(Watched(types), cfg.blocks, c, n);
    } else if n > 0 {
      var first := StepFollows(types, cfg, given, c, m);
      var next, between := Interpreter.Step(Watched(types), cfg.blocks, c), Steps(TextOf(types, cfg), m, first);
      k := RunFollows(types, cfg, given, next, between, n - 1);
      StepsAdd(TextOf(types, cfg), m, first, k);
      k := first + k;
    }
  }

  /** A call: the arguments are in their cells. */
  ghost predicate Begins(types: Types, given: nat, s: State, cells: Cells) {
    HoldsAll(types, s, cells, VerifierSoundness.Arguments(given))
  }

  /** After any number of the interpreter's steps the machine is where it is, having taken as many
      steps at least. */
  lemma MachineFollows(types: Types, cfg: Ir.Cfg, given: nat, cells: Cells, s: State, n: nat) returns (k: nat)
    requires Runnable(types, cfg, given) && Begins(types, given, s, cells)
    ensures var c := Interpreter.Steps(Watched(types), cfg.blocks, VerifierSoundness.Called(cfg, given, cells), n);
            Matches(types, cfg, c, Steps(TextOf(types, cfg), Running(0, s), k)) && (c.At? ==> n <= k)
  {
    hide Matches, Stands, VerifierSoundness.Safe, VerifierSoundness.CallsUnchecked, Step;
    var c, text := VerifierSoundness.Called(cfg, given, cells), TextOf(types, cfg);
    VerifierSoundness.CallComes(cfg, given, cells);
    var m := Running(1, s);
    StartsAtEntry(types, cfg, given, cells, s);
    k := RunFollows(types, cfg, given, c, m, n);
    k := k + 1;
  }

  /** The text begins with the entry's label. */
  lemma StartsAtEntry(types: Types, cfg: Ir.Cfg, given: nat, cells: Cells, s: State)
    requires Runnable(types, cfg, given) && Begins(types, given, s, cells)
    ensures Step(TextOf(types, cfg), Running(0, s)) == Running(1, s)
    ensures Matches(types, cfg, VerifierSoundness.Called(cfg, given, cells), Running(1, s))
  {
    hide Stands, Verifier.Accepted, VerifierSoundness.CallsUnchecked, InstsText, HoldsAll;
    EntryIsFirst(types, cfg, s);
  }

  lemma EntryIsFirst(types: Types, cfg: Ir.Cfg, s: State)
    requires Verifier.InRange(cfg) && HasText(types, cfg.blocks, cfg.order) && FlattenerOrder.NoRepeats(cfg.order)
    requires cfg.order != [] && cfg.body == cfg.order[0]
    ensures cfg.body < |cfg.blocks| && Step(TextOf(types, cfg), Running(0, s)) == Running(1, s)
    ensures Stands(types, TextOf(types, cfg), cfg.blocks[cfg.body].insts, 0, 1)
  {
    hide Stands, InstsText;
    var text := TextOf(types, cfg);
    assert cfg.order[0] in cfg.order;
    BlockIsFound(types, cfg.blocks, cfg.order, cfg.body);
    assert text[0] == BlockLabel(cfg.body);
    assert PlaceAfter(text, BlockLabel(cfg.body)) == 1;
  }

  ghost predicate MachineEnds(text: Text, s: State, ending: Ending) {
    exists k: nat :: Steps(text, Running(0, s), k) == Finished(ending)
  }

  ghost predicate MachineRunsForEver(text: Text, s: State) {
    forall k: nat :: Steps(text, Running(0, s), k).Running?
  }

  /** What a run of the interpreter is, watched or not. */
  lemma Unwatched(types: Types, cfg: Ir.Cfg, given: nat, cells: Cells, n: nat)
    requires Verifier.InRange(cfg)
    ensures var c := Interpreter.Steps(Watched(types), cfg.blocks, VerifierSoundness.Called(cfg, given, cells), n);
            var plain := Interpreter.Steps(Meant(types), cfg.blocks, Interpreter.Start(cfg.body, cells), n);
            && (c.At? <==> plain.At?)
            && (c.Done? ==> plain.result == VerifierSoundness.Unwatched(c.result)
                            && forall ending :: Agrees(cfg, c.result, ending) == Agrees(cfg, plain.result, ending))
  {
    hide Interpreter.Steps, GivesAValue;
    VerifierSoundness.WatchingIsFaithful(Meant(types), cfg.blocks, VerifierSoundness.Called(cfg, given, cells), n);
  }

  lemma InterpreterEndsFirst(types: Types, cfg: Ir.Cfg, given: nat, cells: Cells, s: State, result: Interpreter.Result<Cells>)
      returns (ending: Ending)
    requires Runnable(types, cfg, given) && Begins(types, given, s, cells)
    requires FlattenerMeaning.CfgEnds(Meant(types), cfg, cells, result)
    ensures MachineEnds(TextOf(types, cfg), s, ending) && Agrees(cfg, result, ending)
  {
    hide Interpreter.Steps, Steps, BlocksText, Agrees, Stands, Begins, VerifierSoundness.Complete, Verifier.Accepted;
    var n: nat :| Interpreter.Steps(Meant(types), cfg.blocks, Interpreter.Start(cfg.body, cells), n) == Interpreter.Done(result);
    var k := MachineFollows(types, cfg, given, cells, s, n);
    Unwatched(types, cfg, given, cells, n);
    ending := Steps(TextOf(types, cfg), Running(0, s), k).ending;
  }

  lemma MachineEndsFirst(types: Types, cfg: Ir.Cfg, given: nat, cells: Cells, s: State, ending: Ending)
      returns (result: Interpreter.Result<Cells>)
    requires Runnable(types, cfg, given) && Begins(types, given, s, cells)
    requires MachineEnds(TextOf(types, cfg), s, ending)
    ensures FlattenerMeaning.CfgEnds(Meant(types), cfg, cells, result) && Agrees(cfg, result, ending)
  {
    hide Interpreter.Steps, Steps, BlocksText, Agrees, Stands, Begins, VerifierSoundness.Complete, Verifier.Accepted;
    var text := TextOf(types, cfg);
    var k: nat :| Steps(text, Running(0, s), k) == Finished(ending);
    var later := MachineFollows(types, cfg, given, cells, s, k + 1);
    Unwatched(types, cfg, given, cells, k + 1);
    OneEnding(text, Running(0, s), k, later);
    result := Interpreter.Steps(Meant(types), cfg.blocks, Interpreter.Start(cfg.body, cells), k + 1).result;
  }

  lemma NeitherEnds(types: Types, cfg: Ir.Cfg, given: nat, cells: Cells, s: State)
    requires Runnable(types, cfg, given) && Begins(types, given, s, cells)
    ensures FlattenerMeaning.RunsForEver(Meant(types), cfg, cells) <==> MachineRunsForEver(TextOf(types, cfg), s)
  {
    hide Interpreter.Steps, Steps, BlocksText, Agrees, Begins, VerifierSoundness.Complete, Verifier.Accepted;
    var text := TextOf(types, cfg);
    if n: nat :| !Interpreter.Steps(Meant(types), cfg.blocks, Interpreter.Start(cfg.body, cells), n).At? {
      var result := Interpreter.Steps(Meant(types), cfg.blocks, Interpreter.Start(cfg.body, cells), n).result;
      var ending := InterpreterEndsFirst(types, cfg, given, cells, s, result);
    }
    if k: nat :| !Steps(text, Running(0, s), k).Running? {
      var result := MachineEndsFirst(types, cfg, given, cells, s, Steps(text, Running(0, s), k).ending);
    }
  }

  // ----- Bounds -----

  /** The same CFG, its loops without bounds. */
  function Unbounded(cfg: Ir.Cfg): Ir.Cfg {
    cfg.(blocks := seq(|cfg.blocks|, b requires 0 <= b < |cfg.blocks| => cfg.blocks[b].(bound := Ir.NO_BOUND)), realTime := false)
  }

  lemma {:induction false} SameText(types: Types, cfg: Ir.Cfg, order: seq<nat>, labels: nat)
    requires HasText(types, cfg.blocks, order)
    ensures HasText(types, Unbounded(cfg).blocks, order)
    ensures BlocksText(types, Unbounded(cfg).blocks, order, labels) == BlocksText(types, cfg.blocks, order, labels)
  {
    hide AllWritten, InstsText, TakenBy;
    if order != [] {
      assert order[0] in order;
      SameText(types, cfg, order[1..], labels + TakenBy(types, cfg.blocks[order[0]].insts));
    }
  }

  lemma SameDominators(cfg: Ir.Cfg, block: nat)
    ensures Verifier.DominatorsOf(Unbounded(cfg), block) == Verifier.DominatorsOf(cfg, block)
  {
    var u := Unbounded(cfg);
    assert forall from, to :: Verifier.IsEdge(u, from, to) == Verifier.IsEdge(cfg, from, to);
    assert forall path :: Verifier.Leads(u, path, block) == Verifier.Leads(cfg, path, block);
    assert forall first :: Verifier.Dominates(u, first, block) == Verifier.Dominates(cfg, first, block);
  }

  lemma UnboundedIsAccepted(cfg: Ir.Cfg)
    requires Verifier.InRange(cfg) && Verifier.Accepted(cfg)
    ensures Verifier.InRange(Unbounded(cfg)) && Verifier.Accepted(Unbounded(cfg))
  {
    hide Verifier.DominatorsOf;
    var u := Unbounded(cfg);
    forall block | block in u.order
      ensures Verifier.AcceptedBlock(u, block)
    {
      assert Verifier.AcceptedBlock(cfg, block);
      SameDominators(cfg, block);
      forall i | 0 <= i < |u.blocks[block].insts|
        ensures Verifier.AcceptedInst(u, block, i)
      {
        assert Verifier.AcceptedInst(cfg, block, i);
        var inst := cfg.blocks[block].insts[i];
        forall target | target in Ir.Targets(inst)
          ensures Verifier.AcceptedTarget(u, inst, target)
        {
          assert Verifier.AcceptedTarget(cfg, inst, target);
        }
        forall value | value in Ir.Checked(inst)
          ensures Verifier.IsVisible(u, Verifier.DominatorsOf(u, block), value, block, i)
        {
          assert Verifier.IsVisible(cfg, Verifier.DominatorsOf(cfg, block), value, block, i);
        }
      }
    }
  }

  lemma UnboundedIsRunnable(types: Types, cfg: Ir.Cfg, given: nat)
    requires Writable(types, cfg, given)
    ensures Runnable(types, Unbounded(cfg), given) && TextOf(types, Unbounded(cfg)) == TextOf(types, cfg)
    ensures GivesAValue(Unbounded(cfg)) == GivesAValue(cfg)
  {
    hide Verifier.AcceptedBlock, AllWritten, NoneMisread;
    UnboundedIsAccepted(cfg);
    SameText(types, cfg, cfg.order, 0);
    UnboundedIsComplete(cfg, given);
  }

  lemma UnboundedIsComplete(cfg: Ir.Cfg, given: nat)
    requires Verifier.InRange(cfg) && VerifierSoundness.Consistent(cfg) && VerifierSoundness.Complete(cfg, given)
    ensures Verifier.InRange(Unbounded(cfg)) && VerifierSoundness.Consistent(Unbounded(cfg)) && VerifierSoundness.Complete(Unbounded(cfg), given)
    ensures GivesAValue(Unbounded(cfg)) == GivesAValue(cfg)
  {
    var u := Unbounded(cfg);
    forall value | value in u.values
      ensures VerifierSoundness.Owned(u, value)
    {
      assert VerifierSoundness.Owned(cfg, value);
    }
    assert VerifierSoundness.ParametersOf(u) == VerifierSoundness.ParametersOf(cfg);
    SameCalls(cfg);
  }

  lemma SameCalls(cfg: Ir.Cfg)
    requires Verifier.InRange(cfg)
    ensures VerifierSoundness.CallsUnchecked(Unbounded(cfg)) == VerifierSoundness.CallsUnchecked(cfg)
    ensures GivesAValue(Unbounded(cfg)) == GivesAValue(cfg)
  {
    var u := Unbounded(cfg);
    assert forall block <- cfg.order :: u.blocks[block].insts == cfg.blocks[block].insts;
    assert GivesAValue(u) ==> GivesAValue(cfg) by {
      forall block <- cfg.order, i | GivesAValue(u) && 0 <= i < |cfg.blocks[block].insts| && cfg.blocks[block].insts[i].Ret?
        ensures cfg.blocks[block].insts[i].value != 0
      {
        assert u.blocks[block].insts[i].Ret?;
      }
    }
  }

  lemma {:induction false} SameLoops(cfg: Ir.Cfg, loop: nat)
    ensures Interpreter.LoopsAround(Unbounded(cfg).blocks, loop) == Interpreter.LoopsAround(cfg.blocks, loop)
    decreases loop
  {
    if loop != 0 && loop < |cfg.blocks| && cfg.blocks[loop].outer < loop {
      SameLoops(cfg, cfg.blocks[loop].outer);
    }
  }

  predicate Exceeds<S>(c: Interpreter.Config<S>) {
    c.Done? && c.result.Exceeded?
  }

  lemma SameStep<S>(m: Interpreter.Meaning<S>, cfg: Ir.Cfg, c: Interpreter.Config<S>)
    ensures var next := Interpreter.Step(m, cfg.blocks, c); Exceeds(next) || next == Interpreter.Step(m, Unbounded(cfg).blocks, c)
  {
    hide Interpreter.LoopsAround, Interpreter.Perform, Interpreter.Chosen;
    if c.At? && c.block < |cfg.blocks| {
      SameLoops(cfg, cfg.blocks[c.block].loop);
    }
  }

  /** A bound does nothing but stop a run. */
  lemma {:induction false} BoundsOnlyStop<S>(m: Interpreter.Meaning<S>, cfg: Ir.Cfg, c: Interpreter.Config<S>, n: nat)
    ensures var end := Interpreter.Steps(m, cfg.blocks, c, n); Exceeds(end) || end == Interpreter.Steps(m, Unbounded(cfg).blocks, c, n)
    decreases n
  {
    hide Interpreter.Step, Unbounded;
    if n != 0 {
      var next := Interpreter.Step(m, cfg.blocks, c);
      SameStep(m, cfg, c);
      BoundsOnlyStop(m, cfg, next, n - 1);
      if Exceeds(next) {
        Interpreter.DoneStays(m, cfg.blocks, next, n - 1);
      }
    }
  }

  /** Some loop passes its bound. */
  ghost predicate PassesABound(types: Types, cfg: Ir.Cfg, cells: Cells) {
    exists n: nat :: Exceeds(Interpreter.Steps(Meant(types), cfg.blocks, Interpreter.Start(cfg.body, cells), n))
  }

  lemma SameEnds(types: Types, cfg: Ir.Cfg, cells: Cells, result: Interpreter.Result<Cells>)
    requires !result.Exceeded?
    ensures FlattenerMeaning.CfgEnds(Meant(types), cfg, cells, result) ==> FlattenerMeaning.CfgEnds(Meant(types), Unbounded(cfg), cells, result)
    ensures !PassesABound(types, cfg, cells) && FlattenerMeaning.CfgEnds(Meant(types), Unbounded(cfg), cells, result) ==>
              FlattenerMeaning.CfgEnds(Meant(types), cfg, cells, result)
  {
    hide Interpreter.Steps, Unbounded;
    var m, start := Meant(types), Interpreter.Start(cfg.body, cells);
    assert Unbounded(cfg).body == cfg.body by { SameBody(cfg); }
    if n: nat :| Interpreter.Steps(m, cfg.blocks, start, n) == Interpreter.Done(result) {
      BoundsOnlyStop(m, cfg, start, n);
      assert Interpreter.Steps(m, Unbounded(cfg).blocks, start, n) == Interpreter.Done(result);
    }
    if n: nat :| !PassesABound(types, cfg, cells) && Interpreter.Steps(m, Unbounded(cfg).blocks, start, n) == Interpreter.Done(result) {
      BoundsOnlyStop(m, cfg, start, n);
      assert Interpreter.Steps(m, cfg.blocks, start, n) == Interpreter.Done(result);
    }
  }

  lemma SameBody(cfg: Ir.Cfg)
    ensures Unbounded(cfg).body == cfg.body
  {
  }

  /** Where the interpreter ends, other than by a bound, the machine does; and the other way round
      but for runs the interpreter stops at a bound. The value given back is the same, a stop is an
      abort, and the machine never faults and never runs past the text. */
  lemma EndsTogether(types: Types, cfg: Ir.Cfg, given: nat, cells: Cells, s: State)
    requires Writable(types, cfg, given) && Begins(types, given, s, cells)
    ensures forall result {:trigger FlattenerMeaning.CfgEnds(Meant(types), cfg, cells, result)} ::
              FlattenerMeaning.CfgEnds(Meant(types), cfg, cells, result) && !result.Exceeded? ==>
              exists ending :: MachineEnds(TextOf(types, cfg), s, ending) && Agrees(cfg, result, ending)
    ensures forall ending :: MachineEnds(TextOf(types, cfg), s, ending) ==>
              || PassesABound(types, cfg, cells)
              || exists result :: FlattenerMeaning.CfgEnds(Meant(types), cfg, cells, result) && Agrees(cfg, result, ending)
    ensures forall ending :: MachineEnds(TextOf(types, cfg), s, ending) ==> ending.Returned? || ending.Aborted?
  {
    hide BlocksText, Stands, VerifierSoundness.Complete, Verifier.Accepted, FlattenerMeaning.CfgEnds, GivesAValue, PassesABound;
    hide VerifierSoundness.Consistent, Begins, MachineEnds, Runnable;
    var u := Unbounded(cfg);
    UnboundedIsRunnable(types, cfg, given);
    forall result | FlattenerMeaning.CfgEnds(Meant(types), cfg, cells, result) && !result.Exceeded?
      ensures exists ending :: MachineEnds(TextOf(types, cfg), s, ending) && Agrees(cfg, result, ending)
    {
      SameEnds(types, cfg, cells, result);
      var ending := InterpreterEndsFirst(types, u, given, cells, s, result);
    }
    forall ending | MachineEnds(TextOf(types, cfg), s, ending)
      ensures || PassesABound(types, cfg, cells)
              || exists result :: FlattenerMeaning.CfgEnds(Meant(types), cfg, cells, result) && Agrees(cfg, result, ending)
      ensures ending.Returned? || ending.Aborted?
    {
      var result := MachineEndsFirst(types, u, given, cells, s, ending);
      SameEnds(types, cfg, cells, result);
    }
  }

  /** And, but for such runs, one runs for ever exactly when the other does. */
  lemma EndlessTogether(types: Types, cfg: Ir.Cfg, given: nat, cells: Cells, s: State)
    requires Writable(types, cfg, given) && Begins(types, given, s, cells) && !PassesABound(types, cfg, cells)
    ensures FlattenerMeaning.RunsForEver(Meant(types), cfg, cells) <==> MachineRunsForEver(TextOf(types, cfg), s)
  {
    hide BlocksText, Stands, VerifierSoundness.Complete, Verifier.Accepted, GivesAValue, Interpreter.Steps;
    hide VerifierSoundness.Consistent, Begins, Unbounded, MachineRunsForEver, Runnable;
    UnboundedIsRunnable(types, cfg, given);
    NeitherEnds(types, Unbounded(cfg), given, cells, s);
    SameBody(cfg);
    forall n: nat
      ensures Interpreter.Steps(Meant(types), cfg.blocks, Interpreter.Start(cfg.body, cells), n)
           == Interpreter.Steps(Meant(types), Unbounded(cfg).blocks, Interpreter.Start(cfg.body, cells), n)
    {
      BoundsOnlyStop(Meant(types), cfg, Interpreter.Start(cfg.body, cells), n);
    }
  }

  lemma BoundPassed(types: Types, cfg: Ir.Cfg, cells: Cells) returns (bound: Ir.U32, end: Cells)
    requires PassesABound(types, cfg, cells)
    ensures FlattenerMeaning.CfgEnds(Meant(types), cfg, cells, Interpreter.Exceeded(bound, end))
  {
    var n: nat :| Exceeds(Interpreter.Steps(Meant(types), cfg.blocks, Interpreter.Start(cfg.body, cells), n));
    var c := Interpreter.Steps(Meant(types), cfg.blocks, Interpreter.Start(cfg.body, cells), n);
    bound, end := c.result.bound, c.result.s;
  }

  /** A run of the CFG and one of its text: each ends as the other does, or neither ends. */
  ghost predicate Together(types: Types, cfg: Ir.Cfg, cells: Cells, s: State)
    requires Verifier.InRange(cfg) && HasText(types, cfg.blocks, cfg.order)
  {
    var (m, text) := (Meant(types), TextOf(types, cfg));
    && (forall result {:trigger FlattenerMeaning.CfgEnds(m, cfg, cells, result)} :: FlattenerMeaning.CfgEnds(m, cfg, cells, result) ==>
          exists ending :: MachineEnds(text, s, ending) && Agrees(cfg, result, ending))
    && (forall ending :: MachineEnds(text, s, ending) ==>
          exists result :: FlattenerMeaning.CfgEnds(m, cfg, cells, result) && Agrees(cfg, result, ending))
    && (FlattenerMeaning.RunsForEver(m, cfg, cells) <==> MachineRunsForEver(text, s))
  }

  /** They do exactly when no loop passes its bound. */
  lemma TogetherExactly(types: Types, cfg: Ir.Cfg, given: nat, cells: Cells, s: State)
    requires Writable(types, cfg, given) && Begins(types, given, s, cells)
    ensures Together(types, cfg, cells, s) <==> !PassesABound(types, cfg, cells)
  {
    hide TextOf, MachineEnds, Verifier.Accepted, Begins, FlattenerMeaning.RunsForEver, MachineRunsForEver, PassesABound;
    hide HasText, GivesAValue;
    EndsTogether(types, cfg, given, cells, s);
    if PassesABound(types, cfg, cells) {
      var bound, end := BoundPassed(types, cfg, cells);
      assert forall ending :: !Agrees(cfg, Interpreter.Exceeded(bound, end), ending);
    } else {
      EndlessTogether(types, cfg, given, cells, s);
      forall result | FlattenerMeaning.CfgEnds(Meant(types), cfg, cells, result)
        ensures !result.Exceeded?
      {
        EndsNowhere(types, cfg, cells, result);
      }
    }
  }

  lemma EndsNowhere(types: Types, cfg: Ir.Cfg, cells: Cells, result: Interpreter.Result<Cells>)
    requires FlattenerMeaning.CfgEnds(Meant(types), cfg, cells, result) && !PassesABound(types, cfg, cells)
    ensures !result.Exceeded?
  {
    var n: nat :| Interpreter.Steps(Meant(types), cfg.blocks, Interpreter.Start(cfg.body, cells), n) == Interpreter.Done(result);
    assert !Exceeds(Interpreter.Steps(Meant(types), cfg.blocks, Interpreter.Start(cfg.body, cells), n));
  }

  /** No loop carries a bound other than this one. */
  ghost predicate BoundedBy(cfg: Ir.Cfg, b: Ir.U32)
    requires Verifier.InRange(cfg)
  {
    forall block <- cfg.order :: cfg.blocks[block].bound == Ir.NO_BOUND || cfg.blocks[block].bound == b
  }

  /** Without bounds none is passed. */
  lemma PassesNone(types: Types, cfg: Ir.Cfg, given: nat, cells: Cells, s: State)
    requires Writable(types, cfg, given) && BoundedBy(cfg, Ir.NO_BOUND) && Begins(types, given, s, cells)
    ensures !PassesABound(types, cfg, cells)
  {
    hide Verifier.Accepted, Begins, TextOf, MachineEnds, PassesABound, GivesAValue;
    if PassesABound(types, cfg, cells) {
      var bound, end := BoundPassed(types, cfg, cells);
      var ending := InterpreterEndsFirst(types, cfg, given, cells, s, Interpreter.Exceeded(bound, end));
    }
  }

  /** So the text runs as the CFG without its bounds does, in every run. */
  lemma TextIsUnbounded(types: Types, cfg: Ir.Cfg, given: nat, cells: Cells, s: State)
    requires Writable(types, cfg, given) && Begins(types, given, s, cells)
    ensures Writable(types, Unbounded(cfg), given) && TextOf(types, Unbounded(cfg)) == TextOf(types, cfg)
    ensures Together(types, Unbounded(cfg), cells, s)
  {
    hide Begins, Together, PassesABound;
    UnboundedIsRunnable(types, cfg, given);
    PassesNone(types, Unbounded(cfg), given, cells, s);
    TogetherExactly(types, Unbounded(cfg), given, cells, s);
  }
}
