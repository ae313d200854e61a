/** The inputs the text misreads. A true bool, sign extended: the verifier admits it (`verify_types`
    asks a whole number of `sext`, or a bool), and `widen` has no case for one bit. And a constant
    with bits above its width, divided: the verifier does not look at a constant's bits, the
    interpreter's unsigned quotient is not masked, and the text masks every quotient.
  */
module X8664Extends {
  import Ir
  import Interpreter
  import Verifier
  import VerifierSoundness
  import FlattenerMeaning
  import FlattenerOrder
  import opened Words
  import opened IrArithmetic
  import opened IrOpcodes
  import opened WholeOperators
  import opened X8664Machine
  import opened X8664Writer
  import opened X8664Simulates
  import opened X8664Meaning
  import opened X8664Runs

  /** A function that gives back a true bool, sign extended. */
  const EXTENDS_TRUE: Ir.Cfg :=
    Ir.Cfg([Ir.BasicBlock([], [], false, Ir.NO_BOUND, 0, 0), Ir.BasicBlock(EXTENDING, [], false, Ir.NO_BOUND, 0, 0)],
           [1], 1, map[1 := Ir.Result(1, 0), 2 := Ir.Result(1, 1)], false)

  const EXTENDING: seq<Ir.Inst> :=
    [Ir.Compute(Ir.Const, [], 1, 1, Ir.Position(0, 0)), Ir.Compute(Ir.SExt, [1], 2, 0, Ir.Position(0, 0)), Ir.Ret(2, Ir.Position(0, 0))]

  function ExtendingTypes(w: Width): Types {
    (value: nat) => if value == 1 then 1 as Width else w
  }

  /** It is all that is asked but for the extended bool, and the machine gives back 1, where the
      interpreter gives back all ones. */
  lemma BoolExtendedDiffers(w: Width, s: State)
    requires w != 1
    ensures Verifier.InRange(EXTENDS_TRUE) && Verifier.Accepted(EXTENDS_TRUE)
    ensures VerifierSoundness.Consistent(EXTENDS_TRUE) && VerifierSoundness.Complete(EXTENDS_TRUE, 0)
    ensures HasText(ExtendingTypes(w), EXTENDS_TRUE.blocks, EXTENDS_TRUE.order)
    ensures MachineEnds(TextOf(ExtendingTypes(w), EXTENDS_TRUE), s, Returned(1))
    ensures FlattenerMeaning.CfgEnds(Meant(ExtendingTypes(w)), EXTENDS_TRUE, map[], Interpreter.Left(Two(w) - 1, map[1 := 1, 2 := Two(w) - 1]))
  {
    ExtendingIsAccepted();
    ExtendingHasText(w);
    ExtendingInterpreted(w);
    ExtendingOnTheMachine(w, s);
  }

  lemma ExtendingIsAccepted()
    ensures Verifier.InRange(EXTENDS_TRUE) && Verifier.Accepted(EXTENDS_TRUE)
    ensures VerifierSoundness.Consistent(EXTENDS_TRUE) && VerifierSoundness.Complete(EXTENDS_TRUE, 0)
  {
    hide Verifier.Accepted;
    ExtendingChecks();
    var cfg := EXTENDS_TRUE;
    forall value | value in cfg.values
      ensures VerifierSoundness.Owned(cfg, value)
    {
      assert value == 1 || value == 2;
    }
    assert VerifierSoundness.ParametersOf(cfg) == {};
  }

  lemma ExtendingChecks()
    ensures Verifier.InRange(EXTENDS_TRUE) && Verifier.Accepted(EXTENDS_TRUE)
  {
    hide Verifier.DominatorsOf;
    var cfg := EXTENDS_TRUE;
    forall i | 0 <= i < 3
      ensures Verifier.AcceptedInst(cfg, 1, i)
    {
      assert Ir.Checked(EXTENDING[i]) == if i == 0 then [] else [i];
    }
    assert Verifier.AcceptedBlock(cfg, 1);
  }

  lemma ExtendingHasText(w: Width)
    requires w != 1
    ensures HasText(ExtendingTypes(w), EXTENDS_TRUE.blocks, EXTENDS_TRUE.order)
  {
    var types := ExtendingTypes(w);
    assert forall i | 0 <= i < 3 :: Written(types, EXTENDING[i]);
  }

  lemma ExtendingInterpreted(w: Width)
    requires w != 1
    ensures FlattenerMeaning.CfgEnds(Meant(ExtendingTypes(w)), EXTENDS_TRUE, map[], Interpreter.Left(Two(w) - 1, map[1 := 1, 2 := Two(w) - 1]))
  {
    hide UnaryMeaning, Interpreter.Steps, FlattenerMeaning.RunsForEver;
    var types, m, blocks := ExtendingTypes(w), Meant(ExtendingTypes(w)), EXTENDS_TRUE.blocks;
    var first: Cells := map[1 := 1];
    TrueIsAllOnes(w);
    Begins(m, EXTENDS_TRUE, map[]);
    Computes(types, EXTENDS_TRUE, map[], 0, map[], 1);
    Computes(types, EXTENDS_TRUE, map[], 1, first, Two(w) - 1);
    GivesBack(types, EXTENDS_TRUE, map[], 2, first[2 := Two(w) - 1]);
  }

  // ----- A function of one block, run by the interpreter -----

  /** A run from the beginning of the only block has come to an instruction of it. */
  ghost predicate Comes(m: Interpreter.Meaning<Cells>, cfg: Ir.Cfg, begun: Cells, index: nat, cells: Cells) {
    Interpreter.Steps(m, cfg.blocks, Interpreter.Start(cfg.body, begun), index) == Interpreter.At(cfg.body, index, cells, map[])
  }

  lemma Begins(m: Interpreter.Meaning<Cells>, cfg: Ir.Cfg, begun: Cells)
    ensures Comes(m, cfg, begun, 0, begun)
  {
  }

  lemma Computes(types: Types, cfg: Ir.Cfg, begun: Cells, index: nat, cells: Cells, value: Word)
    requires Comes(Meant(types), cfg, begun, index, cells)
    requires cfg.body < |cfg.blocks| && index < |cfg.blocks[cfg.body].insts|
    requires var inst := cfg.blocks[cfg.body].insts[index];
             inst.Compute? && inst.result != 0 && Computed(types, inst, cells) == Gives(value)
    ensures Comes(Meant(types), cfg, begun, index + 1, cells[cfg.blocks[cfg.body].insts[index].result := value])
  {
    hide Computed;
    var m, inst := Meant(types), cfg.blocks[cfg.body].insts[index];
    var c := Interpreter.At(cfg.body, index, cells, map[]);
    assert m.compute(inst, cells) == Interpreter.Next(cells[inst.result := value]);
    StepMore(m, cfg.blocks, Interpreter.Start(cfg.body, begun), c, index);
  }

  lemma GivesBack(types: Types, cfg: Ir.Cfg, begun: Cells, index: nat, cells: Cells)
    requires Comes(Meant(types), cfg, begun, index, cells)
    requires cfg.body < |cfg.blocks| && index < |cfg.blocks[cfg.body].insts|
    requires cfg.blocks[cfg.body].insts[index].Ret? && cfg.blocks[cfg.body].insts[index].value != 0
    ensures FlattenerMeaning.CfgEnds(Meant(types), cfg, begun, Interpreter.Left(CellOf(cells, cfg.blocks[cfg.body].insts[index].value), cells))
  {
    hide Computed;
    StepMore(Meant(types), cfg.blocks, Interpreter.Start(cfg.body, begun), Interpreter.At(cfg.body, index, cells, map[]), index);
  }

  lemma StepMore<S>(m: Interpreter.Meaning<S>, blocks: seq<Ir.BasicBlock>, begun: Interpreter.Config<S>, c: Interpreter.Config<S>, n: nat)
    requires Interpreter.Steps(m, blocks, begun, n) == c
    ensures Interpreter.Steps(m, blocks, begun, n + 1) == Interpreter.Step(m, blocks, c)
  {
    hide Interpreter.Step;
    Interpreter.StepsAdd(m, blocks, begun, n, 1);
    assert Interpreter.Steps(m, blocks, c, 1) == Interpreter.Steps(m, blocks, Interpreter.Step(m, blocks, c), 0);
  }

  lemma TrueIsAllOnes(w: Width)
    ensures UnaryMeaning(SignExtended(1), w, 1) == Two(w) - 1
  {
    WidenIsSigned(1, 1);
    CastIsLowBits(-1, w);
    FloorIs(-1, Two(w), -1, Two(w) - 1);
  }

  lemma ExtendingOnTheMachine(w: Width, s: State)
    requires w != 1 && Verifier.InRange(EXTENDS_TRUE) && HasText(ExtendingTypes(w), EXTENDS_TRUE.blocks, EXTENDS_TRUE.order)
    ensures MachineEnds(TextOf(ExtendingTypes(w), EXTENDS_TRUE), s, Returned(1))
  {
    hide Run, BlocksText, Stands, ConstantText, UnaryText, ReturnText, Reaches, ExtendingTypes, Typed, HasText;
    var types, cfg := ExtendingTypes(w), EXTENDS_TRUE;
    ExtendingText(w);
    EntryIsReached(types, cfg, s);
    ConstantSimulates(1, 1, s);
    var t0 := Run(ConstantText(1, 1), s).s;
    OneGoes(types, cfg, s, 0, s, t0);
    var t1 := ExtendsToOne(w, t0);
    OneGoes(types, cfg, s, 1, t0, t1);
    LastReturns(types, cfg, s, 2, t1);
  }

  // ----- A function of one block, run by the machine -----

  /** A run has come to the lines of an instruction of the entry block. */
  ghost predicate Reaches(types: Types, cfg: Ir.Cfg, begun: State, index: nat, s: State)
    requires Verifier.InRange(cfg) && HasText(types, cfg.blocks, cfg.order) && cfg.body in cfg.order
  {
    exists n: nat, pc: nat ::
      Steps(TextOf(types, cfg), Running(0, begun), n) == Running(pc, s) && Stands(types, TextOf(types, cfg), cfg.blocks[cfg.body].insts, index, pc)
  }

  ghost predicate Alone(types: Types, cfg: Ir.Cfg) {
    && Verifier.InRange(cfg) && HasText(types, cfg.blocks, cfg.order) && FlattenerOrder.NoRepeats(cfg.order)
    && cfg.order == [cfg.body]
  }

  lemma EntryIsReached(types: Types, cfg: Ir.Cfg, s: State)
    requires Alone(types, cfg)
    ensures Reaches(types, cfg, s, 0, s)
  {
    hide BlocksText, Stands, Step;
    EntryIsFirst(types, cfg, s);
    var text := TextOf(types, cfg);
    assert Steps(text, Running(0, s), 1) == Steps(text, Running(1, s), 0);
  }

  lemma OneGoes(types: Types, cfg: Ir.Cfg, begun: State, index: nat, s: State, t: State)
    requires Alone(types, cfg) && index < |cfg.blocks[cfg.body].insts| && Reaches(types, cfg, begun, index, s)
    requires Written(types, cfg.blocks[cfg.body].insts[index])
    requires forall labels: nat :: Run(InstText(types, cfg.blocks[cfg.body].insts[index], labels), s) == Goes(t)
    ensures Reaches(types, cfg, begun, index + 1, t)
  {
    hide BlocksText, Stands, InstText, Run, Step, Written;
    var text, insts := TextOf(types, cfg), cfg.blocks[cfg.body].insts;
    var n: nat, pc: nat :| Steps(text, Running(0, begun), n) == Running(pc, s) && Stands(types, text, insts, index, pc);
    var more, labels, next := InstRuns(types, cfg, cfg.body, index, Running(pc, s));
    StepsAdd(text, Running(0, begun), n, more);
  }

  lemma LastReturns(types: Types, cfg: Ir.Cfg, begun: State, index: nat, s: State)
    requires Alone(types, cfg) && index < |cfg.blocks[cfg.body].insts| && Reaches(types, cfg, begun, index, s)
    requires cfg.blocks[cfg.body].insts[index].Ret? && cfg.blocks[cfg.body].insts[index].value != 0
    ensures MachineEnds(TextOf(types, cfg), begun, Returned(Cell(s, cfg.blocks[cfg.body].insts[index].value)))
  {
    hide BlocksText, Stands, ReturnText, Run, Step;
    var text, insts := TextOf(types, cfg), cfg.blocks[cfg.body].insts;
    var n: nat, pc: nat :| Steps(text, Running(0, begun), n) == Running(pc, s) && Stands(types, text, insts, index, pc);
    var more, labels, next := InstRuns(types, cfg, cfg.body, index, Running(pc, s));
    var t := ReturnRuns(insts[index].value, s);
    StepsAdd(text, Running(0, begun), n, more);
  }

  lemma ExtendingText(w: Width)
    requires w != 1 && HasText(ExtendingTypes(w), EXTENDS_TRUE.blocks, EXTENDS_TRUE.order)
    ensures Written(ExtendingTypes(w), EXTENDING[0]) && Written(ExtendingTypes(w), EXTENDING[1])
    ensures forall labels: nat :: InstText(ExtendingTypes(w), EXTENDING[0], labels) == ConstantText(1, 1)
    ensures forall labels: nat :: InstText(ExtendingTypes(w), EXTENDING[1], labels) == UnaryText(SignExtended(1), w, 1, 2)
  {
  }

  lemma ExtendsToOne(w: Width, s: State) returns (t: State)
    requires w != 1 && Cell(s, 1) == 1
    ensures Run(UnaryText(SignExtended(1), w, 1, 2), s) == Goes(t) && Cell(t, 2) == 1
  {
    hide Run, Mask;
    var end := EndText(w, 2);
    var u := UnaryRuns(SignExtended(1), 1, end, s);
    EndRuns(w, 2, u);
    ReadAsSigned(1);
    CastIsLowBits(1, w);
    FloorIs(1, Two(w), 0, 1);
    FloorIs(1, TWO64, 0, 1);
    t := Run(end, u).s;
  }

  // ----- A constant with bits above its width -----

  /** A function that gives back a constant divided by 1. */
  function ByOne(bits: Word): Ir.Cfg {
    Ir.Cfg([Ir.BasicBlock([], [], false, Ir.NO_BOUND, 0, 0), Ir.BasicBlock(DividingByOne(bits), [], false, Ir.NO_BOUND, 0, 0)],
           [1], 1, map[1 := Ir.Result(1, 0), 2 := Ir.Result(1, 1), 3 := Ir.Result(1, 2)], false)
  }

  function DividingByOne(bits: Word): seq<Ir.Inst> {
    [Ir.Compute(Ir.Const, [], 1, bits, Ir.Position(0, 0)), Ir.Compute(Ir.Const, [], 2, 1, Ir.Position(0, 0)),
     Ir.Compute(Ir.UDiv, [1, 2], 3, 0, Ir.Position(0, 0)), Ir.Ret(3, Ir.Position(0, 0))]
  }

  /** It is all that is asked but for the constant, of which the interpreter gives back every bit and
      the machine those of the width: the same if and only if the constant is below its width. */
  lemma WideConstantDiffers(w: Width, bits: Word, s: State)
    requires w != 1
    ensures Verifier.InRange(ByOne(bits)) && Verifier.Accepted(ByOne(bits))
    ensures VerifierSoundness.Consistent(ByOne(bits)) && VerifierSoundness.Complete(ByOne(bits), 0)
    ensures HasText(value => w, ByOne(bits).blocks, ByOne(bits).order)
    ensures MachineEnds(TextOf(value => w, ByOne(bits)), s, Returned(bits % Two(w)))
    ensures FlattenerMeaning.CfgEnds(Meant(value => w), ByOne(bits), map[], Interpreter.Left(bits, map[1 := bits, 2 := 1, 3 := bits]))
    ensures bits % Two(w) == bits <==> bits < Two(w)
  {
    ByOneIsAccepted(bits);
    ByOneHasText(w, bits);
    ByOneInterpreted(w, bits);
    ByOneOnTheMachine(w, bits, s);
    BelowItsWidth(bits, w);
  }

  lemma BelowItsWidth(bits: Word, w: Width)
    ensures bits % Two(w) == bits <==> bits < Two(w)
  {
    if bits < Two(w) {
      FloorIs(bits, Two(w), 0, bits);
    }
  }

  lemma ByOneIsAccepted(bits: Word)
    ensures Verifier.InRange(ByOne(bits)) && Verifier.Accepted(ByOne(bits))
    ensures VerifierSoundness.Consistent(ByOne(bits)) && VerifierSoundness.Complete(ByOne(bits), 0)
  {
    hide Verifier.Accepted;
    ByOneChecks(bits);
    var cfg := ByOne(bits);
    forall value | value in cfg.values
      ensures VerifierSoundness.Owned(cfg, value)
    {
      assert value == 1 || value == 2 || value == 3;
    }
    assert VerifierSoundness.ParametersOf(cfg) == {};
  }

  lemma ByOneChecks(bits: Word)
    ensures Verifier.InRange(ByOne(bits)) && Verifier.Accepted(ByOne(bits))
  {
    hide Verifier.DominatorsOf;
    var cfg := ByOne(bits);
    forall i | 0 <= i < 4
      ensures Verifier.AcceptedInst(cfg, 1, i)
    {
      assert Ir.Checked(DividingByOne(bits)[i]) == if i < 2 then [] else if i == 2 then [1, 2] else [3];
    }
    assert Verifier.AcceptedBlock(cfg, 1);
  }

  lemma ByOneHasText(w: Width, bits: Word)
    requires w != 1
    ensures HasText(value => w, ByOne(bits).blocks, ByOne(bits).order)
  {
    var types: Types := value => w;
    assert forall i | 0 <= i < 4 :: Written(types, DividingByOne(bits)[i]);
  }

  lemma ByOneInterpreted(w: Width, bits: Word)
    requires w != 1
    ensures FlattenerMeaning.CfgEnds(Meant(value => w), ByOne(bits), map[], Interpreter.Left(bits, map[1 := bits, 2 := 1, 3 := bits]))
  {
    hide Interpreter.Steps, FlattenerMeaning.RunsForEver;
    var types: Types, cfg := value => w, ByOne(bits);
    var first: Cells := map[1 := bits];
    var second := first[2 := 1];
    FloorIs(bits, TWO64, 0, bits);
    FloorIs(bits, 1, bits, 0);
    Begins(Meant(types), cfg, map[]);
    Computes(types, cfg, map[], 0, map[], bits);
    Computes(types, cfg, map[], 1, first, 1);
    Computes(types, cfg, map[], 2, second, bits);
    GivesBack(types, cfg, map[], 3, second[3 := bits]);
  }

  lemma ByOneOnTheMachine(w: Width, bits: Word, s: State)
    requires w != 1 && Verifier.InRange(ByOne(bits)) && HasText(value => w, ByOne(bits).blocks, ByOne(bits).order)
    ensures MachineEnds(TextOf(value => w, ByOne(bits)), s, Returned(bits % Two(w)))
  {
    hide Run, BlocksText, Stands, ConstantText, DivisionText, ReturnText, Reaches;
    var types: Types, cfg := value => w, ByOne(bits);
    EntryIsReached(types, cfg, s);
    ConstantSimulates(bits, 1, s);
    var t0 := Run(ConstantText(bits, 1), s).s;
    OneGoes(types, cfg, s, 0, s, t0);
    ConstantSimulates(1, 2, t0);
    var t1 := Run(ConstantText(1, 2), t0).s;
    OneGoes(types, cfg, s, 1, t0, t1);
    var t2 := DividesByOne(w, t1, bits);
    OneGoes(types, cfg, s, 2, t1, t2);
    LastReturns(types, cfg, s, 3, t2);
  }

  lemma DividesByOne(w: Width, s: State, bits: Word) returns (t: State)
    requires Cell(s, 1) == bits && Cell(s, 2) == 1
    ensures (forall labels: nat :: Run(DivisionText(UDiv, w, 1, 2, 3, labels), s) == Goes(t)) && Cell(t, 3) == bits % Two(w)
  {
    hide Run, EndText, Mask;
    var end := EndText(w, 3);
    var rest := UnsignedDivisionText(false) + end;
    var both := s.(rax := bits, rcx := 1);
    var tested := both.(left := 1, right := 0);
    LoadsRun(1, 2, [Test(Rcx)] + ([AbortIfEqual] + rest), s);
    RunLine(Test(Rcx), [AbortIfEqual] + rest, both);
    RunJump(AbortIfEqual, rest, tested);
    var u := UnsignedDivisionRuns(false, end, tested);
    FloorIs(bits, 1, bits, 0);
    EndRuns(w, 3, u);
    t := Run(end, u).s;
    assert Mask(bits, w) == bits % Two(w) by { MaskIsLowBits(bits, w); }
  }

  lemma MaskIsLowBits(bits: Word, w: Width)
    ensures Mask(bits, w) == bits % Two(w)
  {
  }
}
