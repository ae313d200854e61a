/** That the text of each instruction the writer has one for computes what the interpreter does for
    the opcode, wherever the values are in their cells. The writer's table of opcodes and the
    interpreter's are two (`TablesAgree`).
  */
module X8664Meaning {
  import Ir
  import opened Words
  import opened IrArithmetic
  import opened IrOpcodes
  import opened X8664Machine
  import opened X8664Writer
  import opened X8664Simulates

  // ----- One instruction -----

  /** The cells hold these values, below their widths. */
  ghost predicate HoldsValue(types: Types, s: State, cells: Cells, value: nat) {
    Cell(s, value) == CellOf(cells, value) < Two(types(value))
  }

  /** The writer's table against the interpreter's: what it takes each opcode for is what that
      computes. */
  lemma TablesAgree(types: Types, inst: Ir.Inst, cells: Cells)
    requires inst.Compute? && Typed(types, inst)
    ensures var values := inst.operands;
            match KindOf(types, inst)
            case Constant(bits) => Computed(types, inst, cells) == Gives(bits % TWO64)
            case Binary(op) => Computed(types, inst, cells) == Arithmetic(op, types(values[0]), CellOf(cells, values[0]), CellOf(cells, values[1]))
            case Comparison(condition) =>
              Computed(types, inst, cells)
              == Gives(Bool(Compares(condition, types(values[0]), CellOf(cells, values[0]), CellOf(cells, values[1]))))
            case OneOperand(op) => Computed(types, inst, cells) == Gives(UnaryMeaning(op, types(inst.result), CellOf(cells, values[0])))
            case Choice => Computed(types, inst, cells) == Gives(CellOf(cells, if CellOf(cells, values[0]) != 0 then values[1] else values[2]))
            case NotWritten => false
  {
    hide Arithmetic, Widen, Mask;
  }

  /** What is written for an instruction simulates it, and its value is below its width. */
  lemma ComputeSimulates(types: Types, inst: Ir.Inst, labels: nat, s: State, cells: Cells)
    requires inst.Compute? && Typed(types, inst) && !Misread(types, inst)
    requires forall value <- inst.operands :: HoldsValue(types, s, cells, value)
    ensures Simulates(ComputeText(types, inst, labels), s, inst.result, Computed(types, inst, cells))
    ensures Computed(types, inst, cells).Gives? ==> Computed(types, inst, cells).value < Two(types(inst.result))
  {
    hide Simulates, Arithmetic, UnaryMeaning, Compares, BinaryText, ComparisonText, UnaryText, SelectText, ConstantText;
    var values, w := inst.operands, types(inst.result);
    assert forall i | 0 <= i < |values| :: HoldsValue(types, s, cells, values[i]);
    TablesAgree(types, inst, cells);
    hide Computed;
    match KindOf(types, inst)
    case Constant(bits) => ConstantSimulates(bits, inst.result, s);
    case Binary(op) => BinarySimulates(op, w, values[0], values[1], inst.result, labels, s);
    case Comparison(condition) => ComparisonSimulates(condition, types(values[0]), values[0], values[1], inst.result, s);
    case OneOperand(op) =>
      UnarySimulates(op, w, values[0], inst.result, s);
      UnaryIsMasked(op, w, CellOf(cells, values[0]));
    case Choice => SelectSimulates(values[0], values[1], values[2], inst.result, s);
  }

  lemma UnaryIsMasked(op: Unary, w: Width, value: Word)
    ensures UnaryMeaning(op, w, value) < Two(w)
  {
  }

  lemma ConstantSimulates(bits: Word, result: nat, s: State)
    requires result != 0
    ensures Simulates(ConstantText(bits, result), s, result, Gives(bits))
  {
    hide Run;
    RunLine(Immediate(Rax, bits), StoreText(result), s);
    StoreRuns(result, s.(rax := bits));
  }

  /** A branch goes to the side the condition's cell names. */
  lemma BranchRuns(condition: nat, chosen: nat, otherwise: nat, s: State) returns (t: State)
    ensures Run(BranchText(condition, chosen, otherwise), s) == Leaves(if Cell(s, condition) != 0 then chosen else otherwise, t)
    ensures t.cells == s.cells
  {
    hide Run;
    var last := [JumpToBlock(otherwise)];
    var jumps := [JumpToBlockIf(NotEqual, chosen)] + last;
    RunLine(Load(Rax, condition), [Test(Rax)] + jumps, s);
    var u := s.(rax := Cell(s, condition));
    RunLine(Test(Rax), jumps, u);
    t := u.(left := u.rax, right := 0);
    RunJump(JumpToBlockIf(NotEqual, chosen), last, t);
    assert last == [JumpToBlock(otherwise)] + [];
    RunJump(JumpToBlock(otherwise), [], t);
  }

  lemma ReturnRuns(value: nat, s: State) returns (t: State)
    ensures Run(ReturnText(value), s) == Returns(t) && (value != 0 ==> t.rax == Cell(s, value))
  {
    hide Run;
    var last := [Return];
    assert last == [Return] + [];
    t := s;
    if value != 0 {
      RunLine(Load(Rax, value), last, s);
      t := s.(rax := Cell(s, value));
    } else {
      assert [] + last == last;
    }
    RunJump(Return, [], t);
  }

  lemma JumpRuns(target: nat, s: State)
    ensures Run([JumpToBlock(target)], s) == Leaves(target, s)
  {
    assert [JumpToBlock(target)] == [JumpToBlock(target)] + [];
    RunJump(JumpToBlock(target), [], s);
  }
}
