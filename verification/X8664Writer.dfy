/** The text written for a function's instructions, and the writer.

    A function's text is its blocks in the CFG's order, each a label and what is written for each of
    its instructions; what it does is proved in `X8664Simulates.dfy` and `X8664Runs.dfy`.
  */
module X8664Writer {
  import Ir
  import opened Words
  import opened IrArithmetic
  import opened WholeOperators
  import opened X8664Machine

  // ----- The text -----

  function MaskText(w: Width): Text {
    if w == 64 then [] else [ZeroExtend(w)]
  }

  /** A bool is not widened. */
  function WidenText(which: Register, w: Width): Text {
    if w == 64 || w == 1 then [] else [SignExtend(which, w)]
  }

  function StoreText(result: nat): Text {
    if result != 0 then [X8664Machine.Store(result)] else []
  }

  function EndText(w: Width, result: nat): Text {
    MaskText(w) + StoreText(result)
  }

  function LoadsText(a: nat, b: nat): Text {
    [Load(Rax, a), Load(Rcx, b)]
  }

  predicate IsPlain(op: Operator) {
    op == Add || op == Sub || op == Mul || op == And || op == Or || op == Xor
  }

  predicate IsDivision(op: Operator) {
    op == SDiv || op == SRem || op == UDiv || op == URem
  }

  predicate IsShift(op: Operator) {
    op == Shl || op == LShr || op == AShr
  }

  function PlainLine(op: Operator): Line
    requires IsPlain(op)
  {
    match op
    case Add => AddRcx
    case Sub => SubRcx
    case Mul => ImulRcx
    case _ => BitsRcx(op)
  }

  function PlainText(op: Operator, w: Width, a: nat, b: nat, result: nat): Text
    requires IsPlain(op)
  {
    LoadsText(a, b) + ([PlainLine(op)] + EndText(w, result))
  }

  function SignedDivisionText(remainder: bool, divide: nat, end: nat): Text {
    [CompareWith(Rcx, TWO64 - 1)] + ([JumpIf(NotEqual, divide)] + ([if remainder then Clear(Rax) else Neg] + ([Jump(end)]
    + ([Label(divide)] + ([Cqo] + ([IdivRcx] + ((if remainder then [MoveRdx] else []) + [Label(end)])))))))
  }

  /** Its two halves. */
  function ByMinusOneText(remainder: bool, divide: nat, end: nat): Text {
    [CompareWith(Rcx, TWO64 - 1)] + ([JumpIf(NotEqual, divide)] + ([if remainder then Clear(Rax) else Neg] + [Jump(end)]))
  }

  function IdivText(remainder: bool, divide: nat, end: nat): Text {
    [Label(divide)] + ([Cqo] + ([IdivRcx] + ((if remainder then [MoveRdx] else []) + [Label(end)])))
  }

  function UnsignedDivisionText(remainder: bool): Text {
    [Clear(Rdx)] + ([DivRcx] + if remainder then [MoveRdx] else [])
  }

  function QuotientText(op: Operator, w: Width, labels: nat): Text
    requires IsDivision(op)
  {
    if op == SDiv || op == SRem then WidenText(Rax, w) + (WidenText(Rcx, w) + SignedDivisionText(op == SRem, labels + 1, labels + 2))
    else UnsignedDivisionText(op == URem)
  }

  /** Every width divides in 64 bits. */
  function DivisionText(op: Operator, w: Width, a: nat, b: nat, result: nat, labels: nat): Text
    requires IsDivision(op)
  {
    LoadsText(a, b) + ([Test(Rcx)] + ([AbortIfEqual] + (QuotientText(op, w, labels) + EndText(w, result))))
  }

  function SignedShiftText(w: Width, inRange: nat): Text {
    WidenText(Rax, w) + ([CompareWith(Rcx, 63)] + ([JumpIf(BelowEqual, inRange)] + ([Immediate(Rcx, 63)] + ([Label(inRange)] + [SarCl]))))
  }

  function BitsShiftText(op: Operator, inRange: nat, end: nat): Text {
    [CompareWith(Rcx, 63)] + ([JumpIf(BelowEqual, inRange)] + ([Clear(Rax)] + ([Jump(end)]
    + ([Label(inRange)] + ([if op == Shl then ShlCl else ShrCl] + [Label(end)])))))
  }

  function ShiftText(op: Operator, w: Width, a: nat, b: nat, result: nat, labels: nat): Text
    requires IsShift(op)
  {
    LoadsText(a, b) + ((if op == AShr then SignedShiftText(w, labels + 1) else BitsShiftText(op, labels + 1, labels + 2)) + EndText(w, result))
  }

  function BinaryText(op: Operator, w: Width, a: nat, b: nat, result: nat, labels: nat): Text
    requires op != UMulHi && op != SMulHi
  {
    if IsDivision(op) then DivisionText(op, w, a, b, result, labels)
    else if IsShift(op) then ShiftText(op, w, a, b, result, labels)
    else PlainText(op, w, a, b, result)
  }

  /** How many labels an operator's text has. */
  function LabelsOf(op: Operator): nat {
    match op
    case SDiv => 2
    case SRem => 2
    case Shl => 2
    case LShr => 2
    case AShr => 1
    case _ => 0
  }

  /** The signed conditions widen their operands. */
  predicate IsSignedCondition(condition: Condition) {
    condition == Less || condition == LessEqual || condition == Greater || condition == GreaterEqual
  }

  function ComparisonText(condition: Condition, w: Width, a: nat, b: nat, result: nat): Text {
    LoadsText(a, b)
    + ((if IsSignedCondition(condition) then WidenText(Rax, w) + WidenText(Rcx, w) else [])
       + ([Compare(Rax, Rcx)] + ([SetIf(condition)] + ([ZeroExtend(8)] + StoreText(result)))))
  }

  datatype Unary = Negate | Complement | Truncate | SignExtended(from: Width)

  function UnaryText(op: Unary, w: Width, a: nat, result: nat): Text {
    [Load(Rax, a)]
    + ((match op
        case Negate => [Neg]
        case Complement => [Not]
        case Truncate => []
        case SignExtended(from) => WidenText(Rax, from))
       + EndText(w, result))
  }

  function SelectText(condition: nat, chosen: nat, otherwise: nat, result: nat): Text {
    [Load(Rax, otherwise)] + ([Load(Rcx, chosen)] + ([Load(Rdx, condition)] + ([Test(Rdx)] + ([MoveIfNotEqual] + StoreText(result)))))
  }

  // ----- A function's text -----

  /** The values' widths. */
  datatype Kind =
    | Constant(bits: nat)
    | Binary(op: Operator)
    | Comparison(condition: Condition)
    | OneOperand(op1: Unary)
    | Choice
    | NotWritten

  function OperatorOf(opcode: Ir.Opcode): Kind {
    match opcode
    case Add => Binary(Operator.Add)
    case Sub => Binary(Operator.Sub)
    case Mul => Binary(Operator.Mul)
    case SDiv => Binary(Operator.SDiv)
    case UDiv => Binary(Operator.UDiv)
    case SRem => Binary(Operator.SRem)
    case URem => Binary(Operator.URem)
    case And => Binary(Operator.And)
    case Or => Binary(Operator.Or)
    case Xor => Binary(Operator.Xor)
    case Shl => Binary(Operator.Shl)
    case LShr => Binary(Operator.LShr)
    case AShr => Binary(Operator.AShr)
    case Eq => Comparison(Equal)
    case Ne => Comparison(NotEqual)
    case SLt => Comparison(Less)
    case SLe => Comparison(LessEqual)
    case SGt => Comparison(Greater)
    case SGe => Comparison(GreaterEqual)
    case ULt => Comparison(Below)
    case ULe => Comparison(BelowEqual)
    case UGt => Comparison(Above)
    case UGe => Comparison(AboveEqual)
    case _ => NotWritten
  }

  /** What an instruction is, with the operands its opcode takes. */
  function KindOf(types: Types, inst: Ir.Inst): Kind
    requires inst.Compute?
  {
    match |inst.operands|
    case 0 => if inst.opcode.Const? then Constant(inst.extra) else if inst.opcode.Null? then Constant(0) else NotWritten
    case 1 =>
      (match inst.opcode
       case Neg => OneOperand(Negate)
       case Not => OneOperand(Complement)
       case Trunc => OneOperand(Truncate)
       case ZExt => OneOperand(Truncate)
       case SExt => OneOperand(SignExtended(types(inst.operands[0])))
       case _ => NotWritten)
    case 2 => OperatorOf(inst.opcode)
    case 3 => if inst.opcode.Select? then Choice else NotWritten
    case _ => NotWritten
  }

  // ----- What is asked of the types -----

  /** Whole numbers are asked for, but where bits are enough. */
  predicate TakesBools(kind: Kind) {
    match kind
    case Binary(op) => op == And || op == Or || op == Xor
    case Comparison(condition) => condition == Equal || condition == NotEqual
    case OneOperand(op) => op == Complement
    case _ => false
  }

  predicate Converts(opcode: Ir.Opcode) {
    opcode.Trunc? || opcode.ZExt? || opcode.SExt?
  }

  /** The verifier's `verify_types`; a constant is a word, and a value is given back. */
  predicate Typed(types: Types, inst: Ir.Inst)
    requires inst.Compute?
  {
    var kind, values := KindOf(types, inst), inst.operands;
    var w := types(inst.result);
    && inst.result != 0
    && match kind
       case Constant(bits) => bits < TWO64
       case Binary(_) => types(values[0]) == types(values[1]) == w && (w == 1 ==> TakesBools(kind))
       case Comparison(_) => types(values[0]) == types(values[1]) && w == 1 && (types(values[0]) == 1 ==> TakesBools(kind))
       case OneOperand(_) =>
         if inst.opcode.Trunc? then types(values[0]) > w && w != 1
         else if Converts(inst.opcode) then types(values[0]) < w
         else types(values[0]) == w && (w == 1 ==> TakesBools(kind))
       case Choice => types(values[0]) == 1 && types(values[1]) == types(values[2]) == w
       case NotWritten => false
  }

  /** A bool sign extended: the verifier admits it, and the text takes its one bit for a number. */
  predicate ExtendsABool(types: Types, inst: Ir.Inst) {
    inst.Compute? && inst.opcode.SExt? && |inst.operands| == 1 && types(inst.operands[0]) == 1
  }

  /** A constant with bits above its width: the verifier does not look at them, the interpreter
      keeps them and the text masks them off after a division. */
  predicate HoldsTooMuch(types: Types, inst: Ir.Inst) {
    inst.Compute? && inst.opcode.Const? && inst.extra >= Two(types(inst.result))
  }

  /** The two that are admitted and that the text takes for something else. */
  predicate Misread(types: Types, inst: Ir.Inst) {
    ExtendsABool(types, inst) || HoldsTooMuch(types, inst)
  }

  /** An instruction of this part of the writer -- constants, whole numbers, choices, jumps without
      arguments and returns -- rightly typed. */
  predicate Written(types: Types, inst: Ir.Inst) {
    match inst
    case Compute(_, _, _, _, _) => Typed(types, inst)
    case Br(_, arguments, _) => arguments == []
    case CondBr(condition, _, _, _) => types(condition) == 1
    case Ret(_, _) => true
    case _ => false
  }

  // ----- The text -----

  function ConstantText(bits: Word, result: nat): Text {
    [Immediate(Rax, bits)] + StoreText(result)
  }

  function ComputeText(types: Types, inst: Ir.Inst, labels: nat): Text
    requires inst.Compute? && Typed(types, inst)
  {
    var values := inst.operands;
    match KindOf(types, inst)
    case Constant(bits) => ConstantText(bits, inst.result)
    case Binary(op) => BinaryText(op, types(values[0]), values[0], values[1], inst.result, labels)
    case Comparison(condition) => ComparisonText(condition, types(values[0]), values[0], values[1], inst.result)
    case OneOperand(op) => UnaryText(op, types(inst.result), values[0], inst.result)
    case Choice => SelectText(values[0], values[1], values[2], inst.result)
    case NotWritten => []
  }

  function BranchText(condition: nat, chosen: nat, otherwise: nat): Text {
    [Load(Rax, condition)] + ([Test(Rax)] + ([JumpToBlockIf(NotEqual, chosen)] + [JumpToBlock(otherwise)]))
  }

  function ReturnText(value: nat): Text {
    (if value != 0 then [Load(Rax, value)] else []) + [Return]
  }

  function InstText(types: Types, inst: Ir.Inst, labels: nat): Text
    requires Written(types, inst)
  {
    match inst
    case Compute(_, _, _, _, _) => ComputeText(types, inst, labels)
    case Br(target, _, _) => [JumpToBlock(target)]
    case CondBr(condition, chosen, otherwise, _) => BranchText(condition, chosen, otherwise)
    case Ret(value, _) => ReturnText(value)
  }

  /** How many labels of its own an instruction takes. */
  function Taken(types: Types, inst: Ir.Inst): nat {
    if !inst.Compute? then 0
    else match KindOf(types, inst)
      case Binary(op) => LabelsOf(op)
      case _ => 0
  }

  function TakenBy(types: Types, insts: seq<Ir.Inst>): nat {
    if insts == [] then 0 else Taken(types, insts[0]) + TakenBy(types, insts[1..])
  }

  predicate AllWritten(types: Types, insts: seq<Ir.Inst>) {
    forall inst <- insts :: Written(types, inst)
  }

  function InstsText(types: Types, insts: seq<Ir.Inst>, labels: nat): Text
    requires AllWritten(types, insts)
  {
    if insts == [] then []
    else InstText(types, insts[0], labels) + InstsText(types, insts[1..], labels + Taken(types, insts[0]))
  }

  /** Every block of the order is one there is, and all its instructions have a text. */
  predicate HasText(types: Types, blocks: seq<Ir.BasicBlock>, order: seq<nat>) {
    forall block <- order :: block < |blocks| && AllWritten(types, blocks[block].insts)
  }

  function BlocksText(types: Types, blocks: seq<Ir.BasicBlock>, order: seq<nat>, labels: nat): Text
    requires HasText(types, blocks, order)
  {
    if order == [] then []
    else
      assert order[0] in order;
      var insts := blocks[order[0]].insts;
      [BlockLabel(order[0])]
      + (InstsText(types, insts, labels) + BlocksText(types, blocks, order[1..], labels + TakenBy(types, insts)))
  }

  // ----- The writer -----

  class X8664Writer {
    var text: Text
    var labels: nat

    constructor ()
      ensures text == [] && labels == 0
    {
      text, labels := [], 0;
    }

    method WriteLine(line: Line)
      modifies this`text
      ensures text == old(text) + [line]
    {
      text := text + [line];
    }

    method FreshLabel() returns (made: nat)
      modifies this`labels
      ensures labels == old(labels) + 1 && made == labels
    {
      labels := labels + 1;
      made := labels;
    }

    method MaskTo(w: Width)
      modifies this`text
      ensures text == old(text) + MaskText(w)
    {
      if w != 64 {
        WriteLine(ZeroExtend(w));
      }
    }

    method Widen(which: Register, w: Width)
      modifies this`text
      ensures text == old(text) + WidenText(which, w)
    {
      if w != 64 && w != 1 {
        WriteLine(SignExtend(which, w));
      }
    }

    method StoreResult(result: nat)
      modifies this`text
      ensures text == old(text) + StoreText(result)
    {
      if result != 0 {
        WriteLine(X8664Machine.Store(result));
      }
    }

    method WriteBinary(op: Operator, w: Width, a: nat, b: nat, result: nat)
      requires op != UMulHi && op != SMulHi
      modifies this
      ensures text == old(text) + BinaryText(op, w, a, b, result, old(labels)) && labels == old(labels) + LabelsOf(op)
    {
      hide DivisionText, ShiftText, PlainText;
      if IsDivision(op) {
        WriteDivision(op, w, a, b, result);
        return;
      }
      if IsShift(op) {
        WriteShift(op, w, a, b, result);
        return;
      }
      WritePlain(op, w, a, b, result);
    }

    method WritePlain(op: Operator, w: Width, a: nat, b: nat, result: nat)
      requires IsPlain(op)
      modifies this`text
      ensures text == old(text) + PlainText(op, w, a, b, result)
    {
      hide MaskText, StoreText;
      ghost var before := text;
      WriteLine(Load(Rax, a));
      WriteLine(Load(Rcx, b));
      assert text == before + LoadsText(a, b);
      WriteLine(PlainLine(op));
      MaskTo(w);
      StoreResult(result);
      Joined(before, LoadsText(a, b), [PlainLine(op)], MaskText(w), StoreText(result));
    }

    method WriteComparison(condition: Condition, w: Width, a: nat, b: nat, result: nat)
      modifies this`text
      ensures text == old(text) + ComparisonText(condition, w, a, b, result)
    {
      hide WidenText, StoreText;
      WriteLine(Load(Rax, a));
      WriteLine(Load(Rcx, b));
      ghost var loaded := text;
      if IsSignedCondition(condition) {
        Widen(Rax, w);
        Widen(Rcx, w);
      }
      ghost var widened := text;
      assert widened == loaded + if IsSignedCondition(condition) then WidenText(Rax, w) + WidenText(Rcx, w) else [];
      WriteLine(Compare(Rax, Rcx));
      WriteLine(SetIf(condition));
      WriteLine(ZeroExtend(8));
      StoreResult(result);
      Joined(widened, [Compare(Rax, Rcx)], [SetIf(condition)], [ZeroExtend(8)], StoreText(result));
    }

    method WriteUnary(op: Unary, w: Width, a: nat, result: nat)
      modifies this`text
      ensures text == old(text) + UnaryText(op, w, a, result)
    {
      hide WidenText, MaskText, StoreText;
      WriteLine(Load(Rax, a));
      match op {
        case Negate => WriteLine(Neg);
        case Complement => WriteLine(Not);
        case Truncate =>
        case SignExtended(from) => Widen(Rax, from);
      }
      MaskTo(w);
      StoreResult(result);
    }

    method WriteSelect(condition: nat, chosen: nat, otherwise: nat, result: nat)
      modifies this`text
      ensures text == old(text) + SelectText(condition, chosen, otherwise, result)
    {
      WriteLine(Load(Rax, otherwise));
      WriteLine(Load(Rcx, chosen));
      WriteLine(Load(Rdx, condition));
      WriteLine(Test(Rdx));
      WriteLine(MoveIfNotEqual);
      StoreResult(result);
    }

    method WriteDivision(op: Operator, w: Width, a: nat, b: nat, result: nat)
      requires IsDivision(op)
      modifies this
      ensures text == old(text) + DivisionText(op, w, a, b, result, old(labels)) && labels == old(labels) + LabelsOf(op)
    {
      hide WidenText, MaskText, StoreText, QuotientText, SignedDivisionText;
      ghost var before := text;
      WriteLine(Load(Rax, a));
      WriteLine(Load(Rcx, b));
      WriteLine(Test(Rcx));
      WriteLine(AbortIfEqual);
      ghost var tested := text;
      assert tested == before + LoadsText(a, b) + [Test(Rcx)] + [AbortIfEqual];
      WriteQuotient(op, w);
      MaskTo(w);
      StoreResult(result);
      assert text == tested + (QuotientText(op, w, old(labels)) + EndText(w, result));
    }

    method WriteQuotient(op: Operator, w: Width)
      requires IsDivision(op)
      modifies this
      ensures text == old(text) + QuotientText(op, w, old(labels)) && labels == old(labels) + LabelsOf(op)
    {
      hide SignedDivisionText, WidenText;
      var sign, remainder := op == SDiv || op == SRem, op == SRem || op == URem;
      if sign {
        var divide := FreshLabel();
        var end := FreshLabel();
        Widen(Rax, w);
        Widen(Rcx, w);
        WriteSignedDivision(remainder, divide, end);
      } else {
        WriteLine(Clear(Rdx));
        WriteLine(DivRcx);
        if remainder {
          WriteLine(MoveRdx);
        }
      }
    }

    method WriteSignedDivision(remainder: bool, divide: nat, end: nat)
      modifies this`text
      ensures text == old(text) + SignedDivisionText(remainder, divide, end)
    {
      WriteByMinusOne(remainder, divide, end);
      WriteIdiv(remainder, divide, end);
      assert ByMinusOneText(remainder, divide, end) + IdivText(remainder, divide, end) == SignedDivisionText(remainder, divide, end);
    }

    method WriteByMinusOne(remainder: bool, divide: nat, end: nat)
      modifies this`text
      ensures text == old(text) + ByMinusOneText(remainder, divide, end)
    {
      WriteLine(CompareWith(Rcx, TWO64 - 1));
      WriteLine(JumpIf(NotEqual, divide));
      if remainder {
        WriteLine(Clear(Rax));
      } else {
        WriteLine(Neg);
      }
      WriteLine(Jump(end));
    }

    method WriteIdiv(remainder: bool, divide: nat, end: nat)
      modifies this`text
      ensures text == old(text) + IdivText(remainder, divide, end)
    {
      WriteLine(Label(divide));
      WriteLine(Cqo);
      WriteLine(IdivRcx);
      if remainder {
        WriteLine(MoveRdx);
      }
      WriteLine(Label(end));
    }

    method WriteShift(op: Operator, w: Width, a: nat, b: nat, result: nat)
      requires IsShift(op)
      modifies this
      ensures text == old(text) + ShiftText(op, w, a, b, result, old(labels)) && labels == old(labels) + LabelsOf(op)
    {
      hide SignedShiftText, BitsShiftText, MaskText, StoreText;
      ghost var before := text;
      var inRange := FreshLabel();
      WriteLine(Load(Rax, a));
      WriteLine(Load(Rcx, b));
      ghost var loaded := text;
      assert loaded == before + LoadsText(a, b);
      if op == AShr {
        WriteSignedShift(w, inRange);
      } else {
        var end := FreshLabel();
        WriteBitsShift(op, inRange, end);
      }
      ghost var lines := if op == AShr then SignedShiftText(w, inRange) else BitsShiftText(op, inRange, inRange + 1);
      assert text == loaded + lines;
      MaskTo(w);
      StoreResult(result);
      Joined(before, LoadsText(a, b), lines, MaskText(w), StoreText(result));
    }

    method WriteSignedShift(w: Width, inRange: nat)
      modifies this`text
      ensures text == old(text) + SignedShiftText(w, inRange)
    {
      Widen(Rax, w);
      WriteLine(CompareWith(Rcx, 63));
      WriteLine(JumpIf(BelowEqual, inRange));
      WriteLine(Immediate(Rcx, 63));
      WriteLine(Label(inRange));
      WriteLine(SarCl);
    }

    method WriteBitsShift(op: Operator, inRange: nat, end: nat)
      modifies this`text
      ensures text == old(text) + BitsShiftText(op, inRange, end)
    {
      WriteLine(CompareWith(Rcx, 63));
      WriteLine(JumpIf(BelowEqual, inRange));
      WriteLine(Clear(Rax));
      WriteLine(Jump(end));
      WriteLine(Label(inRange));
      if op == Shl {
        WriteLine(ShlCl);
      } else {
        WriteLine(ShrCl);
      }
      WriteLine(Label(end));
    }

    method WriteInst(types: Types, inst: Ir.Inst)
      requires Written(types, inst)
      modifies this
      ensures text == old(text) + InstText(types, inst, old(labels)) && labels == old(labels) + Taken(types, inst)
    {
      hide BinaryText, ComparisonText, UnaryText, SelectText, StoreText;
      match inst {
        case Compute(_, _, _, _, _) => WriteCompute(types, inst);
        case Br(target, _, _) => WriteLine(JumpToBlock(target));
        case CondBr(condition, chosen, otherwise, _) =>
          WriteLine(Load(Rax, condition));
          WriteLine(Test(Rax));
          WriteLine(JumpToBlockIf(NotEqual, chosen));
          WriteLine(JumpToBlock(otherwise));
        case Ret(value, _) =>
          if value != 0 {
            WriteLine(Load(Rax, value));
          }
          WriteLine(Return);
      }
    }

    method WriteCompute(types: Types, inst: Ir.Inst)
      requires inst.Compute? && Typed(types, inst)
      modifies this
      ensures text == old(text) + ComputeText(types, inst, old(labels)) && labels == old(labels) + Taken(types, inst)
    {
      hide BinaryText, ComparisonText, UnaryText, SelectText, StoreText;
      var values := inst.operands;
      match KindOf(types, inst) {
        case Constant(bits) =>
          WriteLine(Immediate(Rax, bits));
          StoreResult(inst.result);
        case Binary(op) => WriteBinary(op, types(values[0]), values[0], values[1], inst.result);
        case Comparison(condition) => WriteComparison(condition, types(values[0]), values[0], values[1], inst.result);
        case OneOperand(op) => WriteUnary(op, types(inst.result), values[0], inst.result);
        case Choice => WriteSelect(values[0], values[1], values[2], inst.result);
      }
    }

    method WriteBlock(types: Types, block: nat, insts: seq<Ir.Inst>)
      requires AllWritten(types, insts)
      modifies this
      ensures text == old(text) + ([BlockLabel(block)] + InstsText(types, insts, old(labels)))
      ensures labels == old(labels) + TakenBy(types, insts)
    {
      hide Written, InstText, Taken;
      WriteLine(BlockLabel(block));
      ghost var labelled, before := text, labels;
      assert insts[..0] == [];
      for i := 0 to |insts|
        invariant text == labelled + InstsText(types, insts[..i], before) && labels == before + TakenBy(types, insts[..i])
      {
        OneMoreInst(types, insts[..i], insts[i], before);
        assert insts[..i + 1] == insts[..i] + [insts[i]];
        WriteInst(types, insts[i]);
      }
      assert insts[..|insts|] == insts;
    }

    /** The blocks in the CFG's order. */
    method WriteBlocks(types: Types, blocks: seq<Ir.BasicBlock>, order: seq<nat>)
      requires HasText(types, blocks, order)
      modifies this
      ensures text == old(text) + BlocksText(types, blocks, order, old(labels))
    {
      hide AllWritten, InstsText, TakenBy;
      ghost var start, from := text, labels;
      for i := 0 to |order|
        invariant text + BlocksText(types, blocks, order[i..], labels) == start + BlocksText(types, blocks, order, from)
      {
        assert order[i] in order;
        assert order[i..][1..] == order[i + 1..];
        ghost var before, at := text, labels;
        var insts := blocks[order[i]].insts;
        WriteBlock(types, order[i], insts);
        BlockFirst(types, blocks, order[i..], at, before);
      }
      assert order[|order|..] == [];
    }

    /** Every value its eight bytes below `rbp`, then every slot where its type asks. A slot is
        the bytes from its offset down to the end of what came before. */
    method LayOutFrame(values: nat, slots: seq<SlotShape>) returns (offsets: seq<nat>, frameSize: nat)
      ensures |offsets| == |slots| && frameSize % 16 == 0 && values * 8 <= frameSize
      ensures forall k {:trigger offsets[k]} :: 0 <= k < |slots| ==>
                values * 8 <= offsets[k] - slots[k].size && offsets[k] % slots[k].align == 0 && offsets[k] <= frameSize
      ensures forall j, k {:trigger offsets[j], offsets[k]} :: 0 <= j < k < |slots| ==> offsets[j] <= offsets[k] - slots[k].size
    {
      var size := values * 8;
      offsets := [];
      for i := 0 to |slots|
        invariant |offsets| == i && values * 8 <= size
        invariant forall k {:trigger offsets[k]} :: 0 <= k < i ==>
                    values * 8 <= offsets[k] - slots[k].size && offsets[k] % slots[k].align == 0 && offsets[k] <= size
        invariant forall j, k {:trigger offsets[j], offsets[k]} :: 0 <= j < k < i ==> offsets[j] <= offsets[k] - slots[k].size
      {
        var align := slots[i].align;
        RoundedUp(size + slots[i].size, align);
        size := (size + slots[i].size + align - 1) / align * align;
        offsets := offsets + [size];
      }
      RoundedUp(size, 16);
      frameSize := (size + 15) / 16 * 16;
    }
  }

  lemma Joined(before: Text, loads: Text, lines: Text, masks: Text, stores: Text)
    ensures before + loads + lines + masks + stores == before + (loads + (lines + (masks + stores)))
  {
  }

  lemma {:induction false} OneMoreInst(types: Types, insts: seq<Ir.Inst>, inst: Ir.Inst, labels: nat)
    requires AllWritten(types, insts) && Written(types, inst)
    ensures AllWritten(types, insts + [inst])
    ensures TakenBy(types, insts + [inst]) == TakenBy(types, insts) + Taken(types, inst)
    ensures InstsText(types, insts + [inst], labels)
         == InstsText(types, insts, labels) + InstText(types, inst, labels + TakenBy(types, insts))
  {
    hide Written, InstText, Taken;
    if insts == [] {
      assert [inst][1..] == [] && insts + [inst] == [inst];
    } else {
      OneMoreInst(types, insts[1..], inst, labels + Taken(types, insts[0]));
      assert (insts + [inst])[1..] == insts[1..] + [inst];
    }
  }

  lemma BlockFirst(types: Types, blocks: seq<Ir.BasicBlock>, order: seq<nat>, labels: nat, before: Text)
    requires order != [] && HasText(types, blocks, order)
    ensures order[0] < |blocks| && HasText(types, blocks, order[1..]) && AllWritten(types, blocks[order[0]].insts)
    ensures before + BlocksText(types, blocks, order, labels)
         == before + ([BlockLabel(order[0])] + InstsText(types, blocks[order[0]].insts, labels))
            + BlocksText(types, blocks, order[1..], labels + TakenBy(types, blocks[order[0]].insts))
  {
    hide AllWritten, InstsText, TakenBy;
    assert order[0] in order;
    var insts := blocks[order[0]].insts;
    var rest := BlocksText(types, blocks, order[1..], labels + TakenBy(types, insts));
    assert before + ([BlockLabel(order[0])] + (InstsText(types, insts, labels) + rest))
           == before + ([BlockLabel(order[0])] + InstsText(types, insts, labels)) + rest;
  }

  /** A slot's size and its alignment. */
  datatype SlotShape = SlotShape(size: nat, align: Alignment)

  type Alignment = a: nat | 0 < a witness 1

  lemma RoundedUp(value: nat, align: Alignment)
    ensures var up := (value + align - 1) / align * align; value <= up && up % align == 0
  {
    var n := value + align - 1;
    DivMod(n, align);
    var q := n / align;
    FloorIs(q * align, align, q, 0);
  }
}
