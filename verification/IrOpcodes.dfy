/** What the interpreter computes for the instructions on whole numbers, opcode by opcode, on a
    frame's values; and what each opcode is in the mathematics (`BinaryMeans`, `UnaryMeans`). Nothing
    here knows of the text an instruction is written as.
  */
module IrOpcodes {
  import opened Ir
  import opened Words
  import opened IrArithmetic
  import Interpreter

  type Cells = map<nat, Word>

  function CellOf(cells: Cells, value: nat): Word {
    if value in cells then cells[value] else 0
  }

  function Bool(holds: bool): Word {
    if holds then 1 else 0
  }

  // ----- What the interpreter does -----

  /** The opcodes of two operands that compute a number. */
  predicate IsArithmetic(opcode: Opcode) {
    || opcode.Add? || opcode.Sub? || opcode.Mul? || opcode.SDiv? || opcode.UDiv? || opcode.SRem? || opcode.URem?
    || opcode.And? || opcode.Or? || opcode.Xor? || opcode.Shl? || opcode.LShr? || opcode.AShr?
  }

  /** And those that compute a bool. */
  predicate IsComparison(opcode: Opcode) {
    || opcode.Eq? || opcode.Ne? || opcode.SLt? || opcode.SLe? || opcode.SGt? || opcode.SGe?
    || opcode.ULt? || opcode.ULe? || opcode.UGt? || opcode.UGe?
  }

  predicate IsUnary(opcode: Opcode) {
    opcode.Neg? || opcode.Not? || opcode.Trunc? || opcode.ZExt? || opcode.SExt?
  }

  function ComputesNumber(opcode: Opcode, w: Width, left: Word, right: Word): Result
    requires IsArithmetic(opcode)
  {
    match opcode
    case Add => Arithmetic(Operator.Add, w, left, right)
    case Sub => Arithmetic(Operator.Sub, w, left, right)
    case Mul => Arithmetic(Operator.Mul, w, left, right)
    case SDiv => Arithmetic(Operator.SDiv, w, left, right)
    case UDiv => Arithmetic(Operator.UDiv, w, left, right)
    case SRem => Arithmetic(Operator.SRem, w, left, right)
    case URem => Arithmetic(Operator.URem, w, left, right)
    case And => Arithmetic(Operator.And, w, left, right)
    case Or => Arithmetic(Operator.Or, w, left, right)
    case Xor => Arithmetic(Operator.Xor, w, left, right)
    case Shl => Arithmetic(Operator.Shl, w, left, right)
    case LShr => Arithmetic(Operator.LShr, w, left, right)
    case AShr => Arithmetic(Operator.AShr, w, left, right)
  }

  predicate ComparesAs(opcode: Opcode, w: Width, left: Word, right: Word)
    requires IsComparison(opcode)
  {
    var a, b := Widen(left, w), Widen(right, w);
    match opcode
    case Eq => left == right
    case Ne => left != right
    case SLt => a < b
    case SLe => a <= b
    case SGt => a > b
    case SGe => a >= b
    case ULt => left < right
    case ULe => left <= right
    case UGt => left > right
    case UGe => left >= right
  }

  /** Of a value of width `from`, to width `to`. */
  function ComputesOne(opcode: Opcode, from: Width, to: Width, value: Word): Word
    requires IsUnary(opcode)
  {
    match opcode
    case Neg => Mask(Difference(0, value), to)
    case Not => Mask(TWO64 - 1 - value, to)
    case Trunc => Mask(value, to)
    case ZExt => Mask(value, to)
    case SExt => Mask(FromSigned(Widen(value, from)), to)
  }

  /** What the interpreter computes; 0 for an instruction that is none of these. */
  function Computed(types: Types, inst: Inst, cells: Cells): Result
    requires inst.Compute?
  {
    var opcode, values := inst.opcode, inst.operands;
    if opcode.Const? && values == [] then Gives(inst.extra % TWO64)
    else if opcode.Null? && values == [] then Gives(0)
    else if IsArithmetic(opcode) && |values| == 2 then
      ComputesNumber(opcode, types(values[0]), CellOf(cells, values[0]), CellOf(cells, values[1]))
    else if IsComparison(opcode) && |values| == 2 then
      Gives(Bool(ComparesAs(opcode, types(values[0]), CellOf(cells, values[0]), CellOf(cells, values[1]))))
    else if IsUnary(opcode) && |values| == 1 then
      Gives(ComputesOne(opcode, types(values[0]), types(inst.result), CellOf(cells, values[0])))
    else if opcode.Select? && |values| == 3 then Gives(CellOf(cells, if CellOf(cells, values[0]) != 0 then values[1] else values[2]))
    else Gives(0)
  }

  /** Runs of a CFG, or of the structured form, on a frame's values. */
  function Meant(types: Types): Interpreter.Meaning<Cells> {
    Interpreter.Meaning(
      (inst: Inst, cells: Cells) =>
        (if !inst.Compute? then Interpreter.Next(cells)
         else match Computed(types, inst, cells)
           case Gives(value) => Interpreter.Next(if inst.result != 0 then cells[inst.result := value] else cells)
           case DivisionByZero => Interpreter.Stop(cells)),
      (value: nat, cells: Cells) => CellOf(cells, value),
      (parameters: seq<nat>, arguments: seq<nat>, cells: Cells) => cells)
  }

  // ----- What that is -----

  function BitAt(value: nat, k: nat): nat {
    if k == 0 then value % 2 else BitAt(value / 2, k - 1)
  }

  /** The opcodes of two operands of a width: wrapping, division toward zero, bits, shifts that go on
      past the width, and the two orders. */
  ghost predicate Means(opcode: Opcode, w: Width, a: Word, b: Word, r: Result)
    requires IsArithmetic(opcode) || IsComparison(opcode)
  {
    var (x, y) := (Signed(a, w), Signed(b, w));
    match opcode
    case Add => r == Gives((a + b) % Two(w))
    case Sub => r == Gives((a - b) % Two(w))
    case Mul => r == Gives(a * b % Two(w))
    case SDiv => if b == 0 then r == DivisionByZero else y != 0 && r == Gives(Quotient(x, y) % Two(w))
    case UDiv => if b == 0 then r == DivisionByZero else r.Gives? && r.value == a / b
    case SRem => if b == 0 then r == DivisionByZero else y != 0 && r == Gives(Remainder(x, y) % Two(w))
    case URem => if b == 0 then r == DivisionByZero else r.Gives? && r.value == a % b
    case And => r.Gives? && r.value < Two(w) && forall k :: BitAt(r.value, k) == 1 <==> BitAt(a, k) == 1 && BitAt(b, k) == 1
    case Or => r.Gives? && r.value < Two(w) && forall k :: BitAt(r.value, k) == 1 <==> BitAt(a, k) == 1 || BitAt(b, k) == 1
    case Xor => r.Gives? && r.value < Two(w) && forall k :: BitAt(r.value, k) == 1 <==> BitAt(a, k) != BitAt(b, k)
    case Shl => r == Gives(a * Pow2(b) % Two(w))
    case LShr => r.Gives? && r.value == a / Pow2(b)
    case AShr => r == Gives(x / Pow2(b) % Two(w))
    case Eq => r == Gives(Bool(a == b))
    case Ne => r == Gives(Bool(a != b))
    case SLt => r == Gives(Bool(x < y))
    case SLe => r == Gives(Bool(x <= y))
    case SGt => r == Gives(Bool(x > y))
    case SGe => r == Gives(Bool(x >= y))
    case ULt => r == Gives(Bool(a < b))
    case ULe => r == Gives(Bool(a <= b))
    case UGt => r == Gives(Bool(a > b))
    case UGe => r == Gives(Bool(a >= b))
  }

  /** Of every pair of operands below their width. */
  lemma BinaryMeans(types: Types, inst: Inst, cells: Cells)
    requires inst.Compute? && |inst.operands| == 2 && (IsArithmetic(inst.opcode) || IsComparison(inst.opcode))
    requires var w := types(inst.operands[0]); CellOf(cells, inst.operands[0]) < Two(w) && CellOf(cells, inst.operands[1]) < Two(w)
    ensures Means(inst.opcode, types(inst.operands[0]), CellOf(cells, inst.operands[0]), CellOf(cells, inst.operands[1]), Computed(types, inst, cells))
  {
    hide Arithmetic, Quotient, Remainder, Bitwise, BitAt, Widen, Signed;
    var w, a, b := types(inst.operands[0]), CellOf(cells, inst.operands[0]), CellOf(cells, inst.operands[1]);
    if IsComparison(inst.opcode) {
      WidenIsSigned(a, w);
      WidenIsSigned(b, w);
    } else {
      NumberMeans(inst.opcode, w, a, b);
    }
  }

  lemma NumberMeans(opcode: Opcode, w: Width, a: Word, b: Word)
    requires IsArithmetic(opcode) && a < Two(w) && b < Two(w)
    ensures Means(opcode, w, a, b, ComputesNumber(opcode, w, a, b))
  {
    hide Means, ComputesNumber;
    if opcode.Add? || opcode.Sub? || opcode.Mul? {
      SumMeans(opcode, w, a, b);
    } else if opcode.And? || opcode.Or? || opcode.Xor? {
      BitsMean(opcode, w, a, b);
    } else if opcode.Shl? || opcode.LShr? || opcode.AShr? {
      ShiftMeans(opcode, w, a, b);
    } else {
      QuotientMeans(opcode, w, a, b);
    }
  }

  lemma SumMeans(opcode: Opcode, w: Width, a: Word, b: Word)
    requires (opcode.Add? || opcode.Sub? || opcode.Mul?) && a < Two(w) && b < Two(w)
    ensures Means(opcode, w, a, b, ComputesNumber(opcode, w, a, b))
  {
    hide Arithmetic, BitAt, Signed, Two;
    ArithmeticMeans(Operator.Add, w, a, b);
    ArithmeticMeans(Operator.Sub, w, a, b);
    ArithmeticMeans(Operator.Mul, w, a, b);
  }

  lemma QuotientMeans(opcode: Opcode, w: Width, a: Word, b: Word)
    requires (opcode.SDiv? || opcode.UDiv? || opcode.SRem? || opcode.URem?) && a < Two(w) && b < Two(w)
    ensures Means(opcode, w, a, b, ComputesNumber(opcode, w, a, b))
  {
    hide Arithmetic, BitAt, Signed, Two, Quotient, Remainder;
    SignedZero(b, w);
    ArithmeticMeans(Operator.SDiv, w, a, b);
    ArithmeticMeans(Operator.UDiv, w, a, b);
    ArithmeticMeans(Operator.SRem, w, a, b);
    ArithmeticMeans(Operator.URem, w, a, b);
  }

  lemma ShiftMeans(opcode: Opcode, w: Width, a: Word, b: Word)
    requires (opcode.Shl? || opcode.LShr? || opcode.AShr?) && a < Two(w) && b < Two(w)
    ensures Means(opcode, w, a, b, ComputesNumber(opcode, w, a, b))
  {
    hide Arithmetic, BitAt, Signed, Two, Pow2;
    ArithmeticMeans(Operator.Shl, w, a, b);
    ArithmeticMeans(Operator.LShr, w, a, b);
    ArithmeticMeans(Operator.AShr, w, a, b);
  }

  lemma BitsMean(opcode: Opcode, w: Width, a: Word, b: Word)
    requires (opcode.And? || opcode.Or? || opcode.Xor?) && a < Two(w) && b < Two(w)
    ensures Means(opcode, w, a, b, ComputesNumber(opcode, w, a, b))
  {
    hide Arithmetic, BitAt, Signed, Two;
    BitsAre(Operator.And, w, a, b);
    BitsAre(Operator.Or, w, a, b);
    BitsAre(Operator.Xor, w, a, b);
  }

  lemma BitsAre(op: Operator, w: Width, a: Word, b: Word)
    requires a < Two(w) && b < Two(w) && (op == Operator.And || op == Operator.Or || op == Operator.Xor)
    ensures var r := Arithmetic(op, w, a, b);
            && r.Gives? && r.value < Two(w)
            && (forall k :: BitAt(r.value, k) == 1 <==>
                 if op == Operator.And then BitAt(a, k) == 1 && BitAt(b, k) == 1
                 else if op == Operator.Or then BitAt(a, k) == 1 || BitAt(b, k) == 1
                 else BitAt(a, k) != BitAt(b, k))
  {
    hide Bitwise, BitAt;
    ArithmeticMeans(op, w, a, b);
    BitwiseFits(op, a, b, w);
    forall k: nat {:trigger BitAt(a, k)} {:trigger BitAt(Bitwise(op, a, b), k)}
      ensures BitAt(Bitwise(op, a, b), k) == Bit(op, BitAt(a, k), BitAt(b, k))
      ensures BitAt(a, k) < 2 && BitAt(b, k) < 2
    {
      BitOfBitwise(op, a, b, k);
    }
  }

  /** A bit of the whole is the operator's on the two bits. */
  lemma {:induction false} BitOfBitwise(op: Operator, a: nat, b: nat, k: nat)
    ensures BitAt(Bitwise(op, a, b), k) == Bit(op, BitAt(a, k), BitAt(b, k))
    ensures BitAt(a, k) < 2 && BitAt(b, k) < 2
    decreases k
  {
    BitIsBit(op, a % 2, b % 2);
    if a == 0 && b == 0 {
      NoBits(k);
      BitIsBit(op, 0, 0);
    } else {
      var low, high := Bit(op, a % 2, b % 2), Bitwise(op, a / 2, b / 2);
      Halved(low, high);
      if k > 0 {
        BitOfBitwise(op, a / 2, b / 2, k - 1);
      }
    }
  }

  lemma BitIsBit(op: Operator, a: nat, b: nat)
    requires a < 2 && b < 2
    ensures Bit(op, a, b) < 2 && Bit(op, 0, 0) == 0
  {
  }

  lemma Halved(low: nat, high: nat)
    requires low < 2
    ensures (low + 2 * high) % 2 == low && (low + 2 * high) / 2 == high
  {
  }

  lemma {:induction false} NoBits(k: nat)
    ensures BitAt(0, k) == 0
    decreases k
  {
    if k > 0 {
      NoBits(k - 1);
    }
  }

  /** The opcodes of one operand: of a value of width `from` below it, to width `to`. */
  ghost predicate MeansOne(opcode: Opcode, from: Width, to: Width, value: Word, r: Word)
    requires IsUnary(opcode)
  {
    match opcode
    case Neg => r == (0 - value) % Two(to)
    case Not => r == Two(to) - 1 - value
    case Trunc => r == value % Two(to)
    case ZExt => r == value
    case SExt => r == Signed(value, from) % Two(to)
  }

  lemma UnaryMeans(types: Types, inst: Inst, cells: Cells)
    requires inst.Compute? && |inst.operands| == 1 && IsUnary(inst.opcode)
    requires var (from, to) := (types(inst.operands[0]), types(inst.result));
             && CellOf(cells, inst.operands[0]) < Two(from)
             && (inst.opcode.Neg? || inst.opcode.Not? ==> from == to) && (inst.opcode.ZExt? ==> from <= to)
    ensures Computed(types, inst, cells).Gives?
    ensures MeansOne(inst.opcode, types(inst.operands[0]), types(inst.result), CellOf(cells, inst.operands[0]), Computed(types, inst, cells).value)
  {
    hide Widen, Signed, FromSigned, Difference;
    OneMeans(inst.opcode, types(inst.operands[0]), types(inst.result), CellOf(cells, inst.operands[0]));
  }

  lemma OneMeans(opcode: Opcode, from: Width, to: Width, value: Word)
    requires IsUnary(opcode) && value < Two(from)
    requires (opcode.Neg? || opcode.Not? ==> from == to) && (opcode.ZExt? ==> from <= to)
    ensures MeansOne(opcode, from, to, value, ComputesOne(opcode, from, to, value))
  {
    match opcode
    case Neg => LowBits(0 - value, to);
    case Not => NotIsRest(to, value);
    case Trunc =>
    case ZExt => FloorIs(value, Two(to), 0, value);
    case SExt =>
      WidenIsSigned(value, from);
      LowBits(Signed(value, from), to);
  }

  lemma NotIsRest(w: Width, value: Word)
    requires value < Two(w)
    ensures Mask(TWO64 - 1 - value, w) == Two(w) - 1 - value
  {
    LowBits(-1 - value, w);
    FloorIs(-1 - value, Two(w), -1, Two(w) - 1 - value);
    FloorIs(-1 - value, TWO64, -1, TWO64 - 1 - value);
  }
}
