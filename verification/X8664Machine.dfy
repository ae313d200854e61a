/** The part of an x86-64 machine the written code uses: three registers, what was compared last,
    and the frame's cells, each a value's eight bytes below `rbp`.

    `Run` is what the lines of one instruction do, whose own labels lie ahead of the jumps to them;
    `Steps` runs a whole text from a place in it, backwards and forwards.
  */
module X8664Machine {
  import opened Words
  import opened IrArithmetic

  datatype Register = Rax | Rcx | Rdx

  datatype Condition = Equal | NotEqual | Less | LessEqual | Greater | GreaterEqual | Below | BelowEqual | Above | AboveEqual

  /** One line of the text. `rax` is where it says nothing else. */
  datatype Line =
    | Load(to: Register, value: nat)
    | Store(value: nat)
    | Immediate(to: Register, bits: Word)
    | AddRcx | SubRcx | ImulRcx
    | BitsRcx(op: Operator)
    | Neg | Not
    | Clear(which: Register)
    | ZeroExtend(w: Width)
    | SignExtend(which: Register, w: Width)
    | Compare(first: Register, second: Register)
    | CompareWith(first: Register, bits: Word)
    | Test(which: Register)
    | Label(name: nat)
    | Jump(target: nat)
    | JumpIf(condition: Condition, target: nat)
    | BlockLabel(block: nat)
    | JumpToBlock(block: nat)
    | JumpToBlockIf(condition: Condition, block: nat)
    | Return
    | AbortIfEqual
    | Cqo | IdivRcx | DivRcx | MoveRdx
    | ShlCl | ShrCl | SarCl
    | SetIf(condition: Condition)
    | MoveIfNotEqual

  datatype State = State(rax: Word, rcx: Word, rdx: Word, left: Word, right: Word, cells: map<nat, Word>)

  /** An abort is the program's, a fault the machine's; and a block or the function may be left. */
  datatype Outcome = Goes(s: State) | Aborts | Faults | Leaves(block: nat, s: State) | Returns(s: State)

  function Read(s: State, which: Register): Word {
    match which
    case Rax => s.rax
    case Rcx => s.rcx
    case Rdx => s.rdx
  }

  function Write(s: State, which: Register, value: Word): State {
    match which
    case Rax => s.(rax := value)
    case Rcx => s.(rcx := value)
    case Rdx => s.(rdx := value)
  }

  function Cell(s: State, value: nat): Word {
    if value in s.cells then s.cells[value] else 0
  }

  /** What the flags say of what was compared. */
  predicate Holds(condition: Condition, s: State) {
    var a, b := ToSigned(s.left), ToSigned(s.right);
    match condition
    case Equal => s.left == s.right
    case NotEqual => s.left != s.right
    case Less => a < b
    case LessEqual => a <= b
    case Greater => a > b
    case GreaterEqual => a >= b
    case Below => s.left < s.right
    case BelowEqual => s.left <= s.right
    case Above => s.left > s.right
    case AboveEqual => s.left >= s.right
  }

  predicate Jumps(line: Line) {
    || line.Label? || line.Jump? || line.JumpIf? || line.BlockLabel? || line.JumpToBlock? || line.JumpToBlockIf?
    || line.Return? || line.AbortIfEqual?
  }

  /** `idiv` and `div` take `rdx:rax`, and fault on a zero divisor and on a quotient that does not
      fit `rax`. */
  function Divide(s: State, sign: bool): Outcome {
    if s.rcx == 0 then Faults
    else if sign then
      var a, b := ToSigned(s.rdx) * TWO64 + s.rax, ToSigned(s.rcx);
      var q := Quotient(a, b);
      if -0x8000_0000_0000_0000 <= q < 0x8000_0000_0000_0000 then Goes(s.(rax := FromSigned(q), rdx := FromSigned(Remainder(a, b)))) else Faults
    else
      var a := s.rdx * TWO64 + s.rax;
      DivMod(a, s.rcx);
      var q := a / s.rcx;
      if 0 <= q < TWO64 then Goes(s.(rax := q, rdx := a % s.rcx)) else Faults
  }

  /** One line that goes on to the next. */
  function Straight(line: Line, s: State): (o: Outcome)
    requires !Jumps(line)
    ensures o.Goes? || o.Faults?
  {
    var count := s.rcx % 64;
    match line
    case Load(to, value) => Goes(Write(s, to, Cell(s, value)))
    case Store(value) => Goes(s.(cells := s.cells[value := s.rax]))
    case Immediate(to, bits) => Goes(Write(s, to, bits))
    case AddRcx => Goes(s.(rax := Sum(s.rax, s.rcx)))
    case SubRcx => Goes(s.(rax := Difference(s.rax, s.rcx)))
    case ImulRcx => Goes(s.(rax := Product(s.rax, s.rcx)))
    case BitsRcx(op) => BitwiseFits(op, s.rax, s.rcx, 64); Goes(s.(rax := Bitwise(op, s.rax, s.rcx)))
    case Neg => Goes(s.(rax := Difference(0, s.rax)))
    case Not => Goes(s.(rax := TWO64 - 1 - s.rax))
    case Clear(which) => Goes(Write(s, which, 0))
    case ZeroExtend(w) => Goes(s.(rax := Mask(s.rax, w)))
    case SignExtend(which, w) => Goes(Write(s, which, FromSigned(Signed(Read(s, which), w))))
    case Compare(first, second) => Goes(s.(left := Read(s, first), right := Read(s, second)))
    case CompareWith(first, bits) => Goes(s.(left := Read(s, first), right := bits))
    case Test(which) => Goes(s.(left := Read(s, which), right := 0))
    case Cqo => Goes(s.(rdx := if ToSigned(s.rax) < 0 then TWO64 - 1 else 0))
    case IdivRcx => Divide(s, true)
    case DivRcx => Divide(s, false)
    case MoveRdx => Goes(s.(rax := s.rdx))
    case ShlCl => Goes(s.(rax := LeftShifted(s.rax, count)))
    case ShrCl => Goes(s.(rax := RightShifted(s.rax, count)))
    case SarCl => Goes(s.(rax := FromSigned(ToSigned(s.rax) / Pow2(count))))
    case SetIf(condition) => Goes(s.(rax := s.rax - s.rax % 256 + if Holds(condition, s) then 1 else 0))
    case MoveIfNotEqual => Goes(if s.left != s.right then s.(rax := s.rcx) else s)
  }

  type Text = seq<Line>

  /** What follows a label; the jumps written here go forward. */
  function After(text: Text, name: nat): (rest: Text)
    ensures |rest| <= |text|
  {
    if text == [] then [] else if text[0] == Label(name) then text[1..] else After(text[1..], name)
  }

  function Run(text: Text, s: State): Outcome
    decreases |text|, 1
  {
    if text == [] then Goes(s)
    else if Jumps(text[0]) then Jumped(text[0], text[1..], s)
    else
      var went := Straight(text[0], s);
      if went.Goes? then Run(text[1..], went.s) else went
  }

  function Jumped(line: Line, rest: Text, s: State): Outcome
    requires Jumps(line)
    decreases |rest|, 2
  {
    match line
    case Label(_) => Run(rest, s)
    case Jump(target) => Run(After(rest, target), s)
    case JumpIf(condition, target) => if Holds(condition, s) then Run(After(rest, target), s) else Run(rest, s)
    case BlockLabel(_) => Run(rest, s)
    case JumpToBlock(block) => Leaves(block, s)
    case JumpToBlockIf(condition, block) => if Holds(condition, s) then Leaves(block, s) else Run(rest, s)
    case Return => Returns(s)
    case AbortIfEqual => if s.left == s.right then Aborts else Run(rest, s)
  }

  // ----- A whole text -----

  datatype Ending = Returned(value: Word) | Aborted | Faulted | RanPast

  datatype Machine = Running(pc: nat, s: State) | Finished(ending: Ending)

  /** The place after a label. */
  function PlaceAfter(text: Text, label_: Line): nat {
    if text == [] then 0 else if text[0] == label_ then 1 else 1 + PlaceAfter(text[1..], label_)
  }

  function StepLine(text: Text, line: Line, next: nat, s: State): Machine {
    match line
    case Label(_) => Running(next, s)
    case BlockLabel(_) => Running(next, s)
    case Jump(target) => Running(PlaceAfter(text, Label(target)), s)
    case JumpIf(condition, target) => Running(if Holds(condition, s) then PlaceAfter(text, Label(target)) else next, s)
    case JumpToBlock(block) => Running(PlaceAfter(text, BlockLabel(block)), s)
    case JumpToBlockIf(condition, block) => Running(if Holds(condition, s) then PlaceAfter(text, BlockLabel(block)) else next, s)
    case Return => Finished(Returned(s.rax))
    case AbortIfEqual => if s.left == s.right then Finished(Aborted) else Running(next, s)
    case _ =>
      var went := Straight(line, s);
      if went.Goes? then Running(next, went.s) else Finished(Faulted)
  }

  function Step(text: Text, m: Machine): Machine {
    if m.Finished? then m
    else if |text| <= m.pc then Finished(RanPast)
    else StepLine(text, text[m.pc], m.pc + 1, m.s)
  }

  function Steps(text: Text, m: Machine, n: nat): Machine
    decreases n
  {
    if n == 0 then m else Steps(text, Step(text, m), n - 1)
  }

  lemma {:induction false} StepsAdd(text: Text, m: Machine, a: nat, b: nat)
    ensures Steps(text, m, a + b) == Steps(text, Steps(text, m, a), b)
    decreases a
  {
    if a != 0 {
      StepsAdd(text, Step(text, m), a - 1, b);
    }
  }

  lemma {:induction false} FinishedStays(text: Text, m: Machine, n: nat)
    requires m.Finished?
    ensures Steps(text, m, n) == m
    decreases n
  {
    if n != 0 {
      FinishedStays(text, m, n - 1);
    }
  }

  /** A run of the machine ends one way at most. */
  lemma OneEnding(text: Text, m: Machine, a: nat, b: nat)
    requires Steps(text, m, a).Finished?
    ensures a <= b ==> Steps(text, m, b) == Steps(text, m, a)
    ensures Steps(text, m, b).Finished? ==> Steps(text, m, b) == Steps(text, m, a)
  {
    if a <= b {
      StepsAdd(text, m, a, b - a);
      FinishedStays(text, Steps(text, m, a), b - a);
    } else if Steps(text, m, b).Finished? {
      StepsAdd(text, m, b, a - b);
      FinishedStays(text, Steps(text, m, b), a - b);
    }
  }

  lemma RunLine(line: Line, rest: Text, s: State)
    requires !Jumps(line)
    ensures Run([line] + rest, s) == var went := Straight(line, s); if went.Goes? then Run(rest, went.s) else went
  {
    assert ([line] + rest)[1..] == rest;
  }

  lemma RunJump(line: Line, rest: Text, s: State)
    requires Jumps(line)
    ensures Run([line] + rest, s) == Jumped(line, rest, s)
  {
    assert ([line] + rest)[1..] == rest;
  }

  lemma AfterLine(line: Line, rest: Text, name: nat)
    ensures After([line] + rest, name) == if line == Label(name) then rest else After(rest, name)
  {
    assert ([line] + rest)[1..] == rest;
  }
}
