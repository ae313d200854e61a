/** The division that rounds down and the power, as the instructions the lowering writes for them.

    `FloorRuns`: the code of `//` leaves the quotient rounded down, or stops at its first division by
    zero; and so its text gives it back, or aborts (`FloorOnTheMachine`). `PowerRuns`: the code of
    `**`, with its two slots, its `if` and its loop, leaves the power, and so does the CFG it is
    flattened to (`FlattenedPower`). Both for every width and every pair of words below it.
  */
module WrittenOperators {
  import opened Ir
  import opened Words
  import opened IrArithmetic
  import opened WholeOperators
  import opened Interpreter
  import opened StructuredMeaning
  import opened IrOpcodes
  import Flattener
  import FlattenerScope
  import FlattenerVerified
  import FlattenerMeaning
  import Verifier
  import VerifierSoundness
  import CompiledRuns
  import X8664Runs
  import X8664Machine
  import X8664Meaning
  import X8664Writer
  import X8664Simulates

  const HERE: Position := Position(0, 0)

  function Whole(opcode: Opcode, operands: seq<nat>, value: nat): Inst {
    Compute(opcode, operands, value, 0, HERE)
  }

  function Number(bits: nat, value: nat): Inst {
    Compute(Const, [], value, bits, HERE)
  }

  // ----- A frame's values -----

  function Put(cells: Cells, value: nat, made: Word): Cells {
    cells[value := made]
  }

  lemma ReadsPut()
    ensures forall cells: Cells, value: nat, made: Word, k: nat {:trigger CellOf(Put(cells, value, made), k)} ::
              CellOf(Put(cells, value, made), k) == if k == value then made else CellOf(cells, k)
  {
  }

  // ----- One instruction -----

  lemma GoesOn<S>(m: Meaning<S>, inst: Inst, next: Code, s: S, t: S, fuel: nat)
    requires inst.Compute? && m.compute(inst, s) == Next(t)
    ensures Exec(m, Plain(inst, next), s, fuel) == Exec(m, next, t, fuel)
  {
    assert ExecHead(m, Plain(inst, next), s, fuel) == Fall(t);
  }

  lemma StopsAt<S>(m: Meaning<S>, inst: Inst, next: Code, s: S, fuel: nat)
    requires inst.Compute? && m.compute(inst, s) == Stop(s)
    ensures Exec(m, Plain(inst, next), s, fuel) == Ended(Halted(inst, s))
  {
    assert ExecHead(m, Plain(inst, next), s, fuel) == Ended(Halted(inst, s));
  }

  /** What the kinds of instructions below compute. */
  lemma ComputesNumber(types: Types, bits: Word, value: nat, cells: Cells)
    ensures Computed(types, Number(bits, value), cells) == Gives(bits)
  {
    FloorIs(bits, TWO64, 0, bits);
  }

  lemma ComputesBinary(types: Types, opcode: Opcode, op: Operator, a: nat, b: nat, value: nat, cells: Cells)
    requires X8664Writer.OperatorOf(opcode) == X8664Writer.Binary(op)
    ensures Computed(types, Whole(opcode, [a, b], value), cells) == Arithmetic(op, types(a), CellOf(cells, a), CellOf(cells, b))
  {
    hide Arithmetic;
  }

  lemma ComputesComparison(types: Types, opcode: Opcode, condition: X8664Machine.Condition, a: nat, b: nat, value: nat, cells: Cells)
    requires X8664Writer.OperatorOf(opcode) == X8664Writer.Comparison(condition)
    ensures Computed(types, Whole(opcode, [a, b], value), cells)
         == Gives(Bool(X8664Simulates.Compares(condition, types(a), CellOf(cells, a), CellOf(cells, b))))
  {
    hide Widen;
  }

  lemma ComputesChoice(types: Types, condition: nat, a: nat, b: nat, value: nat, cells: Cells)
    ensures Computed(types, Whole(Select, [condition, a, b], value), cells)
         == Gives(CellOf(cells, if CellOf(cells, condition) != 0 then a else b))
  {
  }

  /** Of two bools. */
  lemma OfBools(a: bool, b: bool)
    ensures Arithmetic(Operator.Xor, 1, Bool(a), Bool(b)) == Gives(Bool(a != b))
    ensures Arithmetic(Operator.And, 1, Bool(a), Bool(b)) == Gives(Bool(a && b))
  {
    assert Bitwise(Operator.Xor, 0, 0) == 0 == Bitwise(Operator.And, 0, 0);
  }

  // ----- Division rounding down -----

  /** `//` of two signed values of one width: from `v` up the values are 0, 1, the quotient, the
      remainder, whether there is one, whether it and the divisor are below 0, whether the two differ,
      whether to take one less, that, and the answer. */
  function FloorCode(left: nat, right: nat, v: nat, next: Code): Code {
    Plain(Number(0, v), Plain(Number(1, v + 1),
    Plain(Whole(Opcode.SDiv, [left, right], v + 2), DividedCode(left, right, v, next))))
  }

  function DividedCode(left: nat, right: nat, v: nat, next: Code): Code {
    Plain(Whole(Opcode.SRem, [left, right], v + 3), AdjustCode(right, v, next))
  }

  function AdjustCode(right: nat, v: nat, next: Code): Code {
    Plain(Whole(Ne, [v + 3, v], v + 4), Plain(Whole(SLt, [v + 3, v], v + 5), Plain(Whole(SLt, [right, v], v + 6), ApartCode(v, next))))
  }

  function ApartCode(v: nat, next: Code): Code {
    Plain(Whole(Opcode.Xor, [v + 5, v + 6], v + 7), Plain(Whole(Opcode.And, [v + 4, v + 7], v + 8), LowerCode(v, next)))
  }

  function LowerCode(v: nat, next: Code): Code {
    Plain(Whole(Opcode.Sub, [v + 2, v + 1], v + 9), Plain(Whole(Select, [v + 8, v + 9, v + 2], v + 10), next))
  }

  /** The operands and the numbers are of the width, and the tests are bools. */
  predicate FloorTypes(types: Types, w: Width, left: nat, right: nat, v: nat) {
    && types(left) == w && types(right) == w && types(v) == w && types(v + 1) == w && types(v + 2) == w && types(v + 3) == w
    && types(v + 4) == 1 && types(v + 5) == 1 && types(v + 6) == 1 && types(v + 7) == 1 && types(v + 8) == 1
    && types(v + 9) == w && types(v + 10) == w
  }

  ghost predicate SameBelow(s: Cells, t: Cells, v: nat) {
    forall k: nat {:trigger CellOf(t, k)} :: k < v ==> CellOf(t, k) == CellOf(s, k)
  }

  /** One more value of the frame. */
  lemma Gets(types: Types, inst: Inst, next: Code, cells: Cells, value: Word, fuel: nat)
    requires inst.Compute? && inst.result != 0 && Computed(types, inst, cells) == Gives(value)
    ensures Exec(Meant(types), Plain(inst, next), cells, fuel) == Exec(Meant(types), next, Put(cells, inst.result, value), fuel)
  {
    hide Computed;
    GoesOn(Meant(types), inst, next, cells, Put(cells, inst.result, value), fuel);
  }

  lemma LowerRuns(types: Types, w: Width, left: nat, right: nat, v: nat, next: Code, cells: Cells, adjust: bool, fuel: nat) returns (after: Cells)
    requires FloorTypes(types, w, left, right, v) && 0 < v
    requires CellOf(cells, v + 1) == 1 && CellOf(cells, v + 8) == Bool(adjust)
    ensures Exec(Meant(types), LowerCode(v, next), cells, fuel) == Exec(Meant(types), next, after, fuel)
    ensures SameBelow(cells, after, v)
    ensures CellOf(after, v + 10) ==
            if adjust then Arithmetic(Operator.Sub, w, CellOf(cells, v + 2), 1).value else CellOf(cells, v + 2)
  {
    hide Put, CellOf, Arithmetic, Exec, Computed;
    ReadsPut();
    var choose := Whole(Select, [v + 8, v + 9, v + 2], v + 10);
    var lower := Arithmetic(Operator.Sub, w, CellOf(cells, v + 2), 1);
    GivesLess(w, CellOf(cells, v + 2));
    ComputesBinary(types, Opcode.Sub, Operator.Sub, v + 2, v + 1, v + 9, cells);
    Gets(types, Whole(Opcode.Sub, [v + 2, v + 1], v + 9), Plain(choose, next), cells, lower.value, fuel);
    var one := Put(cells, v + 9, lower.value);
    ComputesChoice(types, v + 8, v + 9, v + 2, v + 10, one);
    var answer := CellOf(one, if adjust then v + 9 else v + 2);
    Gets(types, choose, next, one, answer, fuel);
    after := Put(one, v + 10, answer);
  }

  lemma GivesLess(w: Width, value: Word)
    ensures Arithmetic(Operator.Sub, w, value, 1).Gives?
  {
  }

  lemma ApartRuns(types: Types, w: Width, left: nat, right: nat, v: nat, next: Code, cells: Cells,
                  inexact: bool, below: bool, under: bool, fuel: nat) returns (after: Cells)
    requires FloorTypes(types, w, left, right, v) && 0 < v && CellOf(cells, v + 1) == 1
    requires CellOf(cells, v + 4) == Bool(inexact) && CellOf(cells, v + 5) == Bool(below) && CellOf(cells, v + 6) == Bool(under)
    ensures Exec(Meant(types), ApartCode(v, next), cells, fuel) == Exec(Meant(types), next, after, fuel)
    ensures SameBelow(cells, after, v)
    ensures CellOf(after, v + 10) ==
            if inexact && below != under then Arithmetic(Operator.Sub, w, CellOf(cells, v + 2), 1).value else CellOf(cells, v + 2)
  {
    hide Put, CellOf, Arithmetic, Exec, Computed, LowerCode, SameBelow;
    ReadsPut();
    var both := Whole(Opcode.And, [v + 4, v + 7], v + 8);
    OfBools(below, under);
    ComputesBinary(types, Opcode.Xor, Operator.Xor, v + 5, v + 6, v + 7, cells);
    Gets(types, Whole(Opcode.Xor, [v + 5, v + 6], v + 7), Plain(both, LowerCode(v, next)), cells, Bool(below != under), fuel);
    var one := Put(cells, v + 7, Bool(below != under));
    OfBools(inexact, below != under);
    ComputesBinary(types, Opcode.And, Operator.And, v + 4, v + 7, v + 8, one);
    Gets(types, both, LowerCode(v, next), one, Bool(inexact && below != under), fuel);
    var two := Put(one, v + 8, Bool(inexact && below != under));
    GivesLess(w, CellOf(cells, v + 2));
    after := LowerRuns(types, w, left, right, v, next, two, inexact && below != under, fuel);
    SameBelowAll(cells, two, after, v);
  }

  function BelowNone(value: Word, w: Width): Word {
    Bool(Widen(value, w) < 0)
  }

  function NotNone(value: Word): Word {
    Bool(value != 0)
  }

  /** Whether a value of the width is below 0. */
  lemma TestsBelow(types: Types, w: Width, a: nat, zero: nat, value: nat, next: Code, cells: Cells, fuel: nat)
    requires types(a) == w && CellOf(cells, zero) == 0 && value != 0
    ensures Exec(Meant(types), Plain(Whole(SLt, [a, zero], value), next), cells, fuel)
         == Exec(Meant(types), next, Put(cells, value, BelowNone(CellOf(cells, a), w)), fuel)
  {
    hide Exec, Computed, Widen;
    NoneIsZero(w);
    ComputesComparison(types, SLt, X8664Machine.Less, a, zero, value, cells);
    Gets(types, Whole(SLt, [a, zero], value), next, cells, BelowNone(CellOf(cells, a), w), fuel);
  }

  /** Whether it is not 0. */
  lemma TestsNone(types: Types, a: nat, zero: nat, value: nat, next: Code, cells: Cells, fuel: nat)
    requires CellOf(cells, zero) == 0 && value != 0
    ensures Exec(Meant(types), Plain(Whole(Ne, [a, zero], value), next), cells, fuel)
         == Exec(Meant(types), next, Put(cells, value, NotNone(CellOf(cells, a))), fuel)
  {
    hide Exec, Computed, Widen;
    ComputesComparison(types, Ne, X8664Machine.NotEqual, a, zero, value, cells);
    Gets(types, Whole(Ne, [a, zero], value), next, cells, NotNone(CellOf(cells, a)), fuel);
  }

  lemma TestsRun(types: Types, w: Width, left: nat, right: nat, v: nat, next: Code, cells: Cells, fuel: nat) returns (after: Cells)
    requires FloorTypes(types, w, left, right, v) && 0 < right < v && CellOf(cells, v) == 0
    ensures Exec(Meant(types), AdjustCode(right, v, next), cells, fuel) == Exec(Meant(types), ApartCode(v, next), after, fuel)
    ensures SameBelow(cells, after, v + 4)
    ensures CellOf(after, v + 4) == NotNone(CellOf(cells, v + 3)) && CellOf(after, v + 5) == BelowNone(CellOf(cells, v + 3), w)
    ensures CellOf(after, v + 6) == BelowNone(CellOf(cells, right), w)
  {
    hide Put, CellOf, Exec, Computed, BelowNone, NotNone, ApartCode, Meant;
    ReadsPut();
    var tail := ApartCode(v, next);
    var second := Plain(Whole(SLt, [right, v], v + 6), tail);
    var first := Plain(Whole(SLt, [v + 3, v], v + 5), second);
    var one := Put(cells, v + 4, NotNone(CellOf(cells, v + 3)));
    var two := Put(one, v + 5, BelowNone(CellOf(cells, v + 3), w));
    after := Put(two, v + 6, BelowNone(CellOf(cells, right), w));
    TestsNone(types, v + 3, v, v + 4, first, cells, fuel);
    TestsBelow(types, w, v + 3, v, v + 5, second, one, fuel);
    TestsBelow(types, w, right, v, v + 6, tail, two, fuel);
  }

  lemma AdjustRuns(types: Types, w: Width, left: nat, right: nat, v: nat, next: Code, cells: Cells, fuel: nat) returns (after: Cells)
    requires FloorTypes(types, w, left, right, v) && 0 < right < v && CellOf(cells, v) == 0 && CellOf(cells, v + 1) == 1
    ensures Exec(Meant(types), AdjustCode(right, v, next), cells, fuel) == Exec(Meant(types), next, after, fuel)
    ensures SameBelow(cells, after, v)
    ensures var (quotient, rest) := (CellOf(cells, v + 2), CellOf(cells, v + 3));
            CellOf(after, v + 10) ==
            if rest != 0 && ((Widen(rest, w) < 0) != (Widen(CellOf(cells, right), w) < 0))
            then Give(Arithmetic(Operator.Sub, w, quotient, 1)) else quotient
  {
    hide Put, CellOf, Arithmetic, Exec, Computed, Widen, ApartCode, AdjustCode, FloorTypes;
    ReadsPut();
    var rest, divisor := CellOf(cells, v + 3), CellOf(cells, right);
    var tested := TestsRun(types, w, left, right, v, next, cells, fuel);
    assert CellOf(tested, v + 1) == 1 && CellOf(tested, v + 2) == CellOf(cells, v + 2);
    GivesLess(w, CellOf(cells, v + 2));
    after := ApartRuns(types, w, left, right, v, next, tested, rest != 0, Widen(rest, w) < 0, Widen(divisor, w) < 0, fuel);
    SameBelowAll(cells, tested, after, v);
  }

  lemma SameBelowAll(s: Cells, t: Cells, u: Cells, v: nat)
    requires SameBelow(t, u, v) && forall k: nat :: k < v ==> CellOf(t, k) == CellOf(s, k)
    ensures SameBelow(s, u, v)
  {
    forall k: nat | k < v
      ensures CellOf(u, k) == CellOf(s, k)
    {
      assert CellOf(t, k) == CellOf(s, k);
    }
  }

  lemma NoneIsZero(w: Width)
    ensures Widen(0, w) == 0
  {
    WidenIsSigned(0, w);
    FloorIs(0, Two(w), 0, 0);
  }

  /** The code leaves the quotient rounded down, and stops at its first division by zero. */
  lemma FloorRuns(types: Types, w: Width, left: nat, right: nat, v: nat, next: Code, cells: Cells, fuel: nat) returns (after: Cells)
    requires IsWhole(w) && FloorTypes(types, w, left, right, v) && 0 < left < v && 0 < right < v
    requires CellOf(cells, left) < Two(w) && CellOf(cells, right) < Two(w)
    ensures SameBelow(cells, after, v)
    ensures var outcome := Exec(Meant(types), FloorCode(left, right, v, next), cells, fuel);
            match FloorMeaning(w, CellOf(cells, left), CellOf(cells, right))
            case Gives(answer) => outcome == Exec(Meant(types), next, after, fuel) && CellOf(after, v + 10) == answer
            case DivisionByZero => outcome == Ended(Halted(Whole(Opcode.SDiv, [left, right], v + 2), after))
  {
    hide Put, CellOf, Arithmetic, Exec, Computed, Widen, AdjustCode, FloorMeaning, FloorDivided, SameBelow, Meant;
    ReadsPut();
    var a, b := CellOf(cells, left), CellOf(cells, right);
    var divide := Whole(Opcode.SDiv, [left, right], v + 2);
    var divided := DividedCode(left, right, v, next);
    FloorDividedMeans(w, a, b);
    Quotients(w, a, b);
    ComputesNumber(types, 0, v, cells);
    Gets(types, Number(0, v), Plain(Number(1, v + 1), Plain(divide, divided)), cells, 0, fuel);
    var zero := Put(cells, v, 0);
    ComputesNumber(types, 1, v + 1, zero);
    Gets(types, Number(1, v + 1), Plain(divide, divided), zero, 1, fuel);
    var one := Put(zero, v + 1, 1);
    ComputesBinary(types, Opcode.SDiv, Operator.SDiv, left, right, v + 2, one);
    SameBelowTwo(cells, v);
    if b == 0 {
      MeantStops(types, divide, one);
      StopsAt(Meant(types), divide, divided, one, fuel);
      after := one;
    } else {
      var quotient := Arithmetic(Operator.SDiv, w, a, b).value;
      Gets(types, divide, divided, one, quotient, fuel);
      after := DividedRuns(types, w, left, right, v, next, Put(one, v + 2, quotient), fuel);
      SameBelowAll(cells, Put(one, v + 2, quotient), after, v);
    }
  }

  lemma MeantStops(types: Types, inst: Inst, cells: Cells)
    requires inst.Compute? && Computed(types, inst, cells) == DivisionByZero
    ensures Meant(types).compute(inst, cells) == Stop(cells)
  {
  }

  lemma DividedRuns(types: Types, w: Width, left: nat, right: nat, v: nat, next: Code, cells: Cells, fuel: nat) returns (after: Cells)
    requires FloorTypes(types, w, left, right, v) && 0 < right < v && CellOf(cells, v) == 0 && CellOf(cells, v + 1) == 1
    requires Arithmetic(Operator.SRem, w, CellOf(cells, left), CellOf(cells, right)).Gives? && left < v
    ensures Exec(Meant(types), DividedCode(left, right, v, next), cells, fuel) == Exec(Meant(types), next, after, fuel)
    ensures SameBelow(cells, after, v)
    ensures var (quotient, rest) := (CellOf(cells, v + 2), Arithmetic(Operator.SRem, w, CellOf(cells, left), CellOf(cells, right)).value);
            CellOf(after, v + 10) ==
            if rest != 0 && ((Widen(rest, w) < 0) != (Widen(CellOf(cells, right), w) < 0))
            then Give(Arithmetic(Operator.Sub, w, quotient, 1)) else quotient
  {
    hide Put, CellOf, Arithmetic, Exec, Computed, Widen, AdjustCode, SameBelow, Meant;
    ReadsPut();
    var rest := Arithmetic(Operator.SRem, w, CellOf(cells, left), CellOf(cells, right)).value;
    ComputesBinary(types, Opcode.SRem, Operator.SRem, left, right, v + 3, cells);
    Gets(types, Whole(Opcode.SRem, [left, right], v + 3), AdjustCode(right, v, next), cells, rest, fuel);
    var one := Put(cells, v + 3, rest);
    after := AdjustRuns(types, w, left, right, v, next, one, fuel);
    SameBelowAll(cells, one, after, v);
  }

  lemma SameBelowTwo(cells: Cells, v: nat)
    ensures SameBelow(cells, Put(Put(cells, v, 0), v + 1, 1), v)
  {
  }

  /** What the steps of `FloorDivided` are, unfolded once. */
  lemma Quotients(w: Width, a: Word, b: Word)
    requires a < Two(w) && b < Two(w)
    ensures b == 0 ==> Arithmetic(Operator.SDiv, w, a, b) == DivisionByZero == FloorDivided(w, a, b)
    ensures b != 0 ==>
              && Arithmetic(Operator.SDiv, w, a, b).Gives? && Arithmetic(Operator.SRem, w, a, b).Gives?
              && var (quotient, rest) := (Arithmetic(Operator.SDiv, w, a, b).value, Arithmetic(Operator.SRem, w, a, b).value);
                 FloorDivided(w, a, b) == Gives(if rest != 0 && ((Widen(rest, w) < 0) != (Widen(b, w) < 0))
                                                then Give(Arithmetic(Operator.Sub, w, quotient, 1)) else quotient)
  {
    hide Widen;
  }

  // ----- On the machine -----

  /** A function that gives back its first parameter divided by its second, rounded down. */
  function FloorFunction(): Structured {
    Structured(2, FloorCode(1, 2, 3, Plain(Ret(13, HERE), End)), false)
  }

  function FloorOperands(w: Width): Types {
    (value: nat) => if 7 <= value <= 11 then 1 as Width else w
  }

  /** The numbers below `n`, but 0. */
  function Upto(n: nat): (numbers: set<nat>)
    ensures forall k: nat :: k in numbers <==> 0 < k < n
  {
    if n <= 1 then {} else Upto(n - 1) + {n - 1}
  }

  predicate GivesValue(inst: Inst) {
    inst.Ret? ==> inst.value != 0
  }

  /** A list that can be compiled where the values given back so far are those below `n`. */
  ghost predicate Stands(types: Types, code: Code, n: nat) {
    && Flattener.WellScoped(code, []) && FlattenerScope.Verified(code, Upto(n), false) && FlattenerScope.Fresh(code, Upto(n))
    && CompiledRuns.CodeWritten(types, code) && FlattenerVerified.Admitted(code, GivesValue)
    && !FlattenerVerified.FallsOff(code, true)
  }

  lemma StandsMore(types: Types, inst: Inst, next: Code, n: nat)
    requires inst.Compute? && inst.result == n && 0 < n && inst.at == HERE && !inst.opcode.VCall? && CompiledRuns.IsWritten(types, inst)
    requires forall value <- inst.operands :: 0 < value < n
    requires Stands(types, next, n + 1)
    ensures Stands(types, Plain(inst, next), n)
  {
    hide CompiledRuns.IsWritten;
    assert Upto(n) + {n} == Upto(n + 1);
    assert FlattenerScope.Given(inst) == {n};
    assert Checked(inst) == inst.operands;
    var code := Plain(inst, next);
    assert FlattenerScope.SeenAfter(code, Upto(n)) == Upto(n + 1);
    assert FlattenerScope.VerifiedHead(code, Upto(n), false);
    assert FlattenerScope.Verified(code, Upto(n), false);
    assert FlattenerScope.DefinedHead(code) == {n};
    assert FlattenerScope.Fresh(code, Upto(n));
    assert FlattenerVerified.Admitted(code, GivesValue);
    assert !FlattenerVerified.FallsOff(code, true);
    assert Flattener.WellScoped(code, []);
    assert CompiledRuns.CodeWritten(types, code);
  }

  lemma StandsAtLast(types: Types, value: nat, n: nat)
    requires 0 < value < n
    ensures Stands(types, Plain(Ret(value, HERE), End), n)
  {
  }

  lemma BinaryWritten(types: Types, opcode: Opcode, op: Operator, a: nat, b: nat, value: nat)
    requires X8664Writer.OperatorOf(opcode) == X8664Writer.Binary(op) && value != 0
    requires types(a) == types(b) == types(value) && (types(value) == 1 ==> op == Operator.And || op == Operator.Xor)
    ensures CompiledRuns.IsWritten(types, Whole(opcode, [a, b], value))
  {
    assert X8664Writer.KindOf(types, Whole(opcode, [a, b], value)) == X8664Writer.Binary(op);
  }

  lemma ComparisonWritten(types: Types, opcode: Opcode, condition: X8664Machine.Condition, a: nat, b: nat, value: nat)
    requires X8664Writer.OperatorOf(opcode) == X8664Writer.Comparison(condition) && value != 0
    requires types(a) == types(b) != 1 && types(value) == 1
    ensures CompiledRuns.IsWritten(types, Whole(opcode, [a, b], value))
  {
    assert X8664Writer.KindOf(types, Whole(opcode, [a, b], value)) == X8664Writer.Comparison(condition);
  }

  lemma ChoiceWritten(types: Types, condition: nat, a: nat, b: nat, value: nat)
    requires types(condition) == 1 && types(a) == types(b) == types(value) && value != 0
    ensures CompiledRuns.IsWritten(types, Whole(Select, [condition, a, b], value))
  {
    assert X8664Writer.KindOf(types, Whole(Select, [condition, a, b], value)) == X8664Writer.Choice;
  }

  lemma NumberWritten(types: Types, bits: nat, value: nat)
    requires bits < 2 && types(value) != 1 && value != 0
    ensures CompiledRuns.IsWritten(types, Number(bits, value))
  {
    assert X8664Writer.KindOf(types, Number(bits, value)) == X8664Writer.Constant(bits);
  }

  lemma LowerStands(types: Types, w: Width, next: Code)
    requires IsWhole(w) && FloorTypes(types, w, 1, 2, 3) && Stands(types, next, 14)
    ensures Stands(types, ApartCode(3, next), 10)
  {
    hide Stands, CompiledRuns.IsWritten, X8664Writer.OperatorOf;
    ChoiceWritten(types, 11, 12, 5, 13);
    var choose := Plain(Whole(Select, [11, 12, 5], 13), next);
    StandsMore(types, choose.inst, next, 13);
    Operators();
    BinaryWritten(types, Opcode.Sub, Operator.Sub, 5, 4, 12);
    StandsMore(types, Whole(Opcode.Sub, [5, 4], 12), choose, 12);
    BinaryWritten(types, Opcode.And, Operator.And, 7, 10, 11);
    StandsMore(types, Whole(Opcode.And, [7, 10], 11), LowerCode(3, next), 11);
    BinaryWritten(types, Opcode.Xor, Operator.Xor, 8, 9, 10);
    StandsMore(types, Whole(Opcode.Xor, [8, 9], 10), Plain(Whole(Opcode.And, [7, 10], 11), LowerCode(3, next)), 10);
  }

  lemma Operators()
    ensures X8664Writer.OperatorOf(Opcode.Sub) == X8664Writer.Binary(Operator.Sub)
    ensures X8664Writer.OperatorOf(Opcode.And) == X8664Writer.Binary(Operator.And)
    ensures X8664Writer.OperatorOf(Opcode.Xor) == X8664Writer.Binary(Operator.Xor)
    ensures X8664Writer.OperatorOf(Opcode.SRem) == X8664Writer.Binary(Operator.SRem)
    ensures X8664Writer.OperatorOf(Opcode.SDiv) == X8664Writer.Binary(Operator.SDiv)
    ensures X8664Writer.OperatorOf(SLt) == X8664Writer.Comparison(X8664Machine.Less)
    ensures X8664Writer.OperatorOf(Ne) == X8664Writer.Comparison(X8664Machine.NotEqual)
  {
  }

  lemma AdjustStands(types: Types, w: Width, next: Code)
    requires IsWhole(w) && FloorTypes(types, w, 1, 2, 3) && Stands(types, next, 14)
    ensures Stands(types, AdjustCode(2, 3, next), 7)
  {
    hide Stands, CompiledRuns.IsWritten, ApartCode, X8664Writer.OperatorOf;
    LowerStands(types, w, next);
    Operators();
    var second := Plain(Whole(SLt, [2, 3], 9), ApartCode(3, next));
    ComparisonWritten(types, SLt, X8664Machine.Less, 2, 3, 9);
    StandsMore(types, second.inst, ApartCode(3, next), 9);
    ComparisonWritten(types, SLt, X8664Machine.Less, 6, 3, 8);
    StandsMore(types, Whole(SLt, [6, 3], 8), second, 8);
    ComparisonWritten(types, Ne, X8664Machine.NotEqual, 6, 3, 7);
    StandsMore(types, Whole(Ne, [6, 3], 7), Plain(Whole(SLt, [6, 3], 8), second), 7);
  }

  lemma DividedStands(types: Types, w: Width, next: Code)
    requires IsWhole(w) && FloorTypes(types, w, 1, 2, 3) && Stands(types, next, 14)
    ensures Stands(types, FloorCode(1, 2, 3, next), 3)
  {
    hide Stands, CompiledRuns.IsWritten, AdjustCode, X8664Writer.OperatorOf;
    AdjustStands(types, w, next);
    Operators();
    BinaryWritten(types, Opcode.SRem, Operator.SRem, 1, 2, 6);
    StandsMore(types, Whole(Opcode.SRem, [1, 2], 6), AdjustCode(2, 3, next), 6);
    BinaryWritten(types, Opcode.SDiv, Operator.SDiv, 1, 2, 5);
    var divided := Plain(Whole(Opcode.SDiv, [1, 2], 5), DividedCode(1, 2, 3, next));
    StandsMore(types, divided.inst, DividedCode(1, 2, 3, next), 5);
    NumberWritten(types, 1, 4);
    StandsMore(types, Number(1, 4), divided, 4);
    NumberWritten(types, 0, 3);
    StandsMore(types, Number(0, 3), Plain(Number(1, 4), divided), 3);
  }

  lemma FloorStands(w: Width)
    requires IsWhole(w)
    ensures FloorTypes(FloorOperands(w), w, 1, 2, 3) && Stands(FloorOperands(w), FloorFunction().body, 3)
  {
    hide Stands, FloorCode;
    StandsAtLast(FloorOperands(w), 13, 14);
    DividedStands(FloorOperands(w), w, Plain(Ret(13, HERE), End));
  }

  lemma FloorIsCompilable(w: Width)
    requires IsWhole(w)
    ensures CompiledRuns.Compilable(FloorOperands(w), FloorFunction(), 2)
    ensures FlattenerVerified.Admitted(FloorFunction().body, GivesValue)
  {
    hide FloorFunction, CompiledRuns.CodeWritten, FlattenerVerified.Admitted, FlattenerVerified.FallsOff, FlattenerScope.Verified, FlattenerScope.Fresh;
    hide Upto, FloorTypes, Flattener.WellScoped;
    FloorStands(w);
    TwoGiven();
  }

  lemma TwoGiven()
    ensures FloorFunction().parameters == 2 && Parameters(2).Keys == Upto(3) && !FloorFunction().realTime
  {
    assert forall v: nat :: v in Parameters(2).Keys <==> v in Upto(3);
  }

  lemma FloorIsWritable(w: Width)
    requires IsWhole(w)
    ensures Flattener.Flattenable(FloorFunction()) && X8664Runs.Writable(FloorOperands(w), Flattener.Flatten(FloorFunction()), 2)
  {
    hide X8664Runs.Writable, Flattener.Flatten, FloorFunction, CompiledRuns.Compilable;
    FloorIsCompilable(w);
    CompiledRuns.CompilableIsWritable(FloorOperands(w), FloorFunction(), 2);
  }

  /** Every return of its CFG names a value. */
  lemma FloorGivesAValue(w: Width)
    requires IsWhole(w) && Flattener.Flattenable(FloorFunction())
    requires Verifier.InRange(Flattener.Flatten(FloorFunction()))
    ensures X8664Runs.GivesAValue(Flattener.Flatten(FloorFunction()))
  {
    hide Flattener.Flatten, FloorFunction, CompiledRuns.Compilable, FlattenerVerified.Admitted, FlattenerVerified.Admits;
    FloorIsCompilable(w);
    FlattenerVerified.FlattenAdmits(FloorFunction(), GivesValue);
    var cfg := Flattener.Flatten(FloorFunction());
    forall block <- cfg.order, i | 0 <= i < |cfg.blocks[block].insts| && cfg.blocks[block].insts[i].Ret?
      ensures cfg.blocks[block].insts[i].value != 0
    {
      assert GivesValue(cfg.blocks[block].insts[i]);
    }
  }

  /** What the function comes to. */
  lemma FloorEnds(w: Width, cells: Cells) returns (result: Interpreter.Result<Cells>)
    requires IsWhole(w) && CellOf(cells, 1) < Two(w) && CellOf(cells, 2) < Two(w)
    ensures FlattenerMeaning.StructuredEnds(Meant(FloorOperands(w)), FloorFunction(), cells, result)
    ensures match FloorMeaning(w, CellOf(cells, 1), CellOf(cells, 2))
            case Gives(answer) => result.Left? && result.value == answer
            case DivisionByZero => result.Halted?
  {
    hide Exec, FloorMeaning, FloorCode;
    var types, last := FloorOperands(w), Plain(Ret(13, HERE), End);
    var after := FloorRuns(types, w, 1, 2, 3, last, cells, 0);
    var r := FloorMeaning(w, CellOf(cells, 1), CellOf(cells, 2));
    if r.Gives? {
      result := Interpreter.Left(r.value, after);
      LastGives(types, 13, after, 0);
    } else {
      result := Halted(Whole(Opcode.SDiv, [1, 2], 5), after);
    }
    assert FlattenerMeaning.ComesTo(Exec(Meant(types), FloorFunction().body, cells, 0), result);
  }

  lemma LastGives(types: Types, value: nat, cells: Cells, fuel: nat)
    requires value != 0
    ensures Exec(Meant(types), Plain(Ret(value, HERE), End), cells, fuel) == Ended(Interpreter.Left(CellOf(cells, value), cells))
  {
    assert ExecHead(Meant(types), Plain(Ret(value, HERE), End), cells, fuel) == Ended(Interpreter.Left(CellOf(cells, value), cells));
  }

  /** The text of that function gives back the quotient rounded down, and aborts on a divisor of 0. */
  lemma FloorOnTheMachine(w: Width, cells: Cells, s: X8664Machine.State)
    requires IsWhole(w) && X8664Runs.Begins(FloorOperands(w), 2, s, cells)
    ensures CellOf(cells, 1) < Two(w) && CellOf(cells, 2) < Two(w)
    ensures Flattener.Flattenable(FloorFunction()) && X8664Runs.Writable(FloorOperands(w), Flattener.Flatten(FloorFunction()), 2)
    ensures X8664Runs.MachineEnds(X8664Runs.TextOf(FloorOperands(w), Flattener.Flatten(FloorFunction())), s,
                                  match FloorMeaning(w, CellOf(cells, 1), CellOf(cells, 2))
                                  case Gives(answer) => X8664Machine.Returned(answer)
                                  case DivisionByZero => X8664Machine.Aborted)
  {
    OperandsAreWords(w, cells, s);
    hide Flattener.Flatten, FloorFunction, FloorMeaning, X8664Runs.TextOf, X8664Runs.MachineEnds, FlattenerMeaning.StructuredEnds;
    hide FlattenerMeaning.CfgEnds, X8664Runs.Begins, Verifier.Accepted, X8664Runs.GivesAValue;
    var types, cfg := FloorOperands(w), Flattener.Flatten(FloorFunction());
    FloorIsWritable(w);
    FloorGivesAValue(w);
    var result := FloorEnds(w, cells);
    var ending := EndsOnTheMachine(types, cells, s, result);
  }

  lemma EndsOnTheMachine(types: Types, cells: Cells, s: X8664Machine.State, result: Interpreter.Result<Cells>) returns (ending: X8664Machine.Ending)
    requires Flattener.Flattenable(FloorFunction()) && X8664Runs.Writable(types, Flattener.Flatten(FloorFunction()), 2)
    requires X8664Runs.Begins(types, 2, s, cells) && FlattenerMeaning.StructuredEnds(Meant(types), FloorFunction(), cells, result) && !result.Exceeded?
    ensures X8664Runs.MachineEnds(X8664Runs.TextOf(types, Flattener.Flatten(FloorFunction())), s, ending)
    ensures X8664Runs.Agrees(Flattener.Flatten(FloorFunction()), result, ending)
  {
    hide Flattener.Flatten, FloorFunction, X8664Runs.TextOf, X8664Runs.MachineEnds, FlattenerMeaning.StructuredEnds, X8664Runs.Agrees;
    hide FlattenerMeaning.CfgEnds, X8664Runs.Begins, Verifier.Accepted, VerifierSoundness.Complete, VerifierSoundness.Consistent, Meant;
    var cfg := Flattener.Flatten(FloorFunction());
    FlattenerMeaning.FlattenPreserves(Meant(types), FloorFunction(), cells, result);
    X8664Runs.EndsTogether(types, cfg, 2, cells, s);
    ending :| X8664Runs.MachineEnds(X8664Runs.TextOf(types, cfg), s, ending) && X8664Runs.Agrees(cfg, result, ending);
  }

  lemma OperandsAreWords(w: Width, cells: Cells, s: X8664Machine.State)
    requires IsWhole(w) && X8664Runs.Begins(FloorOperands(w), 2, s, cells)
    ensures CellOf(cells, 1) < Two(w) && CellOf(cells, 2) < Two(w)
  {
    assert 1 in VerifierSoundness.Arguments(2) && 2 in VerifierSoundness.Arguments(2);
    assert X8664Meaning.HoldsValue(FloorOperands(w), s, cells, 1) && X8664Meaning.HoldsValue(FloorOperands(w), s, cells, 2);
  }

  // ----- Slots -----

  /** A frame's values, and its slots by the value that holds their address. */
  datatype Frame = Frame(cells: Cells, slots: Cells)

  function Loading(slot: nat, value: nat): Inst {
    Compute(Opcode.Load, [slot], value, 0, HERE)
  }

  function Storing(value: nat, slot: nat): Inst {
    Compute(Opcode.Store, [value, slot], 0, 0, HERE)
  }

  function Does(types: Types, inst: Inst, s: Frame): Effect<Frame>
    requires inst.Compute?
  {
    if inst.opcode.Load? && |inst.operands| == 1 then Next(s.(cells := Put(s.cells, inst.result, CellOf(s.slots, inst.operands[0]))))
    else if inst.opcode.Store? && |inst.operands| == 2 then Next(s.(slots := Put(s.slots, inst.operands[1], CellOf(s.cells, inst.operands[0]))))
    else
      match Computed(types, inst, s.cells)
      case Gives(value) => Next(s.(cells := Put(s.cells, inst.result, value)))
      case DivisionByZero => Stop(s)
  }

  function Slotted(types: Types): Meaning<Frame> {
    Meaning(
      (inst: Inst, s: Frame) => if inst.Compute? then Does(types, inst, s) else Next(s),
      (value: nat, s: Frame) => CellOf(s.cells, value),
      (parameters: seq<nat>, arguments: seq<nat>, s: Frame) => s)
  }

  /** One more value, one more of a slot's, and one more into a slot. */
  lemma GetsOne(types: Types, inst: Inst, next: Code, cells: Cells, slots: Cells, value: Word, fuel: nat)
    requires inst.Compute? && !inst.opcode.Load? && !inst.opcode.Store? && Computed(types, inst, cells) == Gives(value)
    ensures Exec(Slotted(types), Plain(inst, next), Frame(cells, slots), fuel)
         == Exec(Slotted(types), next, Frame(Put(cells, inst.result, value), slots), fuel)
  {
    hide Computed, Put;
    GoesOn(Slotted(types), inst, next, Frame(cells, slots), Frame(Put(cells, inst.result, value), slots), fuel);
  }

  lemma LoadsOne(types: Types, slot: nat, value: nat, next: Code, cells: Cells, slots: Cells, fuel: nat)
    ensures Exec(Slotted(types), Plain(Loading(slot, value), next), Frame(cells, slots), fuel)
         == Exec(Slotted(types), next, Frame(Put(cells, value, CellOf(slots, slot)), slots), fuel)
  {
    hide Put, CellOf;
    GoesOn(Slotted(types), Loading(slot, value), next, Frame(cells, slots), Frame(Put(cells, value, CellOf(slots, slot)), slots), fuel);
  }

  lemma StoresOne(types: Types, value: nat, slot: nat, next: Code, cells: Cells, slots: Cells, fuel: nat)
    ensures Exec(Slotted(types), Plain(Storing(value, slot), next), Frame(cells, slots), fuel)
         == Exec(Slotted(types), next, Frame(cells, Put(slots, slot, CellOf(cells, value))), fuel)
  {
    hide Put, CellOf;
    GoesOn(Slotted(types), Storing(value, slot), next, Frame(cells, slots), Frame(cells, Put(slots, slot, CellOf(cells, value))), fuel);
  }

  /** The operators the power is written with. */
  lemma CountsOne(types: Types, opcode: Opcode, op: Operator, a: nat, b: nat, value: nat, next: Code, cells: Cells, slots: Cells, fuel: nat)
    requires X8664Writer.OperatorOf(opcode) == X8664Writer.Binary(op) && Arithmetic(op, types(a), CellOf(cells, a), CellOf(cells, b)).Gives?
    ensures Exec(Slotted(types), Plain(Whole(opcode, [a, b], value), next), Frame(cells, slots), fuel)
         == Exec(Slotted(types), next, Frame(Put(cells, value, Give(Arithmetic(op, types(a), CellOf(cells, a), CellOf(cells, b)))), slots), fuel)
  {
    hide Computed, Put, CellOf, Arithmetic, Exec, Slotted;
    ComputesBinary(types, opcode, op, a, b, value, cells);
    GetsOne(types, Whole(opcode, [a, b], value), next, cells, slots, Give(Arithmetic(op, types(a), CellOf(cells, a), CellOf(cells, b))), fuel);
  }

  function Pick(condition: Word, a: Word, b: Word): Word {
    if condition != 0 then a else b
  }

  lemma PicksOne(types: Types, condition: nat, a: nat, b: nat, value: nat, next: Code, cells: Cells, slots: Cells, fuel: nat)
    ensures Exec(Slotted(types), Plain(Whole(Select, [condition, a, b], value), next), Frame(cells, slots), fuel)
         == Exec(Slotted(types), next, Frame(Put(cells, value, Pick(CellOf(cells, condition), CellOf(cells, a), CellOf(cells, b))), slots), fuel)
  {
    hide Computed, Put, CellOf, Exec, Slotted;
    ComputesChoice(types, condition, a, b, value, cells);
    GetsOne(types, Whole(Select, [condition, a, b], value), next, cells, slots, Pick(CellOf(cells, condition), CellOf(cells, a), CellOf(cells, b)), fuel);
  }

  function Same(a: Word, b: Word): Word {
    Bool(a == b)
  }

  lemma ComparesOne(types: Types, a: nat, b: nat, value: nat, next: Code, cells: Cells, slots: Cells, fuel: nat)
    ensures Exec(Slotted(types), Plain(Whole(Eq, [a, b], value), next), Frame(cells, slots), fuel)
         == Exec(Slotted(types), next, Frame(Put(cells, value, Same(CellOf(cells, a), CellOf(cells, b))), slots), fuel)
  {
    hide Computed, Put, CellOf, Exec, Slotted;
    ComputesComparison(types, Eq, X8664Machine.Equal, a, b, value, cells);
    GetsOne(types, Whole(Eq, [a, b], value), next, cells, slots, Same(CellOf(cells, a), CellOf(cells, b)), fuel);
  }

  lemma NumbersOne(types: Types, bits: Word, value: nat, next: Code, cells: Cells, slots: Cells, fuel: nat)
    ensures Exec(Slotted(types), Plain(Number(bits, value), next), Frame(cells, slots), fuel)
         == Exec(Slotted(types), next, Frame(Put(cells, value, bits), slots), fuel)
  {
    hide Computed, Put, CellOf, Exec, Slotted;
    ComputesNumber(types, bits, value, cells);
    GetsOne(types, Number(bits, value), next, cells, slots, bits, fuel);
  }

  // ----- The power -----

  /** `**` of two values of one width, with the slots of the answer and of the turn: from `v` up the
      values are 0 and 1; for signed ones -1, whether the exponent is below 0 and the eight of a
      negative one; the turn, whether it is the last, the answer so far and times the base, the next
      turn, and the answer. */
  function PowerCode(sign: bool, base: nat, exponent: nat, answer: nat, turn: nat, v: nat, region: nat, next: Code): Code {
    Plain(Number(0, v), Plain(Number(1, v + 1), Plain(Storing(v + 1, answer), Plain(Storing(v, turn),
      PowerRest(sign, base, exponent, answer, turn, v, region, Plain(Loading(answer, v + 17), next))))))
  }

  function PowerRest(sign: bool, base: nat, exponent: nat, answer: nat, turn: nat, v: nat, region: nat, next: Code): Code {
    if sign
    then Plain(Whole(Opcode.Sub, [v, v + 1], v + 2), Plain(Whole(SLt, [exponent, v], v + 3),
           If(region, v + 3, NegativeCode(base, exponent, answer, v), true,
              Loop(region + 1, NO_BOUND, RoundCode(sign, base, exponent, answer, turn, v, region), HERE, End), HERE, next)))
    else Loop(region + 1, NO_BOUND, RoundCode(sign, base, exponent, answer, turn, v, region), HERE, next)
  }

  function NegativeCode(base: nat, exponent: nat, answer: nat, v: nat): Code {
    Plain(Number(2, v + 4), Plain(Whole(Opcode.SRem, [exponent, v + 4], v + 5), Plain(Whole(Eq, [v + 5, v], v + 6),
    Plain(Whole(Select, [v + 6, v + 1, v + 2], v + 7), UnitsCode(base, answer, v)))))
  }

  function UnitsCode(base: nat, answer: nat, v: nat): Code {
    Plain(Whole(Eq, [base, v + 2], v + 8), Plain(Whole(Eq, [base, v + 1], v + 9),
    Plain(Whole(Select, [v + 8, v + 7, v], v + 10), Plain(Whole(Select, [v + 9, v + 1, v + 10], v + 11),
    Plain(Storing(v + 11, answer), End)))))
  }

  function RoundCode(sign: bool, base: nat, exponent: nat, answer: nat, turn: nat, v: nat, region: nat): Code {
    Plain(Loading(turn, v + 12), Plain(Whole(if sign then SGe else UGe, [v + 12, exponent], v + 13),
    If(region + 2, v + 13, Break(region + 1, HERE, End), false, End, HERE, MultiplyCode(base, answer, turn, v))))
  }

  function MultiplyCode(base: nat, answer: nat, turn: nat, v: nat): Code {
    Plain(Loading(answer, v + 14), Plain(Whole(Opcode.Mul, [v + 14, base], v + 15), Plain(Storing(v + 15, answer),
    Plain(Whole(Opcode.Add, [v + 12, v + 1], v + 16), Plain(Storing(v + 16, turn), End)))))
  }

  /** What the loop's values are of. */
  predicate PowerTypes(types: Types, w: Width, base: nat, exponent: nat, v: nat) {
    && types(base) == w && types(exponent) == w && types(v) == w && types(v + 5) == w
    && types(v + 12) == w && types(v + 14) == w
  }

  /** The operands are below their width, and the numbers are there. */
  predicate Ready(w: Width, base: nat, exponent: nat, v: nat, cells: Cells) {
    && 0 < base < v && 0 < exponent < v
    && CellOf(cells, base) < Two(w) && CellOf(cells, exponent) < Two(w) && CellOf(cells, v) == 0 && CellOf(cells, v + 1) == 1
  }

  ghost predicate KeepsOthers(s: Cells, t: Cells, answer: nat, turn: nat) {
    forall k: nat {:trigger CellOf(t, k)} :: k != answer && k != turn ==> CellOf(t, k) == CellOf(s, k)
  }

  /** One turn multiplies, and counts. */
  lemma MultiplyRuns(types: Types, w: Width, base: nat, exponent: nat, answer: nat, turn: nat, v: nat, cells: Cells, slots: Cells, fuel: nat)
      returns (after: Frame)
    requires PowerTypes(types, w, base, exponent, v) && Ready(w, base, exponent, v, cells) && answer != turn
    requires var (a, b, t) := (CellOf(slots, answer), CellOf(cells, base), CellOf(cells, v + 12));
             t < CellOf(cells, exponent) && a == Power(b, t) % Two(w)
    ensures Exec(Slotted(types), MultiplyCode(base, answer, turn, v), Frame(cells, slots), fuel) == Fall(after)
    ensures SameBelow(cells, after.cells, v + 2) && KeepsOthers(slots, after.slots, answer, turn)
    ensures CellOf(after.slots, answer) == Power(CellOf(cells, base), CellOf(cells, v + 12) + 1) % Two(w)
    ensures CellOf(after.slots, turn) == CellOf(cells, v + 12) + 1
  {
    hide Put, CellOf, Exec, Computed, Arithmetic, Slotted, Power;
    ReadsPut();
    var a, b, t := CellOf(slots, answer), CellOf(cells, base), CellOf(cells, v + 12);
    OneTurn(w, a, b, t, CellOf(cells, exponent));
    Sums(w, a, b);
    Sums(w, t, 1);
    var product, more := Give(Arithmetic(Operator.Mul, w, a, b)), Give(Arithmetic(Operator.Add, w, t, 1));
    var five := Plain(Storing(v + 16, turn), End);
    var four := Plain(Whole(Opcode.Add, [v + 12, v + 1], v + 16), five);
    var three := Plain(Storing(v + 15, answer), four);
    var c1 := Put(cells, v + 14, a);
    var c2 := Put(c1, v + 15, product);
    var s1 := Put(slots, answer, product);
    var c3 := Put(c2, v + 16, more);
    after := Frame(c3, Put(s1, turn, more));
    LoadsOne(types, answer, v + 14, Plain(Whole(Opcode.Mul, [v + 14, base], v + 15), three), cells, slots, fuel);
    CountsOne(types, Opcode.Mul, Operator.Mul, v + 14, base, v + 15, three, c1, slots, fuel);
    StoresOne(types, v + 15, answer, four, c2, slots, fuel);
    CountsOne(types, Opcode.Add, Operator.Add, v + 12, v + 1, v + 16, five, c2, s1, fuel);
    StoresOne(types, v + 16, turn, End, c3, s1, fuel);
    FallsAtEnd(types, after, fuel);
  }

  lemma FallsAtEnd(types: Types, s: Frame, fuel: nat)
    ensures Exec(Slotted(types), End, s, fuel) == Fall(s)
  {
  }

  lemma Sums(w: Width, a: Word, b: Word)
    ensures Arithmetic(Operator.Mul, w, a, b).Gives? && Arithmetic(Operator.Add, w, a, b).Gives?
  {
  }

  /** The turn is loaded, and its test's value says whether it is the last. */
  lemma TestRuns(types: Types, sign: bool, w: Width, base: nat, exponent: nat, answer: nat, turn: nat, v: nat, region: nat,
                 cells: Cells, slots: Cells, fuel: nat) returns (tested: Cells)
    requires PowerTypes(types, w, base, exponent, v) && Ready(w, base, exponent, v, cells)
    requires var (t, e) := (CellOf(slots, turn), CellOf(cells, exponent)); t <= e && (sign ==> Widen(e, w) >= 0)
    ensures CellOf(tested, v + 12) == CellOf(slots, turn) && SameBelow(cells, tested, v + 2)
    ensures Exec(Slotted(types), RoundCode(sign, base, exponent, answer, turn, v, region), Frame(cells, slots), fuel)
         == if CellOf(slots, turn) == CellOf(cells, exponent) then Broke(region + 1, Frame(tested, slots))
            else Exec(Slotted(types), MultiplyCode(base, answer, turn, v), Frame(tested, slots), fuel)
  {
    hide Put, CellOf, Exec, Computed, Slotted, MultiplyCode, Widen;
    ReadsPut();
    var t, e := CellOf(slots, turn), CellOf(cells, exponent);
    TurnReads(sign, w, t, e);
    var rest := MultiplyCode(base, answer, turn, v);
    var test := If(region + 2, v + 13, Break(region + 1, HERE, End), false, End, HERE, rest);
    var opcode := if sign then SGe else UGe;
    var c1 := Put(cells, v + 12, t);
    tested := Put(c1, v + 13, Bool(t >= e));
    LoadsOne(types, turn, v + 12, Plain(Whole(opcode, [v + 12, exponent], v + 13), test), cells, slots, fuel);
    ComputesComparison(types, opcode, if sign then X8664Machine.GreaterEqual else X8664Machine.AboveEqual, v + 12, exponent, v + 13, c1);
    GetsOne(types, Whole(opcode, [v + 12, exponent], v + 13), test, c1, slots, Bool(t >= e), fuel);
    LeavesOr(types, region, v + 13, rest, Frame(tested, slots), fuel);
  }

  lemma LeavesOr(types: Types, region: nat, test: nat, rest: Code, s: Frame, fuel: nat)
    ensures Exec(Slotted(types), If(region + 2, test, Break(region + 1, HERE, End), false, End, HERE, rest), s, fuel)
         == if CellOf(s.cells, test) != 0 then Broke(region + 1, s) else Exec(Slotted(types), rest, s, fuel)
  {
    hide CellOf;
    var m, leave := Slotted(types), Break(region + 1, HERE, End);
    assert ExecHead(m, leave, s, fuel) == Broke(region + 1, s);
    assert Exec(m, leave, s, fuel) == Broke(region + 1, s);
  }

  /** The loop multiplies until the turn is the exponent. */
  lemma {:induction false} RoundsMultiply(types: Types, sign: bool, w: Width, base: nat, exponent: nat, answer: nat, turn: nat, v: nat, region: nat,
                                          s: Frame, turns: nat, fuel: nat) returns (after: Frame)
    requires PowerTypes(types, w, base, exponent, v) && Ready(w, base, exponent, v, s.cells) && answer != turn
    requires var (t, e) := (CellOf(s.slots, turn), CellOf(s.cells, exponent));
             && t <= e && (sign ==> Widen(e, w) >= 0) && e - t <= fuel
             && CellOf(s.slots, answer) == Power(CellOf(s.cells, base), t) % Two(w)
    ensures ExecLoop(Slotted(types), region + 1, NO_BOUND, RoundCode(sign, base, exponent, answer, turn, v, region), turns, s, fuel) == Fall(after)
    ensures SameBelow(s.cells, after.cells, v + 2) && KeepsOthers(s.slots, after.slots, answer, turn)
    ensures CellOf(after.slots, answer) == Power(CellOf(s.cells, base), CellOf(s.cells, exponent)) % Two(w)
    decreases CellOf(s.cells, exponent) - CellOf(s.slots, turn)
  {
    hide Put, CellOf, Exec, Slotted, Widen, RoundCode, Power;
    var tested := TestRuns(types, sign, w, base, exponent, answer, turn, v, region, s.cells, s.slots, fuel);
    assert Frame(s.cells, s.slots) == s;
    if CellOf(s.slots, turn) == CellOf(s.cells, exponent) {
      after := Frame(tested, s.slots);
    } else {
      StaysReady(w, base, exponent, v, s.cells, tested);
      var once := MultiplyRuns(types, w, base, exponent, answer, turn, v, tested, s.slots, fuel);
      StaysReady(w, base, exponent, v, tested, once.cells);
      after := RoundsMultiply(types, sign, w, base, exponent, answer, turn, v, region, once, turns + 1, fuel - 1);
      SameBelowBoth(s.cells, tested, once.cells, after.cells, v + 2);
    }
  }

  lemma StaysReady(w: Width, base: nat, exponent: nat, v: nat, cells: Cells, after: Cells)
    requires Ready(w, base, exponent, v, cells) && SameBelow(cells, after, v + 2)
    ensures Ready(w, base, exponent, v, after)
    ensures CellOf(after, base) == CellOf(cells, base) && CellOf(after, exponent) == CellOf(cells, exponent)
  {
  }

  lemma SameBelowBoth(s: Cells, t: Cells, u: Cells, x: Cells, v: nat)
    requires SameBelow(s, t, v) && SameBelow(t, u, v) && SameBelow(u, x, v)
    ensures SameBelow(s, x, v)
  {
    forall k: nat | k < v
      ensures CellOf(x, k) == CellOf(s, k)
    {
      assert CellOf(u, k) == CellOf(t, k) == CellOf(s, k);
    }
  }

  // ----- A negative exponent -----

  /** 1 or -1, by whether the exponent is even. */
  lemma HalvesRun(types: Types, w: Width, base: nat, exponent: nat, answer: nat, v: nat, cells: Cells, slots: Cells, fuel: nat) returns (after: Cells)
    requires PowerTypes(types, w, base, exponent, v) && Ready(w, base, exponent, v, cells)
    ensures Exec(Slotted(types), NegativeCode(base, exponent, answer, v), Frame(cells, slots), fuel)
         == Exec(Slotted(types), UnitsCode(base, answer, v), Frame(after, slots), fuel)
    ensures SameBelow(cells, after, v + 3)
    ensures CellOf(after, v + 7) == Pick(Same(Give(Arithmetic(Operator.SRem, w, CellOf(cells, exponent), 2)), 0), 1, CellOf(cells, v + 2))
  {
    hide Put, CellOf, Exec, Computed, Slotted, Arithmetic, UnitsCode, Pick, Same;
    ReadsPut();
    Halves(w, CellOf(cells, exponent));
    var half := Give(Arithmetic(Operator.SRem, w, CellOf(cells, exponent), 2));
    var rest := UnitsCode(base, answer, v);
    var three := Plain(Whole(Select, [v + 6, v + 1, v + 2], v + 7), rest);
    var two := Plain(Whole(Eq, [v + 5, v], v + 6), three);
    var c1 := Put(cells, v + 4, 2);
    var c2 := Put(c1, v + 5, half);
    var c3 := Put(c2, v + 6, Same(half, 0));
    after := Put(c3, v + 7, Pick(Same(half, 0), 1, CellOf(cells, v + 2)));
    NumbersOne(types, 2, v + 4, Plain(Whole(Opcode.SRem, [exponent, v + 4], v + 5), two), cells, slots, fuel);
    CountsOne(types, Opcode.SRem, Operator.SRem, exponent, v + 4, v + 5, two, c1, slots, fuel);
    ComparesOne(types, v + 5, v, v + 6, three, c2, slots, fuel);
    PicksOne(types, v + 6, v + 1, v + 2, v + 7, rest, c3, slots, fuel);
  }

  lemma Halves(w: Width, exponent: Word)
    ensures Arithmetic(Operator.SRem, w, exponent, 2).Gives?
  {
  }

  /** By whether the base is 1, -1 or neither. */
  lemma UnitsRun(types: Types, base: nat, answer: nat, v: nat, cells: Cells, slots: Cells, fuel: nat) returns (after: Frame)
    requires 0 < base < v && CellOf(cells, v) == 0 && CellOf(cells, v + 1) == 1
    ensures Exec(Slotted(types), UnitsCode(base, answer, v), Frame(cells, slots), fuel) == Fall(after)
    ensures SameBelow(cells, after.cells, v) && KeepsOthers(slots, after.slots, answer, answer)
    ensures var b := CellOf(cells, base);
            CellOf(after.slots, answer) == Pick(Same(b, 1), 1, Pick(Same(b, CellOf(cells, v + 2)), CellOf(cells, v + 7), 0))
  {
    hide Put, CellOf, Exec, Computed, Slotted, Pick, Same;
    ReadsPut();
    var b, minus := CellOf(cells, base), CellOf(cells, v + 2);
    var small := Pick(Same(b, minus), CellOf(cells, v + 7), 0);
    var four := Plain(Storing(v + 11, answer), End);
    var three := Plain(Whole(Select, [v + 9, v + 1, v + 10], v + 11), four);
    var two := Plain(Whole(Select, [v + 8, v + 7, v], v + 10), three);
    var c1 := Put(cells, v + 8, Same(b, minus));
    var c2 := Put(c1, v + 9, Same(b, 1));
    var c3 := Put(c2, v + 10, small);
    var c4 := Put(c3, v + 11, Pick(Same(b, 1), 1, small));
    after := Frame(c4, Put(slots, answer, Pick(Same(b, 1), 1, small)));
    ComparesOne(types, base, v + 2, v + 8, Plain(Whole(Eq, [base, v + 1], v + 9), two), cells, slots, fuel);
    ComparesOne(types, base, v + 1, v + 9, two, c1, slots, fuel);
    PicksOne(types, v + 8, v + 7, v, v + 10, three, c2, slots, fuel);
    PicksOne(types, v + 9, v + 1, v + 10, v + 11, four, c3, slots, fuel);
    StoresOne(types, v + 11, answer, End, c4, slots, fuel);
    FallsAtEnd(types, after, fuel);
  }

  lemma NegativeRuns(types: Types, w: Width, base: nat, exponent: nat, answer: nat, v: nat, cells: Cells, slots: Cells, fuel: nat) returns (after: Frame)
    requires IsWhole(w) && PowerTypes(types, w, base, exponent, v) && Ready(w, base, exponent, v, cells)
    requires CellOf(cells, v + 2) == Give(Arithmetic(Operator.Sub, w, 0, 1)) && Widen(CellOf(cells, exponent), w) < 0
    ensures Exec(Slotted(types), NegativeCode(base, exponent, answer, v), Frame(cells, slots), fuel) == Fall(after)
    ensures SameBelow(cells, after.cells, v) && KeepsOthers(slots, after.slots, answer, answer)
    ensures CellOf(after.slots, answer) == PowerMeaning(true, w, CellOf(cells, base), CellOf(cells, exponent))
  {
    hide CellOf, Exec, Slotted, Arithmetic, UnitsCode, NegativeCode, PowerMeaning, Widen;
    NegativeExponent(w, CellOf(cells, base), CellOf(cells, exponent));
    var halved := HalvesRun(types, w, base, exponent, answer, v, cells, slots, fuel);
    assert CellOf(halved, base) == CellOf(cells, base) && CellOf(halved, v) == 0 && CellOf(halved, v + 1) == 1 && CellOf(halved, v + 2) == CellOf(cells, v + 2);
    after := UnitsRun(types, base, answer, v, halved, slots, fuel);
    SameBelowAll(cells, halved, after.cells, v);
  }

  // ----- The whole code -----

  /** The two sides of a signed power, and what comes after. */
  lemma SidesRun(types: Types, region: nat, test: nat, chosen: Code, otherwise: Code, next: Code, s: Frame, fuel: nat)
    ensures var side := Exec(Slotted(types), if CellOf(s.cells, test) != 0 then chosen else otherwise, s, fuel);
            side.Fall? ==>
              Exec(Slotted(types), If(region, test, chosen, true, otherwise, HERE, next), s, fuel) == Exec(Slotted(types), next, side.s, fuel)
  {
    hide CellOf;
    var m, code := Slotted(types), If(region, test, chosen, true, otherwise, HERE, next);
    var side := Exec(m, if CellOf(s.cells, test) != 0 then chosen else otherwise, s, fuel);
    if side.Fall? {
      assert ExecHead(m, code, s, fuel) == side;
    }
  }

  lemma LoopGoesOn(types: Types, region: nat, body: Code, next: Code, s: Frame, fuel: nat)
    ensures var looped := ExecLoop(Slotted(types), region, NO_BOUND, body, 0, s, fuel);
            looped.Fall? ==>
              Exec(Slotted(types), Loop(region, NO_BOUND, body, HERE, next), s, fuel) == Exec(Slotted(types), next, looped.s, fuel)
  {
    assert ExecHead(Slotted(types), Loop(region, NO_BOUND, body, HERE, next), s, fuel)
        == ExecLoop(Slotted(types), region, NO_BOUND, body, 0, s, fuel);
  }

  lemma FromNoTurn(types: Types, sign: bool, w: Width, base: nat, exponent: nat, answer: nat, turn: nat, v: nat, region: nat, next: Code,
                   s: Frame, fuel: nat) returns (after: Frame)
    requires PowerTypes(types, w, base, exponent, v) && Ready(w, base, exponent, v, s.cells) && answer != turn
    requires CellOf(s.slots, answer) == 1 && CellOf(s.slots, turn) == 0 && CellOf(s.cells, exponent) <= fuel
    requires sign ==> Widen(CellOf(s.cells, exponent), w) >= 0
    ensures Exec(Slotted(types), Loop(region + 1, NO_BOUND, RoundCode(sign, base, exponent, answer, turn, v, region), HERE, next), s, fuel)
         == Exec(Slotted(types), next, after, fuel)
    ensures SameBelow(s.cells, after.cells, v) && KeepsOthers(s.slots, after.slots, answer, turn)
    ensures CellOf(after.slots, answer) == PowerMeaning(sign, w, CellOf(s.cells, base), CellOf(s.cells, exponent))
  {
    hide CellOf, Exec, ExecLoop, Slotted, RoundCode, Widen, Signed, Power, OneOver;
    var b, e := CellOf(s.cells, base), CellOf(s.cells, exponent);
    NoTurn(w, b);
    after := RoundsMultiply(types, sign, w, base, exponent, answer, turn, v, region, s, 0, fuel);
    LoopGoesOn(types, region + 1, RoundCode(sign, base, exponent, answer, turn, v, region), next, s, fuel);
    if sign {
      WidenIsSigned(e, w);
      SignedBase(b, e, w);
    }
  }

  /** Of signed values: -1, and the side the exponent's sign names. */
  lemma SignedRuns(types: Types, w: Width, base: nat, exponent: nat, answer: nat, turn: nat, v: nat, region: nat, next: Code,
                   cells: Cells, slots: Cells, fuel: nat) returns (after: Frame)
    requires IsWhole(w) && PowerTypes(types, w, base, exponent, v) && Ready(w, base, exponent, v, cells) && answer != turn
    requires CellOf(slots, answer) == 1 && CellOf(slots, turn) == 0 && CellOf(cells, exponent) <= fuel
    ensures Exec(Slotted(types), PowerRest(true, base, exponent, answer, turn, v, region, next), Frame(cells, slots), fuel)
         == Exec(Slotted(types), next, after, fuel)
    ensures SameBelow(cells, after.cells, v) && KeepsOthers(slots, after.slots, answer, turn)
    ensures CellOf(after.slots, answer) == PowerMeaning(true, w, CellOf(cells, base), CellOf(cells, exponent))
  {
    hide Put, CellOf, Exec, Slotted, NegativeCode, RoundCode, PowerMeaning, BelowNone, Arithmetic;
    ReadsPut();
    GivesLess(w, 0);
    var e, minus := CellOf(cells, exponent), Give(Arithmetic(Operator.Sub, w, 0, 1));
    var loop := Loop(region + 1, NO_BOUND, RoundCode(true, base, exponent, answer, turn, v, region), HERE, End);
    var sides := If(region, v + 3, NegativeCode(base, exponent, answer, v), true, loop, HERE, next);
    var c1 := Put(cells, v + 2, minus);
    var c2 := Put(c1, v + 3, BelowNone(e, w));
    CountsOne(types, Opcode.Sub, Operator.Sub, v, v + 1, v + 2, Plain(Whole(SLt, [exponent, v], v + 3), sides), cells, slots, fuel);
    IsBelowOne(types, w, exponent, v, v + 3, sides, c1, slots, fuel);
    after := ChosenRuns(types, w, base, exponent, answer, turn, v, region, next, c2, slots, fuel);
    SameBelowAll(cells, c2, after.cells, v);
  }

  lemma IsBelowOne(types: Types, w: Width, a: nat, zero: nat, value: nat, next: Code, cells: Cells, slots: Cells, fuel: nat)
    requires types(a) == w && CellOf(cells, zero) == 0
    ensures Exec(Slotted(types), Plain(Whole(SLt, [a, zero], value), next), Frame(cells, slots), fuel)
         == Exec(Slotted(types), next, Frame(Put(cells, value, BelowNone(CellOf(cells, a), w)), slots), fuel)
  {
    hide Computed, Put, CellOf, Exec, Slotted, Widen;
    NoneIsZero(w);
    ComputesComparison(types, SLt, X8664Machine.Less, a, zero, value, cells);
    GetsOne(types, Whole(SLt, [a, zero], value), next, cells, slots, BelowNone(CellOf(cells, a), w), fuel);
  }

  lemma ChosenRuns(types: Types, w: Width, base: nat, exponent: nat, answer: nat, turn: nat, v: nat, region: nat, next: Code,
                   cells: Cells, slots: Cells, fuel: nat) returns (after: Frame)
    requires IsWhole(w) && PowerTypes(types, w, base, exponent, v) && Ready(w, base, exponent, v, cells) && answer != turn
    requires CellOf(slots, answer) == 1 && CellOf(slots, turn) == 0 && CellOf(cells, exponent) <= fuel
    requires CellOf(cells, v + 2) == Give(Arithmetic(Operator.Sub, w, 0, 1)) && CellOf(cells, v + 3) == BelowNone(CellOf(cells, exponent), w)
    ensures Exec(Slotted(types), If(region, v + 3, NegativeCode(base, exponent, answer, v), true,
                                    Loop(region + 1, NO_BOUND, RoundCode(true, base, exponent, answer, turn, v, region), HERE, End), HERE, next),
                 Frame(cells, slots), fuel)
         == Exec(Slotted(types), next, after, fuel)
    ensures SameBelow(cells, after.cells, v) && KeepsOthers(slots, after.slots, answer, turn)
    ensures CellOf(after.slots, answer) == PowerMeaning(true, w, CellOf(cells, base), CellOf(cells, exponent))
  {
    hide CellOf, Exec, Slotted, NegativeCode, RoundCode, PowerMeaning, Arithmetic, Widen;
    var s, loop := Frame(cells, slots), Loop(region + 1, NO_BOUND, RoundCode(true, base, exponent, answer, turn, v, region), HERE, End);
    SidesRun(types, region, v + 3, NegativeCode(base, exponent, answer, v), loop, next, s, fuel);
    if Widen(CellOf(cells, exponent), w) < 0 {
      after := NegativeRuns(types, w, base, exponent, answer, v, cells, slots, fuel);
    } else {
      after := FromNoTurn(types, true, w, base, exponent, answer, turn, v, region, End, s, fuel);
      FallsAtEnd(types, after, fuel);
    }
  }

  /** The code leaves the power in its last value, and what was there before but for its two slots. */
  lemma PowerRuns(types: Types, sign: bool, w: Width, base: nat, exponent: nat, answer: nat, turn: nat, v: nat, region: nat, next: Code,
                  s: Frame, fuel: nat) returns (after: Frame)
    requires IsWhole(w) && PowerTypes(types, w, base, exponent, v) && 0 < base < v && 0 < exponent < v && answer != turn
    requires CellOf(s.cells, base) < Two(w) && CellOf(s.cells, exponent) < Two(w) && CellOf(s.cells, exponent) <= fuel
    ensures Exec(Slotted(types), PowerCode(sign, base, exponent, answer, turn, v, region, next), s, fuel) == Exec(Slotted(types), next, after, fuel)
    ensures SameBelow(s.cells, after.cells, v) && KeepsOthers(s.slots, after.slots, answer, turn)
    ensures CellOf(after.cells, v + 17) == PowerMeaning(sign, w, CellOf(s.cells, base), CellOf(s.cells, exponent))
  {
    hide Put, CellOf, Exec, Slotted, PowerRest, PowerMeaning;
    ReadsPut();
    var last := Plain(Loading(answer, v + 17), next);
    var c1 := Put(s.cells, v, 0);
    var c2 := Put(c1, v + 1, 1);
    var s1 := Put(s.slots, answer, 1);
    var s2 := Put(s1, turn, 0);
    var rest := PowerRest(sign, base, exponent, answer, turn, v, region, last);
    var second := Plain(Storing(v, turn), rest);
    var first := Plain(Storing(v + 1, answer), second);
    assert s == Frame(s.cells, s.slots);
    NumbersOne(types, 0, v, Plain(Number(1, v + 1), first), s.cells, s.slots, fuel);
    NumbersOne(types, 1, v + 1, first, c1, s.slots, fuel);
    StoresOne(types, v + 1, answer, second, c2, s.slots, fuel);
    StoresOne(types, v, turn, rest, c2, s1, fuel);
    var done := RestRuns(types, sign, w, base, exponent, answer, turn, v, region, last, c2, s2, fuel);
    LoadsOne(types, answer, v + 17, next, done.cells, done.slots, fuel);
    assert done == Frame(done.cells, done.slots);
    after := Frame(Put(done.cells, v + 17, CellOf(done.slots, answer)), done.slots);
    SameBelowAll(s.cells, c2, done.cells, v);
    KeepsBoth(s.slots, s2, done.slots, answer, turn);
  }

  lemma KeepsBoth(s: Cells, t: Cells, u: Cells, answer: nat, turn: nat)
    requires KeepsOthers(s, t, answer, turn) && KeepsOthers(t, u, answer, turn)
    ensures KeepsOthers(s, u, answer, turn)
  {
    forall k: nat | k != answer && k != turn
      ensures CellOf(u, k) == CellOf(s, k)
    {
      assert CellOf(t, k) == CellOf(s, k);
    }
  }

  lemma RestRuns(types: Types, sign: bool, w: Width, base: nat, exponent: nat, answer: nat, turn: nat, v: nat, region: nat, next: Code,
                 cells: Cells, slots: Cells, fuel: nat) returns (after: Frame)
    requires IsWhole(w) && PowerTypes(types, w, base, exponent, v) && Ready(w, base, exponent, v, cells) && answer != turn
    requires CellOf(slots, answer) == 1 && CellOf(slots, turn) == 0 && CellOf(cells, exponent) <= fuel
    ensures Exec(Slotted(types), PowerRest(sign, base, exponent, answer, turn, v, region, next), Frame(cells, slots), fuel)
         == Exec(Slotted(types), next, after, fuel)
    ensures SameBelow(cells, after.cells, v) && KeepsOthers(slots, after.slots, answer, turn)
    ensures CellOf(after.slots, answer) == PowerMeaning(sign, w, CellOf(cells, base), CellOf(cells, exponent))
  {
    hide CellOf, Exec, Slotted, PowerMeaning, RoundCode, NegativeCode;
    if sign {
      after := SignedRuns(types, w, base, exponent, answer, turn, v, region, next, cells, slots, fuel);
    } else {
      after := FromNoTurn(types, false, w, base, exponent, answer, turn, v, region, next, Frame(cells, slots), fuel);
    }
  }

  // ----- In the CFG -----

  /** A function that gives back its first parameter to the power of its second; its slots are the
      values 3 and 4. */
  function PowerFunction(sign: bool): Structured {
    Structured(2, PowerCode(sign, 1, 2, 3, 4, 5, 1, Plain(Ret(22, HERE), End)), false)
  }

  lemma MultiplyScoped(base: nat, answer: nat, turn: nat, v: nat, around: seq<Flattener.Around>)
    ensures Flattener.WellScoped(MultiplyCode(base, answer, turn, v), around)
  {
    var two := Plain(Whole(Opcode.Add, [v + 12, v + 1], v + 16), Plain(Storing(v + 16, turn), End));
    assert Flattener.WellScoped(two, around);
    assert Flattener.WellScoped(Plain(Whole(Opcode.Mul, [v + 14, base], v + 15), Plain(Storing(v + 15, answer), two)), around);
  }

  lemma RoundScoped(sign: bool, base: nat, exponent: nat, answer: nat, turn: nat, v: nat, region: nat, around: seq<Flattener.Around>)
    ensures Flattener.WellScoped(RoundCode(sign, base, exponent, answer, turn, v, region), around + [Flattener.Around(region + 1, true)])
  {
    var within := around + [Flattener.Around(region + 1, true)];
    var inner := within + [Flattener.Around(region + 2, false)];
    MultiplyScoped(base, answer, turn, v, within);
    assert inner[|around|].region == region + 1;
    assert Flattener.WellScoped(Break(region + 1, HERE, End), inner);
    assert Flattener.WellScoped(If(region + 2, v + 13, Break(region + 1, HERE, End), false, End, HERE, MultiplyCode(base, answer, turn, v)), within);
  }

  lemma NegativeScoped(base: nat, exponent: nat, answer: nat, v: nat, around: seq<Flattener.Around>)
    ensures Flattener.WellScoped(NegativeCode(base, exponent, answer, v), around)
  {
    var last := Plain(Whole(Select, [v + 9, v + 1, v + 10], v + 11), Plain(Storing(v + 11, answer), End));
    assert Flattener.WellScoped(last, around);
    assert Flattener.WellScoped(UnitsCode(base, answer, v), around);
    var halves := Plain(Whole(Eq, [v + 5, v], v + 6), Plain(Whole(Select, [v + 6, v + 1, v + 2], v + 7), UnitsCode(base, answer, v)));
    assert Flattener.WellScoped(halves, around);
  }

  lemma LoopScoped(sign: bool, base: nat, exponent: nat, answer: nat, turn: nat, v: nat, region: nat, next: Code, around: seq<Flattener.Around>)
    requires Flattener.WellScoped(next, around)
    ensures Flattener.WellScoped(Loop(region + 1, NO_BOUND, RoundCode(sign, base, exponent, answer, turn, v, region), HERE, next), around)
  {
    RoundScoped(sign, base, exponent, answer, turn, v, region, around);
  }

  lemma PowerIsFlattenable(sign: bool)
    ensures Flattener.Flattenable(PowerFunction(sign))
  {
    var ret := Plain(Ret(22, HERE), End);
    var last := Plain(Loading(3, 22), ret);
    assert Flattener.WellScoped(ret, []) && Flattener.WellScoped(last, []);
    var inside := [] + [Flattener.Around(1, false)];
    var rest := PowerRest(sign, 1, 2, 3, 4, 5, 1, last);
    LoopScoped(sign, 1, 2, 3, 4, 5, 1, last, []);
    LoopScoped(sign, 1, 2, 3, 4, 5, 1, End, inside);
    NegativeScoped(1, 2, 3, 5, inside);
    var loop := Loop(2, NO_BOUND, RoundCode(sign, 1, 2, 3, 4, 5, 1), HERE, End);
    assert sign ==> Flattener.WellScoped(If(1, 8, NegativeCode(1, 2, 3, 5), true, loop, HERE, last), []);
    assert Flattener.WellScoped(rest, []);
    var two := Plain(Storing(6, 3), Plain(Storing(5, 4), rest));
    assert Flattener.WellScoped(two, []);
  }

  /** So does the CFG: its run ends with the power given back. */
  lemma FlattenedPower(types: Types, sign: bool, w: Width, s: Frame) returns (after: Frame)
    requires IsWhole(w) && PowerTypes(types, w, 1, 2, 5) && CellOf(s.cells, 1) < Two(w) && CellOf(s.cells, 2) < Two(w)
    ensures Flattener.Flattenable(PowerFunction(sign))
    ensures FlattenerMeaning.CfgEnds(Slotted(types), Flattener.Flatten(PowerFunction(sign)), s,
                                     Interpreter.Left(PowerMeaning(sign, w, CellOf(s.cells, 1), CellOf(s.cells, 2)), after))
  {
    hide Exec, PowerCode, PowerMeaning, Flattener.Flatten;
    PowerIsFlattenable(sign);
    var last, fuel := Plain(Ret(22, HERE), End), CellOf(s.cells, 2);
    after := PowerRuns(types, sign, w, 1, 2, 3, 4, 5, 1, last, s, fuel);
    var result := Interpreter.Left(PowerMeaning(sign, w, CellOf(s.cells, 1), CellOf(s.cells, 2)), after);
    GivesLast(types, 22, after, fuel);
    assert FlattenerMeaning.ComesTo(Exec(Slotted(types), PowerFunction(sign).body, s, fuel), result);
    FlattenerMeaning.FlattenPreserves(Slotted(types), PowerFunction(sign), s, result);
  }

  lemma GivesLast(types: Types, value: nat, s: Frame, fuel: nat)
    requires value != 0
    ensures Exec(Slotted(types), Plain(Ret(value, HERE), End), s, fuel) == Ended(Interpreter.Left(CellOf(s.cells, value), s))
  {
    assert ExecHead(Slotted(types), Plain(Ret(value, HERE), End), s, fuel) == Ended(Interpreter.Left(CellOf(s.cells, value), s));
  }
}
