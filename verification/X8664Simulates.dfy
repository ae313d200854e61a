/** What is written for an operator simulates the interpreter: the result's cell comes to hold the
    interpreter's value, every other cell keeps its own, and a division by zero aborts.
  */
module X8664Simulates {
  import opened Words
  import opened IrArithmetic
  import opened WholeOperators
  import opened X8664Machine
  import opened X8664Writer

  /** From `s`, the text leaves the interpreter's value in the result's cell, or aborts as the
      interpreter does. */
  ghost predicate Simulates(text: Text, s: State, result: nat, r: Result) {
    var o := Run(text, s);
    if r == DivisionByZero then o.Aborts?
    else o.Goes? && o.s.cells == if result != 0 then s.cells[result := r.value] else s.cells
  }

  /** A bool is not widened, where the interpreter reads its one bit as a sign: shifting a true
      right by true is true there, and false here. */
  predicate IsSignOfBool(op: Operator, w: Width, left: Word, right: Word) {
    op == AShr && w == 1 && left == 1 && right == 1
  }

  /** What a widened register holds. */
  function Widened(value: Word, w: Width): Signed64 {
    SignedIs64(value, w);
    if w == 1 then ToSigned(value) else Signed(value, w)
  }

  // ----- Pieces -----

  lemma LoadsRun(a: nat, b: nat, rest: Text, s: State)
    ensures Run(LoadsText(a, b) + rest, s) == Run(rest, s.(rax := Cell(s, a), rcx := Cell(s, b)))
  {
    assert LoadsText(a, b) + rest == [Load(Rax, a)] + ([Load(Rcx, b)] + rest);
    RunLine(Load(Rax, a), [Load(Rcx, b)] + rest, s);
    RunLine(Load(Rcx, b), rest, s.(rax := Cell(s, a)));
  }

  lemma EndRuns(w: Width, result: nat, s: State)
    ensures Run(EndText(w, result), s) ==
            var masked := s.(rax := Mask(s.rax, w));
            Goes(if result != 0 then masked.(cells := s.cells[result := Mask(s.rax, w)]) else masked)
  {
    var rest := StoreText(result);
    if w == 64 {
      assert EndText(w, result) == rest;
      FloorIs(s.rax, TWO64, 0, s.rax);
    } else {
      RunLine(ZeroExtend(w), rest, s);
    }
    var t := s.(rax := Mask(s.rax, w));
    if result != 0 {
      assert rest == [X8664Machine.Store(result)] + [];
      RunLine(X8664Machine.Store(result), [], t);
    }
  }

  /** A value widened in a register. */
  lemma WidenRuns(which: Register, w: Width, rest: Text, s: State)
    requires Read(s, which) < Two(w)
    ensures Run(WidenText(which, w) + rest, s) == Run(rest, Write(s, which, FromSigned(Widened(Read(s, which), w))))
  {
    if w == 64 || w == 1 {
      assert WidenText(which, w) + rest == rest;
      WidenIsSigned(Read(s, which), 64);
      ReadAsSigned(Read(s, which));
      assert FromSigned(Widened(Read(s, which), w)) == Read(s, which);
    } else {
      RunLine(SignExtend(which, w), rest, s);
    }
  }

  lemma ReadBackWord(i: int)
    requires -0x8000_0000_0000_0000 <= i < 0x8000_0000_0000_0000
    ensures ToSigned(FromSigned(i)) == i && (FromSigned(i) == TWO64 - 1 <==> i == -1) && (FromSigned(i) == 0 <==> i == 0)
  {
    if i < 0 {
      FloorIs(i, TWO64, -1, i + TWO64);
    } else {
      FloorIs(i, TWO64, 0, i);
    }
  }

  // ----- Plain operators -----

  lemma PlainSimulates(op: Operator, w: Width, a: nat, b: nat, result: nat, s: State)
    requires IsPlain(op) && Cell(s, a) < Two(w) && Cell(s, b) < Two(w)
    ensures Simulates(PlainText(op, w, a, b, result), s, result, Arithmetic(op, w, Cell(s, a), Cell(s, b)))
  {
    hide Run, Arithmetic, Mask, EndText;
    var left, right := Cell(s, a), Cell(s, b);
    var t := s.(rax := left, rcx := right);
    LoadsRun(a, b, [PlainLine(op)] + EndText(w, result), s);
    RunLine(PlainLine(op), EndText(w, result), t);
    var u := PlainComputes(op, w, t);
    EndRuns(w, result, u);
  }

  lemma PlainComputes(op: Operator, w: Width, s: State) returns (t: State)
    requires IsPlain(op) && s.rax < Two(w) && s.rcx < Two(w)
    ensures Straight(PlainLine(op), s) == Goes(t) && t.cells == s.cells && Gives(Mask(t.rax, w)) == Arithmetic(op, w, s.rax, s.rcx)
  {
    hide Bitwise;
    t := Straight(PlainLine(op), s).s;
    if op == And || op == Or || op == Xor {
      BitwiseFits(op, s.rax, s.rcx, w);
      FloorIs(t.rax, Two(w), 0, t.rax);
    }
  }

  // ----- Division -----

  /** The unsigned quotient or remainder, in `rax`. */
  lemma UnsignedDivisionRuns(remainder: bool, rest: Text, s: State) returns (t: State)
    requires s.rcx != 0
    ensures Run(UnsignedDivisionText(remainder) + rest, s) == Run(rest, t) && t.cells == s.cells
    ensures t.rax == if remainder then s.rax % s.rcx else s.rax / s.rcx
  {
    hide Run, Divide;
    var move := if remainder then [MoveRdx] else [];
    assert UnsignedDivisionText(remainder) + rest == [Clear(Rdx)] + ([DivRcx] + (move + rest));
    RunLine(Clear(Rdx), [DivRcx] + (move + rest), s);
    RunLine(DivRcx, move + rest, s.(rdx := 0));
    t := UnsignedDivides(s.(rdx := 0));
    MoveRuns(remainder, rest, t);
    if remainder {
      t := t.(rax := t.rdx);
    }
  }

  lemma UnsignedDivides(s: State) returns (t: State)
    requires s.rcx != 0 && s.rdx == 0
    ensures Divide(s, false) == Goes(t) && t.cells == s.cells && t.rax == s.rax / s.rcx && t.rdx == s.rax % s.rcx
  {
    QuotientIsLess(s.rax, s.rcx);
    DivMod(s.rax, s.rcx);
    t := s.(rax := s.rax / s.rcx, rdx := s.rax % s.rcx);
  }

  lemma MoveRuns(remainder: bool, rest: Text, s: State)
    ensures Run((if remainder then [MoveRdx] else []) + rest, s) == Run(rest, if remainder then s.(rax := s.rdx) else s)
  {
    if remainder {
      RunLine(MoveRdx, rest, s);
    } else {
      assert [] + rest == rest;
    }
  }

  /** The signed one: by -1 without `idiv`, which would fault on the least number. */
  lemma SignedDivisionRuns(remainder: bool, divide: nat, end: nat, rest: Text, s: State, a: Signed64, b: Signed64) returns (t: State)
    requires s.rax == FromSigned(a) && s.rcx == FromSigned(b) && b != 0 && divide != end
    ensures Run(SignedDivisionText(remainder, divide, end) + rest, s) == Run(rest, t) && t.cells == s.cells
    ensures t.rax == if b == -1 then (if remainder then 0 else Difference(0, s.rax))
                     else FromSigned(if remainder then Remainder(a, b) else Quotient(a, b))
  {
    hide Run, After, SignedDivisionText, Quotient, Remainder, FromSigned, Difference;
    var jump := JumpIf(NotEqual, divide);
    var move := if remainder then [MoveRdx] else [];
    var last := [Label(end)] + rest;
    var divides := [Label(divide)] + ([Cqo] + ([IdivRcx] + (move + last)));
    var byMinusOne := [if remainder then Clear(Rax) else Neg] + ([Jump(end)] + divides);
    assert SignedDivisionText(remainder, divide, end) + rest == [CompareWith(Rcx, TWO64 - 1)] + ([jump] + byMinusOne) by {
      SignedDivisionShape(remainder, divide, end, rest);
    }
    ReadBackWord(b);
    RunLine(CompareWith(Rcx, TWO64 - 1), [jump] + byMinusOne, s);
    var compared := s.(left := s.rcx, right := TWO64 - 1);
    RunJump(jump, byMinusOne, compared);
    if b == -1 {
      t := ByMinusOneRuns(remainder, divide, end, move, rest, compared);
    } else {
      PastMinusOne(if remainder then Clear(Rax) else Neg, divide, end, [Cqo] + ([IdivRcx] + (move + last)));
      t := IdivRuns(remainder, end, rest, compared, a, b);
    }
  }

  /** The jump past the division by -1. */
  lemma PastMinusOne(line: Line, divide: nat, end: nat, divides: Text)
    requires line != Label(divide)
    ensures After([line] + ([Jump(end)] + ([Label(divide)] + divides)), divide) == divides
  {
    hide After;
    AfterLine(line, [Jump(end)] + ([Label(divide)] + divides), divide);
    AfterLine(Jump(end), [Label(divide)] + divides, divide);
    AfterLine(Label(divide), divides, divide);
  }

  lemma SignedDivisionShape(remainder: bool, divide: nat, end: nat, rest: Text)
    ensures SignedDivisionText(remainder, divide, end) + rest ==
            [CompareWith(Rcx, TWO64 - 1)] + ([JumpIf(NotEqual, divide)] + ([if remainder then Clear(Rax) else Neg] + ([Jump(end)]
            + ([Label(divide)] + ([Cqo] + ([IdivRcx] + ((if remainder then [MoveRdx] else []) + ([Label(end)] + rest))))))))
  {
  }

  lemma ByMinusOneRuns(remainder: bool, divide: nat, end: nat, move: Text, rest: Text, s: State) returns (t: State)
    requires divide != end && (move == [] || move == [MoveRdx])
    ensures var last := [Label(end)] + rest;
            var divides := [Label(divide)] + ([Cqo] + ([IdivRcx] + (move + last)));
            Run([if remainder then Clear(Rax) else Neg] + ([Jump(end)] + divides), s) == Run(rest, t)
    ensures t.cells == s.cells && t.rax == if remainder then 0 else Difference(0, s.rax)
  {
    hide Run, After;
    var last := [Label(end)] + rest;
    var divides := [Label(divide)] + ([Cqo] + ([IdivRcx] + (move + last)));
    RunLine(if remainder then Clear(Rax) else Neg, [Jump(end)] + divides, s);
    t := s.(rax := if remainder then 0 else Difference(0, s.rax));
    RunJump(Jump(end), divides, t);
    AfterLine(Label(divide), [Cqo] + ([IdivRcx] + (move + last)), end);
    AfterLine(Cqo, [IdivRcx] + (move + last), end);
    AfterLine(IdivRcx, move + last, end);
    if move == [] {
      assert move + last == last;
    } else {
      AfterLine(MoveRdx, last, end);
    }
    AfterLine(Label(end), rest, end);
  }

  lemma IdivRuns(remainder: bool, end: nat, rest: Text, s: State, a: Signed64, b: Signed64) returns (t: State)
    requires s.rax == FromSigned(a) && s.rcx == FromSigned(b) && b != 0 && b != -1
    ensures Run([Cqo] + ([IdivRcx] + ((if remainder then [MoveRdx] else []) + ([Label(end)] + rest))), s) == Run(rest, t)
    ensures t.cells == s.cells && t.rax == FromSigned(if remainder then Remainder(a, b) else Quotient(a, b))
  {
    hide Run, Divide, Quotient, Remainder;
    var last := [Label(end)] + rest;
    var move := if remainder then [MoveRdx] else [];
    ReadBackWord(a);
    RunLine(Cqo, [IdivRcx] + (move + last), s);
    var wide := s.(rdx := if a < 0 then TWO64 - 1 else 0);
    RunLine(IdivRcx, move + last, wide);
    t := SignedDivides(wide, a, b);
    MoveRuns(remainder, last, t);
    if remainder {
      t := t.(rax := t.rdx);
    }
    RunJump(Label(end), rest, t);
  }

  /** `rdx:rax` is the dividend, and the quotient fits. */
  lemma SignedDivides(s: State, a: Signed64, b: Signed64) returns (t: State)
    requires s.rax == FromSigned(a) && s.rcx == FromSigned(b) && s.rdx == (if a < 0 then TWO64 - 1 else 0) && b != 0 && b != -1
    ensures Divide(s, true) == Goes(t) && t.cells == s.cells
    ensures t.rax == FromSigned(Quotient(a, b)) && t.rdx == FromSigned(Remainder(a, b))
  {
    hide Quotient, Remainder, FromSigned;
    ReadBackWord(a);
    ReadBackWord(b);
    QuotientFits(a, b);
    WholeWord(a);
    t := s.(rax := FromSigned(Quotient(a, b)), rdx := FromSigned(Remainder(a, b)));
  }

  lemma WholeWord(a: Signed64)
    ensures a == (if a < 0 then -1 else 0) * TWO64 + FromSigned(a) && ToSigned(TWO64 - 1) == -1
  {
    if a < 0 {
      FloorIs(a, TWO64, -1, a + TWO64);
    } else {
      FloorIs(a, TWO64, 0, a);
    }
  }

  lemma DivisionSimulates(op: Operator, w: Width, a: nat, b: nat, result: nat, labels: nat, s: State)
    requires IsDivision(op) && Cell(s, a) < Two(w) && Cell(s, b) < Two(w)
    ensures Simulates(DivisionText(op, w, a, b, result, labels), s, result, Arithmetic(op, w, Cell(s, a), Cell(s, b)))
  {
    hide Quotient, Remainder, Signed, Run, QuotientText;
    var left, right := Cell(s, a), Cell(s, b);
    var t := s.(rax := left, rcx := right);
    var end := EndText(w, result);
    var rest := QuotientText(op, w, labels) + end;
    LoadsRun(a, b, [Test(Rcx)] + ([AbortIfEqual] + rest), s);
    RunLine(Test(Rcx), [AbortIfEqual] + rest, t);
    var tested := t.(left := right, right := 0);
    RunJump(AbortIfEqual, rest, tested);
    if right != 0 {
      var u := QuotientRuns(op, w, labels, end, tested);
      EndRuns(w, result, u);
    }
  }

  lemma QuotientRuns(op: Operator, w: Width, labels: nat, rest: Text, s: State) returns (t: State)
    requires IsDivision(op) && s.rax < Two(w) && s.rcx < Two(w) && s.rcx != 0
    ensures Run(QuotientText(op, w, labels) + rest, s) == Run(rest, t) && t.cells == s.cells
    ensures Gives(Mask(t.rax, w)) == Arithmetic(op, w, s.rax, s.rcx)
  {
    hide Quotient, Remainder, Signed;
    if op == UDiv || op == URem {
      t := UnsignedDivisionRuns(op == URem, rest, s);
      QuotientIsLess(s.rax, s.rcx);
      DivMod(s.rax, s.rcx);
      FloorIs(t.rax, Two(w), 0, t.rax);
    } else {
      t := WidenedQuotientRuns(op == SRem, w, labels, rest, s);
    }
  }

  lemma WidenedQuotientRuns(remainder: bool, w: Width, labels: nat, rest: Text, s: State) returns (t: State)
    requires s.rax < Two(w) && s.rcx < Two(w) && s.rcx != 0
    ensures Run(WidenText(Rax, w) + (WidenText(Rcx, w) + SignedDivisionText(remainder, labels + 1, labels + 2)) + rest, s) == Run(rest, t)
    ensures t.cells == s.cells && Gives(Mask(t.rax, w)) == Arithmetic(if remainder then SRem else SDiv, w, s.rax, s.rcx)
  {
    hide Quotient, Remainder, Widened, SignedDivisionText, Arithmetic, Mask;
    var a, b := Widened(s.rax, w), Widened(s.rcx, w);
    WidenedIsZero(s.rcx, w);
    var divides := SignedDivisionText(remainder, labels + 1, labels + 2) + rest;
    assert WidenText(Rax, w) + (WidenText(Rcx, w) + SignedDivisionText(remainder, labels + 1, labels + 2)) + rest
           == WidenText(Rax, w) + (WidenText(Rcx, w) + divides);
    WidenRuns(Rax, w, WidenText(Rcx, w) + divides, s);
    var u := s.(rax := FromSigned(a));
    WidenRuns(Rcx, w, divides, u);
    var v := u.(rcx := FromSigned(b));
    t := SignedDivisionRuns(remainder, labels + 1, labels + 2, rest, v, a, b);
    DividedWord(remainder, w, s.rax, s.rcx, t.rax);
  }

  lemma WidenedIsZero(value: Word, w: Width)
    requires value < Two(w)
    ensures Widened(value, w) == 0 <==> value == 0
  {
    SignedZero(value, w);
  }

  /** The masked register is the interpreter's value. */
  lemma DividedWord(remainder: bool, w: Width, left: Word, right: Word, made: Word)
    requires left < Two(w) && right < Two(w) && right != 0 && Widened(right, w) != 0
    requires var a, b := Widened(left, w), Widened(right, w);
             made == if b == -1 then (if remainder then 0 else Difference(0, FromSigned(a)))
                     else FromSigned(if remainder then Remainder(a, b) else Quotient(a, b))
    ensures Gives(Mask(made, w)) == Arithmetic(if remainder then SRem else SDiv, w, left, right)
  {
    hide Quotient, Remainder, Signed, Arithmetic;
    if w == 1 {
      DividedBoolWord(remainder, left, right, made);
    } else {
      var a, b := Signed(left, w), Signed(right, w);
      ArithmeticMeans(SDiv, w, left, right);
      ArithmeticMeans(SRem, w, left, right);
      if b == -1 {
        ByMinusOne(a);
        NegatedCast(a, w);
        ReadAsSigned(Difference(0, FromSigned(a)));
        FloorIs(0, Two(w), 0, 0);
      } else {
        CastIsLowBits(Quotient(a, b), w);
        CastIsLowBits(Remainder(a, b), w);
      }
    }
  }

  lemma DividedBoolWord(remainder: bool, left: Word, right: Word, made: Word)
    requires left < 2 && right == 1
    requires made == FromSigned(if remainder then Remainder(left, 1) else Quotient(left, 1))
    ensures Gives(Mask(made, 1)) == Arithmetic(if remainder then SRem else SDiv, 1, left, right)
  {
    hide Quotient, Remainder, Arithmetic;
    DividedBool(left);
  }

  lemma DividedBool(left: Word)
    requires left < 2
    ensures Quotient(left, 1) == left && Remainder(left, 1) == 0
    ensures Arithmetic(SDiv, 1, left, 1) == Gives(left) && Arithmetic(SRem, 1, left, 1) == Gives(0)
  {
    FloorIs(left, 1, left, 0);
    assert Widen(1, 1) == -1;
    assert left == 0 || left == 1;
  }

  // ----- Shifts -----

  lemma ShiftSimulates(op: Operator, w: Width, a: nat, b: nat, result: nat, labels: nat, s: State)
    requires IsShift(op) && Cell(s, a) < Two(w) && Cell(s, b) < Two(w)
    requires !IsSignOfBool(op, w, Cell(s, a), Cell(s, b))
    ensures Simulates(ShiftText(op, w, a, b, result, labels), s, result, Arithmetic(op, w, Cell(s, a), Cell(s, b)))
  {
    hide Run, SignedShiftText, BitsShiftText, Arithmetic;
    var end := EndText(w, result);
    var t := s.(rax := Cell(s, a), rcx := Cell(s, b));
    var u;
    if op == AShr {
      LoadsRun(a, b, SignedShiftText(w, labels + 1) + end, s);
      u := SignedShiftRuns(w, labels + 1, end, t);
      SignedShiftedWord(w, t.rax, t.rcx, u.rax);
    } else {
      LoadsRun(a, b, BitsShiftText(op, labels + 1, labels + 2) + end, s);
      u := BitsShiftRuns(op, w, labels + 1, labels + 2, end, t);
    }
    EndRuns(w, result, u);
  }

  lemma BitsShiftRuns(op: Operator, w: Width, inRange: nat, end: nat, rest: Text, s: State) returns (t: State)
    requires (op == Shl || op == LShr) && s.rax < Two(w) && s.rcx < Two(w) && inRange != end
    ensures Run(BitsShiftText(op, inRange, end) + rest, s) == Run(rest, t) && t.cells == s.cells
    ensures Gives(Mask(t.rax, w)) == Arithmetic(op, w, s.rax, s.rcx)
  {
    hide Run, After, Arithmetic, Mask, LeftShifted, RightShifted, MaskText, BitsShiftText;
    var shift := if op == Shl then ShlCl else ShrCl;
    var last := [Label(end)] + rest;
    var shifts := [Label(inRange)] + ([shift] + last);
    var jump := JumpIf(BelowEqual, inRange);
    var past := [Clear(Rax)] + ([Jump(end)] + shifts);
    BitsShiftShape(op, inRange, end, rest);
    RunLine(CompareWith(Rcx, 63), [jump] + past, s);
    var compared := s.(left := s.rcx, right := 63);
    RunJump(jump, past, compared);
    PastIsSkipped(shift, inRange, end, last);
    if s.rcx <= 63 {
      t := compared.(rax := if op == Shl then LeftShifted(s.rax, s.rcx) else RightShifted(s.rax, s.rcx));
      RunLine(shift, last, compared);
      RunJump(Label(end), rest, t);
    } else {
      t := PastRuns(shift, inRange, end, rest, compared);
    }
    ShiftedWord(op, w, s.rax, s.rcx, t.rax);
  }

  lemma PastIsSkipped(shift: Line, inRange: nat, end: nat, last: Text)
    requires !Jumps(shift)
    ensures After([Clear(Rax)] + ([Jump(end)] + ([Label(inRange)] + ([shift] + last))), inRange) == [shift] + last
  {
    hide After;
    var shifts := [Label(inRange)] + ([shift] + last);
    AfterLine(Clear(Rax), [Jump(end)] + shifts, inRange);
    AfterLine(Jump(end), shifts, inRange);
    AfterLine(Label(inRange), [shift] + last, inRange);
  }

  lemma BitsShiftShape(op: Operator, inRange: nat, end: nat, rest: Text)
    ensures BitsShiftText(op, inRange, end) + rest ==
            [CompareWith(Rcx, 63)] + ([JumpIf(BelowEqual, inRange)] + ([Clear(Rax)] + ([Jump(end)]
            + ([Label(inRange)] + ([if op == Shl then ShlCl else ShrCl] + ([Label(end)] + rest))))))
  {
  }

  /** Past 63 nothing is left. */
  lemma PastRuns(shift: Line, inRange: nat, end: nat, rest: Text, s: State) returns (t: State)
    requires inRange != end && !Jumps(shift)
    ensures Run([Clear(Rax)] + ([Jump(end)] + ([Label(inRange)] + ([shift] + ([Label(end)] + rest)))), s) == Run(rest, t)
    ensures t == s.(rax := 0)
  {
    hide Run, After;
    var last := [Label(end)] + rest;
    var shifts := [Label(inRange)] + ([shift] + last);
    RunLine(Clear(Rax), [Jump(end)] + shifts, s);
    t := s.(rax := 0);
    RunJump(Jump(end), shifts, t);
    AfterLine(Label(inRange), [shift] + last, end);
    AfterLine(shift, last, end);
    AfterLine(Label(end), rest, end);
  }

  lemma ShiftedWord(op: Operator, w: Width, left: Word, right: Word, made: Word)
    requires (op == Shl || op == LShr) && left < Two(w) && right < Two(w)
    requires made == if right > 63 then 0 else if op == Shl then LeftShifted(left, right) else RightShifted(left, right)
    ensures Gives(Mask(made, w)) == Arithmetic(op, w, left, right)
  {
    ArithmeticMeans(op, w, left, right);
    if right > 63 {
      ShiftedOut(left, right, w);
      TwoIsPow2(w);
      Pow2Grows(w, right);
      FloorIs(left, Pow2(right), 0, left);
      FloorIs(0, Two(w), 0, 0);
    } else if op == Shl {
      LowBits(left * Pow2(right), w);
    } else {
      QuotientIsLess(left, Pow2(right));
      FloorIs(made, Two(w), 0, made);
    }
  }

  lemma SignedShiftRuns(w: Width, inRange: nat, rest: Text, s: State) returns (t: State)
    requires s.rax < Two(w) && s.rcx < Two(w)
    ensures Run(SignedShiftText(w, inRange) + rest, s) == Run(rest, t) && t.cells == s.cells
    ensures t.rax == FromSigned(Widened(s.rax, w) / Pow2(if s.rcx > 63 then 63 else s.rcx))
  {
    hide Run, After, Widened, FromSigned, ToSigned, Pow2, Mask;
    var a := Widened(s.rax, w);
    ReadBackWord(a);
    var jump := JumpIf(BelowEqual, inRange);
    var shifts := [Label(inRange)] + ([SarCl] + rest);
    assert SignedShiftText(w, inRange) + rest == WidenText(Rax, w) + ([CompareWith(Rcx, 63)] + ([jump] + ([Immediate(Rcx, 63)] + shifts))) by {
      hide WidenText;
    }
    WidenRuns(Rax, w, [CompareWith(Rcx, 63)] + ([jump] + ([Immediate(Rcx, 63)] + shifts)), s);
    var u := s.(rax := FromSigned(a));
    RunLine(CompareWith(Rcx, 63), [jump] + ([Immediate(Rcx, 63)] + shifts), u);
    var compared := u.(left := s.rcx, right := 63);
    RunJump(jump, [Immediate(Rcx, 63)] + shifts, compared);
    AfterLine(Immediate(Rcx, 63), shifts, inRange);
    AfterLine(Label(inRange), [SarCl] + rest, inRange);
    t := CountRuns(inRange, rest, compared);
  }

  /** The count, at most 63, and the shift. */
  lemma CountRuns(inRange: nat, rest: Text, s: State) returns (t: State)
    ensures var shifts := [Label(inRange)] + ([SarCl] + rest);
            Run(if s.rcx <= 63 then [SarCl] + rest else [Immediate(Rcx, 63)] + shifts, s) == Run(rest, t)
    ensures t.cells == s.cells && t.rax == FromSigned(ToSigned(s.rax) / Pow2(if s.rcx > 63 then 63 else s.rcx))
  {
    hide Run, FromSigned, ToSigned, Pow2;
    var shifts := [Label(inRange)] + ([SarCl] + rest);
    var counted := s;
    if s.rcx > 63 {
      RunLine(Immediate(Rcx, 63), shifts, s);
      counted := s.(rcx := 63);
      RunJump(Label(inRange), [SarCl] + rest, counted);
    }
    RunLine(SarCl, rest, counted);
    t := counted.(rax := FromSigned(ToSigned(counted.rax) / Pow2(counted.rcx)));
  }

  lemma SignedShiftedWord(w: Width, left: Word, right: Word, made: Word)
    requires left < Two(w) && right < Two(w)
    requires made == FromSigned(Widened(left, w) / Pow2(if right > 63 then 63 else right))
    ensures Gives(Mask(made, w)) == Arithmetic(AShr, w, left, right) <==> !IsSignOfBool(AShr, w, left, right)
  {
    if w == 1 {
      ShiftedBool(left, right, made);
    } else {
      hide Arithmetic, Signed, Pow2;
      ArithmeticMeans(AShr, w, left, right);
      WidenIsSigned(left, w);
      CastIsLowBits(Signed(left, w) / Pow2(if right > 63 then 63 else right), w);
      if right > 63 {
        SignOnly(Signed(left, w), right, w);
        SignAtLeast63(Signed(left, w), 63, w);
      }
    }
  }

  lemma ShiftedBool(left: Word, right: Word, made: Word)
    requires left < 2 && right < 2 && made == FromSigned(left / Pow2(right))
    ensures Gives(Mask(made, 1)) == Arithmetic(AShr, 1, left, right) <==> !(left == 1 && right == 1)
  {
    assert Pow2(0) == 1 && Pow2(1) == 2;
    assert left == 0 || left == 1;
    assert right == 0 || right == 1;
    MinusOneMasked(1);
    ArithmeticMeans(AShr, 1, left, right);
  }

  /** Every operator the writer has, at every width: it simulates the interpreter, but for the one
      shift of a bool. */
  lemma BinarySimulates(op: Operator, w: Width, a: nat, b: nat, result: nat, labels: nat, s: State)
    requires op != UMulHi && op != SMulHi && Cell(s, a) < Two(w) && Cell(s, b) < Two(w) && result != 0
    ensures Simulates(BinaryText(op, w, a, b, result, labels), s, result, Arithmetic(op, w, Cell(s, a), Cell(s, b)))
            <==> !IsSignOfBool(op, w, Cell(s, a), Cell(s, b))
    ensures Give(Arithmetic(op, w, Cell(s, a), Cell(s, b))) < Two(w)
  {
    hide Simulates, Arithmetic, ShiftText;
    GivesMasked(op, w, Cell(s, a), Cell(s, b));
    if IsDivision(op) {
      DivisionSimulates(op, w, a, b, result, labels, s);
    } else if IsSignOfBool(op, w, Cell(s, a), Cell(s, b)) {
      BoolShiftDiffers(a, b, result, labels, s);
    } else if IsShift(op) {
      ShiftSimulates(op, w, a, b, result, labels, s);
    } else {
      PlainSimulates(op, w, a, b, result, s);
    }
  }

  lemma BoolShiftDiffers(a: nat, b: nat, result: nat, labels: nat, s: State)
    requires Cell(s, a) == 1 && Cell(s, b) == 1 && result != 0
    ensures !Simulates(ShiftText(AShr, 1, a, b, result, labels), s, result, Arithmetic(AShr, 1, 1, 1))
  {
    hide Run, SignedShiftText, Arithmetic;
    var end, t := EndText(1, result), s.(rax := 1, rcx := 1);
    LoadsRun(a, b, SignedShiftText(1, labels + 1) + end, s);
    var u := SignedShiftRuns(1, labels + 1, end, t);
    SignedShiftedWord(1, 1, 1, u.rax);
    EndRuns(1, result, u);
    assert s.cells[result := Mask(u.rax, 1)][result] == Mask(u.rax, 1);
    ArithmeticMeans(AShr, 1, 1, 1);
  }

  // ----- Comparisons -----

  /** The interpreter's comparison. */
  predicate Compares(condition: Condition, w: Width, left: Word, right: Word) {
    var a, b := Widen(left, w), Widen(right, w);
    match condition
    case Equal => left == right
    case NotEqual => left != right
    case Less => a < b
    case LessEqual => a <= b
    case Greater => a > b
    case GreaterEqual => a >= b
    case Below => left < right
    case BelowEqual => left <= right
    case Above => left > right
    case AboveEqual => left >= right
  }

  /** It is simulated, but where two different bools are compared as signed. */
  lemma ComparisonSimulates(condition: Condition, w: Width, a: nat, b: nat, result: nat, s: State)
    requires Cell(s, a) < Two(w) && Cell(s, b) < Two(w) && result != 0
    ensures var value := if Compares(condition, w, Cell(s, a), Cell(s, b)) then 1 else 0;
            Simulates(ComparisonText(condition, w, a, b, result), s, result, Gives(value))
            <==> !(IsSignedCondition(condition) && w == 1 && Cell(s, a) != Cell(s, b))
  {
    hide Run, Widened, Widen, ToSigned, FromSigned, Holds;
    var left, right := Cell(s, a), Cell(s, b);
    var t, signed := s.(rax := left, rcx := right), IsSignedCondition(condition);
    var rest := [Compare(Rax, Rcx)] + ([SetIf(condition)] + ([ZeroExtend(8)] + StoreText(result)));
    LoadsRun(a, b, (if signed then WidenText(Rax, w) + WidenText(Rcx, w) else []) + rest, s);
    var u := if signed then t.(rax := FromSigned(Widened(left, w)), rcx := FromSigned(Widened(right, w))) else t;
    if signed {
      assert WidenText(Rax, w) + WidenText(Rcx, w) + rest == WidenText(Rax, w) + (WidenText(Rcx, w) + rest) by { hide WidenText; }
      WidenRuns(Rax, w, WidenText(Rcx, w) + rest, t);
      WidenRuns(Rcx, w, rest, t.(rax := u.rax));
    } else {
      assert [] + rest == rest;
    }
    var v := CompareRuns(condition, result, u);
    ComparedWords(condition, w, left, right, u.rax, u.rcx);
    assert s.cells[result := v][result] == v;
  }

  lemma CompareRuns(condition: Condition, result: nat, s: State) returns (value: Word)
    requires result != 0
    ensures value == if Holds(condition, s.(left := s.rax, right := s.rcx)) then 1 else 0
    ensures var o := Run([Compare(Rax, Rcx)] + ([SetIf(condition)] + ([ZeroExtend(8)] + StoreText(result))), s);
            o.Goes? && o.s.cells == s.cells[result := value]
  {
    hide Run, Holds;
    RunLine(Compare(Rax, Rcx), [SetIf(condition)] + ([ZeroExtend(8)] + StoreText(result)), s);
    var t := s.(left := s.rax, right := s.rcx);
    RunLine(SetIf(condition), [ZeroExtend(8)] + StoreText(result), t);
    value := if Holds(condition, t) then 1 else 0;
    var byte := t.(rax := t.rax - t.rax % 256 + value);
    LowByte(t.rax, value);
    RunLine(ZeroExtend(8), StoreText(result), byte);
    StoreRuns(result, byte.(rax := value));
  }

  lemma StoreRuns(result: nat, s: State)
    requires result != 0
    ensures Run(StoreText(result), s) == Goes(s.(cells := s.cells[result := s.rax]))
  {
    assert StoreText(result) == [X8664Machine.Store(result)] + [];
    RunLine(X8664Machine.Store(result), [], s);
  }

  lemma LowByte(word: Word, value: Word)
    requires value < 256
    ensures Mask(word - word % 256 + value, 8) == value
  {
    DivMod(word, 256);
    FloorIs(word - word % 256 + value, 256, word / 256, value);
  }

  lemma ComparedWords(condition: Condition, w: Width, left: Word, right: Word, first: Word, second: Word)
    requires left < Two(w) && right < Two(w)
    requires if IsSignedCondition(condition) then first == FromSigned(Widened(left, w)) && second == FromSigned(Widened(right, w))
             else first == left && second == right
    ensures forall s: State :: s.left == first && s.right == second ==>
              (Holds(condition, s) == Compares(condition, w, left, right)
               <==> !(IsSignedCondition(condition) && w == 1 && left != right))
  {
    WidenIsSigned(left, w);
    WidenIsSigned(right, w);
    if IsSignedCondition(condition) {
      ReadBackWord(Widened(left, w));
      ReadBackWord(Widened(right, w));
      FloorIs(left, Two(w), 0, left);
      FloorIs(right, Two(w), 0, right);
    }
  }

  // ----- One operand, and a choice -----

  /** The interpreter's `neg`, `not`, `trunc`, `zext` and `sext`. */
  function UnaryMeaning(op: Unary, w: Width, value: Word): Word {
    match op
    case Negate => Mask(Difference(0, value), w)
    case Complement => Mask(TWO64 - 1 - value, w)
    case Truncate => Mask(value, w)
    case SignExtended(from) => Mask(FromSigned(Widen(value, from)), w)
  }

  /** They are simulated, but for a true bool sign extended to more than itself. */
  lemma UnarySimulates(op: Unary, w: Width, a: nat, result: nat, s: State)
    requires result != 0 && (op.SignExtended? ==> Cell(s, a) < Two(op.from))
    ensures Simulates(UnaryText(op, w, a, result), s, result, Gives(UnaryMeaning(op, w, Cell(s, a))))
            <==> !(op.SignExtended? && op.from == 1 && w != 1 && Cell(s, a) == 1)
  {
    hide Run, Widen, Widened, WidenText, Mask, FromSigned;
    var value := Cell(s, a);
    var end, t := EndText(w, result), s.(rax := value);
    var u := UnaryRuns(op, a, end, s);
    EndRuns(w, result, u);
    assert s.cells[result := Mask(u.rax, w)][result] == Mask(u.rax, w);
    UnaryWord(op, w, value, u.rax);
  }

  lemma UnaryRuns(op: Unary, a: nat, end: Text, s: State) returns (u: State)
    requires op.SignExtended? ==> Cell(s, a) < Two(op.from)
    ensures var lines := (match op case Negate => [Neg] case Complement => [Not] case Truncate => [] case SignExtended(from) => WidenText(Rax, from));
            Run([Load(Rax, a)] + (lines + end), s) == Run(end, u) && u.cells == s.cells
    ensures u.rax == UnaryRegister(op, Cell(s, a))
  {
    hide Run, Widened, WidenText;
    var lines := match op case Negate => [Neg] case Complement => [Not] case Truncate => [] case SignExtended(from) => WidenText(Rax, from);
    var t := s.(rax := Cell(s, a));
    RunLine(Load(Rax, a), lines + end, s);
    u := t.(rax := UnaryRegister(op, t.rax));
    match op
    case Negate => RunLine(Neg, end, t);
    case Complement => RunLine(Not, end, t);
    case Truncate => assert lines + end == end;
    case SignExtended(from) => WidenRuns(Rax, from, end, t);
  }

  /** Before the mask. */
  function UnaryRegister(op: Unary, value: Word): Word {
    match op
    case Negate => Difference(0, value)
    case Complement => TWO64 - 1 - value
    case Truncate => value
    case SignExtended(from) => FromSigned(Widened(value, from))
  }

  lemma UnaryWord(op: Unary, w: Width, value: Word, made: Word)
    requires made == UnaryRegister(op, value) && (op.SignExtended? ==> value < Two(op.from))
    ensures Mask(made, w) == UnaryMeaning(op, w, value) <==> !(op.SignExtended? && op.from == 1 && w != 1 && value == 1)
  {
    if op.SignExtended? {
      WidenIsSigned(value, op.from);
      if op.from == 1 {
        CastIsLowBits(value, w);
        CastIsLowBits(Signed(value, 1), w);
        MinusOneMasked(w);
        FloorIs(value, Two(w), 0, value);
        FloorIs(value, 2, 0, value);
        FloorIs(-1, Two(w), -1, Two(w) - 1);
      }
    }
  }

  lemma SelectSimulates(condition: nat, chosen: nat, otherwise: nat, result: nat, s: State)
    requires result != 0
    ensures Simulates(SelectText(condition, chosen, otherwise, result), s, result,
                      Gives(Cell(s, if Cell(s, condition) != 0 then chosen else otherwise)))
  {
    hide Run, StoreText;
    var last := [MoveIfNotEqual] + StoreText(result);
    var third := [Test(Rdx)] + last;
    var second := [Load(Rdx, condition)] + third;
    var first := [Load(Rcx, chosen)] + second;
    RunLine(Load(Rax, otherwise), first, s);
    var t := s.(rax := Cell(s, otherwise));
    RunLine(Load(Rcx, chosen), second, t);
    var u := t.(rcx := Cell(s, chosen));
    RunLine(Load(Rdx, condition), third, u);
    var v := u.(rdx := Cell(s, condition));
    RunLine(Test(Rdx), last, v);
    var x := v.(left := v.rdx, right := 0);
    RunLine(MoveIfNotEqual, StoreText(result), x);
    StoreRuns(result, if x.left != x.right then x.(rax := x.rcx) else x);
  }
}
