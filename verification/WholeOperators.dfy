/** The operators no machine has: the division that rounds down and the power. What the lowering
    writes for them in the IR, what the emitter writes for them in C++, and that both are the
    mathematics, at every width.
  */
module WholeOperators {
  import opened Wrappers
  import opened Words
  import opened IrArithmetic

  /** An answer, or an abort, of the IR's steps so far. */
  function Give(r: Result): Word {
    if r.Gives? then r.value else 0
  }

  lemma GivesMasked(op: Operator, w: Width, left: Word, right: Word)
    requires left < Two(w) && right < Two(w)
    ensures Give(Arithmetic(op, w, left, right)) < Two(w)
  {
    ArithmeticMeans(op, w, left, right);
    if op == UDiv && right != 0 {
      QuotientIsLess(left, right);
    } else if op == URem && right != 0 {
      DivMod(left, right);
    } else if op == UMulHi {
      HighFitsWidth(left, right, w);
    } else if op == LShr {
      QuotientIsLess(left, Pow2(right));
    } else if op == And || op == Or || op == Xor {
      BitwiseFits(op, left, right, w);
    }
  }

  // ----- Division rounding down -----

  /** The IR's steps: a quotient, a remainder, and one less where they say so. */
  function FloorDivided(w: Width, left: Word, right: Word): Result
    requires left < Two(w) && right < Two(w)
  {
    var quotient, rest := Arithmetic(SDiv, w, left, right), Arithmetic(SRem, w, left, right);
    if quotient == DivisionByZero || rest == DivisionByZero then DivisionByZero
    else
      GivesMasked(SDiv, w, left, right);
      var inexact, below, under := rest.value != 0, Widen(rest.value, w) < 0, Widen(right, w) < 0;
      var lower := Arithmetic(Sub, w, quotient.value, 1);
      if inexact && (below != under) then lower else quotient
  }

  function FloorMeaning(w: Width, left: Word, right: Word): Result
    requires left < Two(w) && right < Two(w)
  {
    if right == 0 then DivisionByZero else SignedZero(right, w); Gives(Floor(Signed(left, w), Signed(right, w)) % Two(w))
  }

  lemma FloorDividedMeans(w: Width, left: Word, right: Word)
    requires left < Two(w) && right < Two(w)
    ensures FloorDivided(w, left, right) == FloorMeaning(w, left, right)
  {
    hide Widen, Signed, Quotient, Remainder, Floor;
    ArithmeticMeans(SDiv, w, left, right);
    ArithmeticMeans(SRem, w, left, right);
    if right != 0 {
      SignedZero(right, w);
      var a, b := Signed(left, w), Signed(right, w);
      var quotient, rest := Quotient(a, b) % Two(w), Remainder(a, b) % Two(w);
      FloorFromQuotient(a, b);
      WidenIsSigned(right, w);
      WidenIsSigned(left, w);
      RemainderReadBack(a, b, w);
      WidenIsSigned(rest, w);
      GivesMasked(SDiv, w, left, right);
      ArithmeticMeans(Sub, w, quotient, 1);
      OneLess(Quotient(a, b), Two(w));
    }
  }

  lemma OneLess(q: int, m: nat)
    requires m > 0
    ensures (q % m - 1) % m == (q - 1) % m
  {
    DivMod(q, m);
    WholeTurns(q % m - 1, q / m, m);
  }

  /** A remainder fits its width, so it is read back as it was. */
  lemma RemainderReadBack(a: int, b: int, w: Width)
    requires b != 0 && -(Two(w) / 2) <= b < Two(w) / 2
    ensures Signed(Remainder(a, b) % Two(w), w) == Remainder(a, b) && (Remainder(a, b) % Two(w) == 0 <==> Remainder(a, b) == 0)
  {
    RemainderSign(a, b);
    ReadBack(Remainder(a, b), w);
  }

  lemma ReadBack(i: int, w: Width)
    requires -(Two(w) / 2) <= i < Two(w) / 2
    ensures Signed(i % Two(w), w) == i && (i % Two(w) == 0 <==> i == 0)
  {
    var m := i % Two(w);
    if i < 0 {
      FloorIs(i, Two(w), -1, i + Two(w));
    } else {
      FloorIs(i, Two(w), 0, i);
    }
    FloorIs(m, Two(w), 0, m);
  }

  // ----- The emitted helpers, over 64 bits -----

  type Signed64 = i: int | -0x8000_0000_0000_0000 <= i < 0x8000_0000_0000_0000

  /** `__div_i` and `__rem_i`: the least number divided by -1 is itself. */
  function DivHelper(a: Signed64, b: Signed64): (r: Option<Signed64>) {
    if b == 0 then None
    else if b == -1 then Some(ToSigned(Difference(0, FromSigned(a))))
    else QuotientFits(a, b); Some(Quotient(a, b))
  }

  function RemHelper(a: Signed64, b: Signed64): Option<Signed64> {
    if b == 0 then None else if b == -1 then Some(0) else RemainderSign(a, b); RemainderFits(a, b); Some(Remainder(a, b))
  }

  /** Only the least number divided by -1 does not fit. */
  lemma QuotientFits(a: Signed64, b: Signed64)
    requires b != 0 && b != -1
    ensures -0x8000_0000_0000_0000 <= Quotient(a, b) < 0x8000_0000_0000_0000
  {
    var q, r := Unsigned(a, b);
    Divides(a, b);
    AbsoluteOf(a);
    AbsoluteOf(b);
    hide Quotient, Remainder, Absolute;
    if q >= 0x8000_0000_0000_0000 {
      var p := q * Absolute(b);
      if Absolute(b) >= 2 {
        TimesTwo(q, Absolute(b));
      }
    }
  }

  lemma TimesTwo(q: nat, n: nat)
    requires n >= 2
    ensures q * n >= 2 * q
  {
    var k := n - 2;
    assert q * n == q * k + 2 * q && q * k >= 0;
  }

  lemma RemainderFits(a: Signed64, b: Signed64)
    requires b != 0
    ensures -0x8000_0000_0000_0000 <= Remainder(a, b) < 0x8000_0000_0000_0000
  {
    RemainderSign(a, b);
  }

  /** `__floor_div_i`. */
  function FloorDivHelper(a: Signed64, b: Signed64): Option<Signed64> {
    if b == 0 then None
    else if b == -1 then Some(ToSigned(Difference(0, FromSigned(a))))
    else
      QuotientFits(a, b);
      LowerFits(a, b);
      if Remainder(a, b) != 0 && (a < 0) != (b < 0) then Some(Quotient(a, b) - 1) else Some(Quotient(a, b))
  }

  lemma LowerFits(a: Signed64, b: Signed64)
    requires b != 0 && b != -1
    ensures Remainder(a, b) != 0 && (a < 0) != (b < 0) ==> -0x8000_0000_0000_0000 <= Quotient(a, b) - 1
  {
    hide Quotient, Remainder;
    Divides(a, b);
    QuotientFits(a, b);
    RemainderSign(a, b);
    if Quotient(a, b) == -0x8000_0000_0000_0000 {
      var p := Quotient(a, b) * b;
      TimesFar(b, 0x8000_0000_0000_0000);
    }
  }

  /** Cast back to its type. */
  function Cast(i: int, w: Width): Word {
    Mask(FromSigned(i), w)
  }

  function CastResult(r: Option<Signed64>, w: Width): Result {
    if r == None then DivisionByZero else Gives(Cast(r.value, w))
  }

  predicate IsWhole(w: Width) {
    w != 1
  }

  lemma SignedIs64(value: Word, w: Width)
    ensures -0x8000_0000_0000_0000 <= Signed(value, w) < 0x8000_0000_0000_0000
  {
    WidenIsSigned(value, w);
  }

  lemma CastIsLowBits(i: int, w: Width)
    ensures Cast(i, w) == i % Two(w)
  {
    LowBits(i, w);
  }

  /** The negated word, read as signed, has the negated number's low bits. */
  lemma NegatedCast(a: int, w: Width)
    ensures Cast(ToSigned(Difference(0, FromSigned(a))), w) == (-a) % Two(w)
  {
    var word := Difference(0, FromSigned(a));
    DivMod(a, TWO64);
    WholeTurns(0 - a, a / TWO64, TWO64);
    assert 0 - FromSigned(a) == 0 - a + a / TWO64 * TWO64;
    assert word == (-a) % TWO64;
    LowBits(-a, w);
    CastIsLowBits(ToSigned(word), w);
    ToSignedKeeps(word, w);
  }

  lemma ToSignedKeeps(word: Word, w: Width)
    ensures ToSigned(word) % Two(w) == word % Two(w)
  {
    LowBits(ToSigned(word), w);
    if word >= 0x8000_0000_0000_0000 {
      FloorIs(word - TWO64, TWO64, -1, word);
    } else {
      FloorIs(word, TWO64, 0, word);
    }
  }

  /** Over operands widened to 64 bits and cast back, the helpers of `/` and `%` are the
      interpreter's. */
  lemma DivisionHelpersAgree(w: Width, left: Word, right: Word)
    requires left < Two(w) && right < Two(w)
    ensures -0x8000_0000_0000_0000 <= Signed(left, w) < 0x8000_0000_0000_0000
    ensures -0x8000_0000_0000_0000 <= Signed(right, w) < 0x8000_0000_0000_0000
    ensures CastResult(DivHelper(Signed(left, w), Signed(right, w)), w) == Arithmetic(SDiv, w, left, right)
    ensures CastResult(RemHelper(Signed(left, w), Signed(right, w)), w) == Arithmetic(SRem, w, left, right)
    ensures CastResult(FloorDivHelper(Signed(left, w), Signed(right, w)), w) == FloorDivided(w, left, right)
  {
    hide Signed, Quotient, Remainder, Cast, Arithmetic, FloorDivided, Floor;
    SignedIs64(left, w);
    SignedIs64(right, w);
    SignedZero(right, w);
    ArithmeticMeans(SDiv, w, left, right);
    ArithmeticMeans(SRem, w, left, right);
    FloorDividedMeans(w, left, right);
    var a, b := Signed(left, w), Signed(right, w);
    if b == -1 {
      NegatedCast(a, w);
      ByMinusOne(a);
      FloorFromQuotient(a, -1);
      CastIsLowBits(0, w);
    } else if b != 0 {
      CastIsLowBits(Quotient(a, b), w);
      CastIsLowBits(Quotient(a, b) - 1, w);
      CastIsLowBits(Remainder(a, b), w);
      FloorFromQuotient(a, b);
      RemainderSign(a, b);
    }
  }

  /** `__div_u`, of `//` too, and `__rem_u`. */
  function DivUnsignedHelper(a: Word, b: Word): Option<Word> {
    if b == 0 then None else QuotientIsLess(a, b); Some(a / b)
  }

  function RemUnsignedHelper(a: Word, b: Word): Option<Word> {
    if b == 0 then None else DivMod(a, b); Some(a % b)
  }

  function CastUnsigned(r: Option<Word>, w: Width): Result {
    if r == None then DivisionByZero else Gives(Mask(r.value, w))
  }

  /** The unsigned helpers are the interpreter's: the quotient and what is left of it, below the
      width, and an abort on zero. */
  lemma UnsignedHelpersAgree(w: Width, left: Word, right: Word)
    requires left < Two(w) && right < Two(w)
    ensures CastUnsigned(DivUnsignedHelper(left, right), w) == Arithmetic(UDiv, w, left, right)
    ensures CastUnsigned(RemUnsignedHelper(left, right), w) == Arithmetic(URem, w, left, right)
    ensures right != 0 ==> left == left / right * right + left % right && left % right < right
  {
    if right != 0 {
      QuotientIsLess(left, right);
      DivMod(left, right);
      FloorIs(left / right, Two(w), 0, left / right);
      FloorIs(left % right, Two(w), 0, left % right);
    }
  }

  // ----- Shifts -----

  function ShlHelper(value: Word, count: Signed64): Word {
    if count < 0 || count >= 64 then 0 else LeftShifted(value, count)
  }

  function ShrSignedHelper(value: Signed64, count: Signed64): int {
    value / Pow2(if count < 0 || count >= 64 then 63 else count)
  }

  function ShrUnsignedHelper(value: Word, count: Signed64): Word {
    if count < 0 || count >= 64 then 0 else RightShifted(value, count)
  }

  /** How a count reaches a helper: signed or not, as a 64-bit one. */
  predicate IsCount(count: Signed64, right: Word, w: Width) {
    count == Signed(right, w) || count == ToSigned(right)
  }

  lemma CountReads(count: Signed64, right: Word, w: Width)
    requires IsWhole(w) && right < Two(w) && IsCount(count, right, w)
    ensures if count < 0 || count >= w then right >= w else right == count
    ensures count < 0 ==> right >= 64
  {
    FloorIs(right, Two(w), 0, right);
  }

  /** So are the shifts, however far they go. */
  lemma ShiftHelpersAgree(w: Width, left: Word, right: Word, value: Word, count: Signed64)
    requires IsWhole(w) && left < Two(w) && right < Two(w) && IsCount(count, right, w) && value % Two(w) == left
    ensures Gives(Mask(ShlHelper(value, count), w)) == Arithmetic(Shl, w, left, right)
    ensures Gives(ShrUnsignedHelper(left, count)) == Arithmetic(LShr, w, left, right)
  {
    CountReads(count, right, w);
    if 0 <= count < 64 {
      LeftHelperAgrees(w, left, value, count);
      RightHelperAgrees(w, left, count);
    }
  }

  lemma LeftHelperAgrees(w: Width, left: Word, value: Word, count: nat)
    requires left < Two(w) && count < 64 && value % Two(w) == left
    ensures Mask(LeftShifted(value, count), w) == if count >= w then 0 else Mask(LeftShifted(left, count), w)
  {
    LowBits(value * Pow2(count), w);
    if count >= w {
      ShiftedOut(value, count, w);
    } else {
      LowBits(left * Pow2(count), w);
      FloorIs(left, Two(w), 0, left);
      LowBitsOfProduct(value, left, Pow2(count), Two(w));
    }
  }

  lemma RightHelperAgrees(w: Width, left: Word, count: nat)
    requires left < Two(w) && count < 64
    ensures count >= w ==> RightShifted(left, count) == 0
  {
    if count >= w {
      TwoIsPow2(w);
      Pow2Grows(w, count);
      FloorIs(left, Pow2(count), 0, left);
    }
  }

  /** Only the low bits of a factor reach the product's. */
  lemma LowBitsOfProduct(value: int, low: int, factor: int, m: nat)
    requires m > 0 && value % m == low % m
    ensures (value * factor) % m == (low * factor) % m
  {
    DivMod(value, m);
    DivMod(low, m);
    var turns := value / m - low / m;
    assert value == low + turns * m;
    var p := turns * factor;
    Distributed(low, turns, m, factor);
    WholeTurns(low * factor, p, m);
  }

  lemma Distributed(low: int, turns: int, m: int, factor: int)
    ensures (low + turns * m) * factor == low * factor + (turns * factor) * m
  {
  }

  lemma SignedShiftAgrees(w: Width, left: Word, right: Word, count: Signed64)
    requires IsWhole(w) && left < Two(w) && right < Two(w) && IsCount(count, right, w)
    ensures -0x8000_0000_0000_0000 <= Signed(left, w) < 0x8000_0000_0000_0000
    ensures Gives(Cast(ShrSignedHelper(Signed(left, w), count), w)) == Arithmetic(AShr, w, left, right)
  {
    SignedIs64(left, w);
    CountReads(count, right, w);
    ArithmeticMeans(AShr, w, left, right);
    var a := Signed(left, w);
    hide Signed, Arithmetic;
    CastIsLowBits(ShrSignedHelper(a, count), w);
    if count < 0 || count >= w {
      WidenIsSigned(left, w);
      SignOnly(a, right, w);
      SignAtLeast63(a, if count < 0 || count >= 64 then 63 else count, w);
    }
  }

  lemma SignAtLeast63(a: int, count: nat, w: Width)
    requires -(Two(w) / 2) <= a < Two(w) / 2 && (w <= count || count == 63)
    ensures a / Pow2(count) == if a < 0 then -1 else 0
  {
    TwoIsPow2(64);
    assert Pow2(64) == 2 * Pow2(63);
    if w <= count {
      SignOnly(a, count, w);
    } else {
      assert Two(w) <= TWO64;
      if a < 0 {
        FloorIs(a, Pow2(63), -1, a + Pow2(63));
      } else {
        FloorIs(a, Pow2(63), 0, a);
      }
    }
  }

  // ----- Powers -----

  function Power(base: int, exponent: nat): int {
    if exponent == 0 then 1 else Power(base, exponent - 1) * base
  }

  lemma {:induction false} SamePower(base: int, low: int, exponent: nat, m: nat)
    requires m > 0 && base % m == low % m
    ensures Power(base, exponent) % m == Power(low, exponent) % m
    decreases exponent
  {
    if exponent > 0 {
      SamePower(base, low, exponent - 1, m);
      LowBitsOfProduct(Power(base, exponent - 1), Power(low, exponent - 1), base, m);
      LowBitsOfProduct(base, low, Power(low, exponent - 1), m);
      assert Power(low, exponent - 1) * base == base * Power(low, exponent - 1);
      assert Power(low, exponent - 1) * low == low * Power(low, exponent - 1);
    }
  }

  /** `base` to a power; a signed negative one is 1 over the positive one's, truncated, and 0 has
      none to give. */
  function PowerMeaning(sign: bool, w: Width, base: Word, exponent: Word): Word
    requires base < Two(w) && exponent < Two(w)
  {
    if !sign then Power(base, exponent) % Two(w)
    else
      var b, e := Signed(base, w), Signed(exponent, w);
      if e >= 0 then Power(b, e) % Two(w) else OneOver(b, -e) % Two(w)
  }

  /** 1 over a power, truncated. */
  function OneOver(base: int, exponent: nat): int {
    if base == 0 then 0 else PowerIsNotZero(base, exponent); Quotient(1, Power(base, exponent))
  }

  lemma {:induction false} PowerIsNotZero(base: int, exponent: nat)
    requires base != 0
    ensures Power(base, exponent) != 0
    decreases exponent
  {
    if exponent > 0 {
      PowerIsNotZero(base, exponent - 1);
      var p := Power(base, exponent - 1);
      if p * base == 0 {
        ZeroFactor(p, base);
      }
    }
  }

  lemma ZeroFactor(a: int, b: int)
    requires a * b == 0
    ensures a == 0 || b == 0
  {
  }

  /** A power of anything but 0, 1 and -1 is farther from 0 than 1. */
  lemma {:induction false} PowerIsFar(base: int, exponent: nat)
    requires exponent > 0 && (base >= 2 || base <= -2)
    ensures Power(base, exponent) >= 2 || Power(base, exponent) <= -2
    decreases exponent
  {
    if exponent > 1 {
      PowerIsFar(base, exponent - 1);
      FarProduct(Power(base, exponent - 1), base);
    } else {
      assert Power(base, 1) == Power(base, 0) * base;
    }
  }

  lemma FarProduct(a: int, b: int)
    requires (a >= 2 || a <= -2) && (b >= 2 || b <= -2)
    ensures a * b >= 2 || a * b <= -2
  {
    var m, n := if a < 0 then -a else a, if b < 0 then -b else b;
    TimesTwo(m, n);
    assert a * b == m * n || a * b == -(m * n);
  }

  lemma {:induction false} PowerOfUnit(base: int, exponent: nat)
    requires base == 1 || base == -1
    ensures Power(base, exponent) == if base == 1 || exponent % 2 == 0 then 1 else -1
    decreases exponent
  {
    if exponent > 0 {
      PowerOfUnit(base, exponent - 1);
    }
  }

  /** What is left of 1 over a power. */
  lemma OverPower(base: int, exponent: nat)
    requires exponent > 0 && base != 0
    ensures Power(base, exponent) != 0
    ensures Quotient(1, Power(base, exponent)) ==
            if base == 1 then 1 else if base == -1 then (if exponent % 2 == 0 then 1 else -1) else 0
  {
    PowerIsNotZero(base, exponent);
    var p := Power(base, exponent);
    if base == 1 || base == -1 {
      PowerOfUnit(base, exponent);
    } else {
      PowerIsFar(base, exponent);
      OverFar(p);
    }
  }

  lemma OverFar(p: int)
    requires p >= 2 || p <= -2
    ensures Quotient(1, p) == 0
  {
    FloorIs(1, if p < 0 then -p else p, 0, 1);
  }

  lemma NoTurn(w: Width, base: Word)
    ensures 1 == Power(base, 0) % Two(w)
  {
    FloorIs(1, Two(w), 0, 1);
  }

  lemma OneTurn(w: Width, answer: Word, base: Word, turn: Word, exponent: Word)
    requires answer < Two(w) && base < Two(w) && turn < exponent < Two(w) && answer == Power(base, turn) % Two(w)
    ensures Give(Arithmetic(Mul, w, answer, base)) == Power(base, turn + 1) % Two(w)
    ensures Give(Arithmetic(Add, w, turn, 1)) == turn + 1
  {
    hide Arithmetic;
    ArithmeticMeans(Mul, w, answer, base);
    FloorIs(answer, Two(w), 0, answer);
    LowBitsOfProduct(answer, Power(base, turn), base, Two(w));
    ArithmeticMeans(Add, w, turn, 1);
    FloorIs(turn + 1, Two(w), 0, turn + 1);
  }

  /** The loop's test. */
  function Enough(sign: bool, w: Width, turn: Word, exponent: Word): bool {
    if sign then Widen(turn, w) >= Widen(exponent, w) else turn >= exponent
  }

  lemma TurnReads(sign: bool, w: Width, turn: Word, exponent: Word)
    requires turn <= exponent < Two(w) && (sign ==> Widen(exponent, w) >= 0)
    ensures Enough(sign, w, turn, exponent) <==> turn >= exponent
  {
    WidenIsSigned(turn, w);
    WidenIsSigned(exponent, w);
    FloorIs(turn, Two(w), 0, turn);
    FloorIs(exponent, Two(w), 0, exponent);
  }

  lemma SignedBase(base: Word, exponent: Word, w: Width)
    requires base < Two(w) && exponent < Two(w) && Signed(exponent, w) >= 0
    ensures Signed(exponent, w) == exponent && Power(Signed(base, w), exponent) % Two(w) == Power(base, exponent) % Two(w)
  {
    FloorIs(exponent, Two(w), 0, exponent);
    FloorIs(base, Two(w), 0, base);
    WholeTurns(base, -1, Two(w));
    SamePower(base, Signed(base, w), exponent, Two(w));
  }

  lemma NegativeExponent(w: Width, base: Word, exponent: Word)
    requires IsWhole(w) && base < Two(w) && exponent < Two(w) && Widen(exponent, w) < 0
    ensures var minusOne, half := Give(Arithmetic(Sub, w, 0, 1)), Give(Arithmetic(SRem, w, exponent, 2));
            PowerMeaning(true, w, base, exponent) ==
            if base == 1 then 1 else if base == minusOne then (if half == 0 then 1 else minusOne) else 0
  {
    hide Widen, Power, Quotient;
    WidenIsSigned(exponent, w);
    var b, e := Signed(base, w), Signed(exponent, w);
    ArithmeticMeans(Sub, w, 0, 1);
    HalfOf(w, exponent);
    Units(w, base);
    if b != 0 {
      OverPower(b, -e);
      FloorIs(0, Two(w), 0, 0);
    }
  }

  lemma HalfOf(w: Width, exponent: Word)
    requires IsWhole(w) && exponent < Two(w) && Signed(exponent, w) < 0
    ensures Give(Arithmetic(SRem, w, exponent, 2)) == 0 <==> (-Signed(exponent, w)) % 2 == 0
  {
    hide Arithmetic, Widen;
    ArithmeticMeans(SRem, w, exponent, 2);
    FloorIs(2, Two(w), 0, 2);
    RemainderReadBack(Signed(exponent, w), 2, w);
  }

  /** The words of 1, of -1 and of 0. */
  lemma Units(w: Width, base: Word)
    requires IsWhole(w) && base < Two(w)
    ensures 1 % Two(w) == 1 && (-1) % Two(w) == Two(w) - 1
    ensures Signed(base, w) == 1 <==> base == 1
    ensures Signed(base, w) == -1 <==> base == Two(w) - 1
    ensures Signed(base, w) == 0 <==> base == 0
  {
    FloorIs(1, Two(w), 0, 1);
    FloorIs(-1, Two(w), -1, Two(w) - 1);
    FloorIs(base, Two(w), 0, base);
  }

  /** `__power_i` over operands widened to 64 bits: the loop's product wraps, and is cut to the
      width when it is cast back. */
  method PowerHelper(base: Signed64, exponent: Signed64) returns (answer: Signed64)
    ensures exponent >= 0 ==> FromSigned(answer) == Power(base, exponent) % TWO64
    ensures exponent < 0 ==> answer == OneOver(base, 0 - exponent)
  {
    if exponent < 0 {
      var e: int := exponent;
      if base != 0 {
        OverPower(base, -e);
      }
      if base == 1 {
        return 1;
      }
      if base == -1 {
        RemainderSign(exponent, 2);
        return if Remainder(exponent, 2) == 0 then 1 else -1;
      }
      return 0;
    }
    answer := 1;
    var i := 0;
    while i < exponent
      invariant 0 <= i <= exponent
      invariant FromSigned(answer) == Power(base, i) % TWO64
    {
      var wrapped := Product(FromSigned(answer), FromSigned(base));
      WrappedProduct(answer, base, Power(base, i));
      answer := ToSigned(wrapped);
      ReadAsSigned(wrapped);
      i := i + 1;
    }
  }

  lemma WrappedProduct(answer: int, base: int, power: int)
    requires FromSigned(answer) == power % TWO64
    ensures Product(FromSigned(answer), FromSigned(base)) == (power * base) % TWO64
  {
    var a, b := FromSigned(answer), FromSigned(base);
    FloorIs(b, TWO64, 0, b);
    FloorIs(a, TWO64, 0, a);
    LowBitsOfProduct(a, power, b, TWO64);
    LowBitsOfProduct(b, base, power, TWO64);
    assert power * b == b * power && power * base == base * power;
  }

  lemma ReadAsSigned(word: Word)
    ensures FromSigned(ToSigned(word)) == word
  {
    if word >= 0x8000_0000_0000_0000 {
      FloorIs(word - TWO64, TWO64, -1, word);
    } else {
      FloorIs(word, TWO64, 0, word);
    }
  }

  /** Cast back, what the helper gives is the power. */
  lemma PowerHelperAgrees(w: Width, base: Word, exponent: Word, answer: Signed64)
    requires base < Two(w) && exponent < Two(w)
    requires var b, e := Signed(base, w), Signed(exponent, w);
             && (e >= 0 ==> FromSigned(answer) == Power(b, e) % TWO64)
             && (e < 0 ==> answer == OneOver(b, -e))
    ensures Cast(answer, w) == PowerMeaning(true, w, base, exponent)
  {
    CastIsLowBits(answer, w);
    FloorIs(0, Two(w), 0, 0);
    if Signed(exponent, w) >= 0 {
      LowBits(Power(Signed(base, w), Signed(exponent, w)), w);
    }
  }

  /** `__power_u`, cut to the width in the same way. */
  method UnsignedPowerHelper(w: Width, base: Word, exponent: Word) returns (answer: Word)
    requires base < Two(w) && exponent < Two(w)
    ensures Mask(answer, w) == PowerMeaning(false, w, base, exponent)
  {
    answer := 1;
    var i := 0;
    while i < exponent
      invariant 0 <= i <= exponent
      invariant answer == Power(base, i) % TWO64
    {
      LowBitsOfProduct(answer, Power(base, i), base, TWO64);
      FloorIs(answer, TWO64, 0, answer);
      answer := Product(answer, base);
      i := i + 1;
    }
    LowBits(Power(base, exponent), w);
  }
}
