/** What the IR's operators compute: as the interpreter does, from 64-bit words, and what that is in
    the mathematics of whole numbers -- at every width, for all operands.
  */
module IrArithmetic {
  import opened Words

  datatype Operator = Add | Sub | Mul | SDiv | SRem | UDiv | URem | UMulHi | SMulHi | And | Or | Xor | Shl | LShr | AShr

  datatype Result = Gives(value: Word) | DivisionByZero

  // ----- Bits -----

  function Bit(op: Operator, a: nat, b: nat): nat {
    if op == And then a * b else if op == Or then (if a + b > 0 then 1 else 0) else (a + b) % 2
  }

  /** Bit by bit. */
  function Bitwise(op: Operator, a: nat, b: nat): nat
    decreases a + b
  {
    if a == 0 && b == 0 then 0 else Bit(op, a % 2, b % 2) + 2 * Bitwise(op, a / 2, b / 2)
  }

  lemma {:induction false} BitwiseBelow(op: Operator, a: nat, b: nat, n: nat)
    requires a < Pow2(n) && b < Pow2(n)
    ensures Bitwise(op, a, b) < Pow2(n)
    decreases n
  {
    if n > 0 && (a > 0 || b > 0) {
      BitwiseBelow(op, a / 2, b / 2, n - 1);
      assert Bit(op, a % 2, b % 2) <= 1 by {
        assert a % 2 == 0 || a % 2 == 1;
        assert b % 2 == 0 || b % 2 == 1;
      }
    }
  }

  lemma BitwiseFits(op: Operator, a: Word, b: Word, w: Width)
    requires a < Two(w) && b < Two(w)
    ensures Bitwise(op, a, b) < Two(w)
  {
    TwoIsPow2(w);
    BitwiseBelow(op, a, b, w);
  }

  // ----- The product's high half -----

  /** The high 64 bits of a product, from 32-bit halves: every intermediate is a word's. */
  method HighOfProduct(a: Word, b: Word) returns (high: Word)
    ensures high == HighOf(a, b)
  {
    hide Product, Sum;
    var aLow, aHigh, bLow, bHigh := a % TWO32, a / TWO32, b % TWO32, b / TWO32;
    HalvesFit(aLow, bLow);
    HalvesFit(aHigh, bLow);
    HalvesFit(aLow, bHigh);
    HalvesFit(aHigh, bHigh);
    var lowLow := Product(aLow, bLow);
    var highLow := Product(aHigh, bLow);
    var lowHigh := Product(aLow, bHigh);
    var highHigh := Product(aHigh, bHigh);
    FromHalves(a, b, aLow, aHigh, bLow, bHigh, lowLow, highLow, lowHigh, highHigh);
    SumOfThree(lowLow / TWO32, highLow % TWO32, lowHigh % TWO32);
    var middle := Sum(Sum(lowLow / TWO32, highLow % TWO32), lowHigh % TWO32);
    SumOfThree(highHigh, highLow / TWO32, lowHigh / TWO32);
    SumOfThree(highHigh + highLow / TWO32 + lowHigh / TWO32, middle / TWO32, 0);
    high := Sum(Sum(Sum(highHigh, highLow / TWO32), lowHigh / TWO32), middle / TWO32);
  }

  lemma SumOfThree(a: Word, b: Word, c: Word)
    requires a + b + c < TWO64
    ensures Sum(a, b) == a + b && Sum(Sum(a, b), c) == a + b + c
  {
  }

  function HighOf(a: Word, b: Word): (high: Word)
    ensures high == a * b / TWO64
  {
    HighFits(a, b);
    a * b / TWO64
  }

  lemma HighFits(a: Word, b: Word)
    ensures 0 <= a * b / TWO64 < TWO64
  {
    var p := a * b;
    assert p <= (TWO64 - 1) * (TWO64 - 1) by { ProductAtMost(a, b, TWO64 - 1, TWO64 - 1); }
  }

  lemma ProductAtMost(a: nat, b: nat, c: nat, d: nat)
    requires a <= c && b <= d
    ensures a * b <= c * d
  {
    assert a * b <= a * d;
    assert a * d <= c * d;
  }

  lemma HalvesFit(a: nat, b: nat)
    requires a < TWO32 && b < TWO32
    ensures Product(a, b) == a * b <= (TWO32 - 1) * (TWO32 - 1) < TWO64
  {
    var p, most := a * b, TWO32 - 1;
    ProductAtMost(a, b, most, most);
    assert most * most == 0xFFFF_FFFE_0000_0001;
    assert p < TWO64;
  }

  lemma FromHalves(a: Word, b: Word, aLow: nat, aHigh: nat, bLow: nat, bHigh: nat, lowLow: nat, highLow: nat, lowHigh: nat, highHigh: nat)
    requires a == aHigh * TWO32 + aLow && b == bHigh * TWO32 + bLow
    requires lowLow == aLow * bLow && highLow == aHigh * bLow && lowHigh == aLow * bHigh && highHigh == aHigh * bHigh
    requires lowLow <= (TWO32 - 1) * (TWO32 - 1) && highLow <= (TWO32 - 1) * (TWO32 - 1) && lowHigh <= (TWO32 - 1) * (TWO32 - 1)
             && highHigh <= (TWO32 - 1) * (TWO32 - 1)
    ensures var middle := lowLow / TWO32 + highLow % TWO32 + lowHigh % TWO32;
            highHigh + highLow / TWO32 + lowHigh / TWO32 + middle / TWO32 == a * b / TWO64
    ensures lowLow / TWO32 + highLow % TWO32 + lowHigh % TWO32 < TWO64
    ensures highHigh + highLow / TWO32 + lowHigh / TWO32 + (lowLow / TWO32 + highLow % TWO32 + lowHigh % TWO32) / TWO32 < TWO64
  {
    assert a * b == highHigh * TWO64 + (highLow + lowHigh) * TWO32 + lowLow by { Expand(a, b, aLow, aHigh, bLow, bHigh); }
    HighFits(a, b);
    AddUp(highHigh, highLow, lowHigh, lowLow, a * b);
  }

  lemma Expand(a: nat, b: nat, aLow: nat, aHigh: nat, bLow: nat, bHigh: nat)
    requires a == aHigh * TWO32 + aLow && b == bHigh * TWO32 + bLow
    ensures a * b == (aHigh * bHigh) * TWO64 + (aHigh * bLow + aLow * bHigh) * TWO32 + aLow * bLow
  {
    assert a * b == aHigh * TWO32 * b + aLow * b;
    assert aLow * b == aLow * bHigh * TWO32 + aLow * bLow;
    assert aHigh * b == aHigh * bHigh * TWO32 + aHigh * bLow;
  }

  lemma AddUp(highHigh: nat, highLow: nat, lowHigh: nat, lowLow: nat, product: nat)
    requires product == highHigh * TWO64 + (highLow + lowHigh) * TWO32 + lowLow
    ensures var middle := lowLow / TWO32 + highLow % TWO32 + lowHigh % TWO32;
            highHigh + highLow / TWO32 + lowHigh / TWO32 + middle / TWO32 == product / TWO64
  {
  }

  // ----- What the interpreter does -----

  function Arithmetic(op: Operator, w: Width, left: Word, right: Word): Result {
    match op
    case Add => Gives(Mask(Sum(left, right), w))
    case Sub => Gives(Mask(Difference(left, right), w))
    case Mul => Gives(Mask(Product(left, right), w))
    case SDiv => if right == 0 then DivisionByZero else Gives(Divided(true, w, left, right))
    case SRem => if right == 0 then DivisionByZero else Gives(Left(true, w, left, right))
    case UDiv => if right == 0 then DivisionByZero else Gives(Divided(false, w, left, right))
    case URem => if right == 0 then DivisionByZero else Gives(Left(false, w, left, right))
    case UMulHi => Gives(if w == 64 then HighOf(left, right) else Mask(Product(left, right) / Two(w), w))
    case SMulHi => Gives(SignedHigh(w, left, right))
    case Shl => Gives(if right >= w then 0 else Mask(LeftShifted(left, right), w))
    case LShr => Gives(if right >= w then 0 else RightShifted(left, right))
    case AShr => Gives(SignedShifted(w, left, right))
    case _ => BitwiseFits(op, left, right, 64); Gives(Bitwise(op, left, right))
  }

  /** The least number divided by -1 is itself. A divisor that is not 0 and is read as 0, which none
      below its width is (`WidenedZero`), has no quotient. */
  function Divided(sign: bool, w: Width, left: Word, right: Word): Word
    requires right != 0
  {
    var a, b := Widen(left, w), Widen(right, w);
    if !sign then QuotientIsLess(left, right); left / right
    else if b == -1 then Mask(Difference(0, left), w)
    else if b == 0 then 0
    else Mask(FromSigned(Quotient(a, b)), w)
  }

  function Left(sign: bool, w: Width, left: Word, right: Word): Word
    requires right != 0
  {
    var a, b := Widen(left, w), Widen(right, w);
    if !sign then DivMod(left, right); left % right
    else if b == -1 || b == 0 then 0
    else Mask(FromSigned(Remainder(a, b)), w)
  }

  function SignedHigh(w: Width, left: Word, right: Word): Word {
    var a, b := Widen(left, w), Widen(right, w);
    if w == 64 then Difference(Difference(HighOf(left, right), if a < 0 then right else 0), if b < 0 then left else 0)
    else Mask(FromSigned((a * b) / Two(w)), w)
  }

  /** By less than 64. */
  function LeftShifted(value: Word, count: nat): Word {
    (value * Pow2(count)) % TWO64
  }

  function RightShifted(value: Word, count: nat): Word {
    QuotientIsLess(value, Pow2(count));
    value / Pow2(count)
  }

  function SignedShifted(w: Width, left: Word, right: Word): Word {
    if right >= w then (if Mask(left, w) >= Two(w) / 2 then Mask(TWO64 - 1, w) else 0)
    else Mask(FromSigned(Widen(left, w) / Pow2(right)), w)
  }

  lemma WidenedZero(value: Word, w: Width)
    requires value < Two(w)
    ensures Widen(value, w) == 0 <==> value == 0
  {
    WidenIsSigned(value, w);
  }

  // ----- What it means -----

  /** The operators over whole numbers: signed ones read their operands as signed, an answer is
      kept to its width, a shift is a product or a quotient by a power of two however far it
      goes, and dividing the least number by -1 gives it back. */
  function Meaning(op: Operator, w: Width, left: Word, right: Word): Result
    requires left < Two(w) && right < Two(w)
  {
    match op
    case Add => Gives((left + right) % Two(w))
    case Sub => Gives((left - right) % Two(w))
    case Mul => Gives((left * right) % Two(w))
    case SDiv => if right == 0 then DivisionByZero else SignedZero(right, w); Gives(Quotient(Signed(left, w), Signed(right, w)) % Two(w))
    case SRem => if right == 0 then DivisionByZero else SignedZero(right, w); Gives(Remainder(Signed(left, w), Signed(right, w)) % Two(w))
    case UDiv => if right == 0 then DivisionByZero else QuotientIsLess(left, right); Gives(left / right)
    case URem => if right == 0 then DivisionByZero else DivMod(left, right); Gives(left % right)
    case UMulHi => HighFitsWidth(left, right, w); Gives(left * right / Two(w))
    case SMulHi => Gives((Signed(left, w) * Signed(right, w)) / Two(w) % Two(w))
    case Shl => Gives((left * Pow2(right)) % Two(w))
    case LShr => QuotientIsLess(left, Pow2(right)); Gives(left / Pow2(right))
    case AShr => Gives(Signed(left, w) / Pow2(right) % Two(w))
    case _ => BitwiseFits(op, left, right, w); Gives(Bitwise(op, left, right))
  }

  lemma SignedZero(value: Word, w: Width)
    requires value < Two(w)
    ensures Signed(value, w) == 0 <==> value == 0
  {
    WidenedZero(value, w);
    WidenIsSigned(value, w);
  }

  lemma HighFitsWidth(left: Word, right: Word, w: Width)
    requires left < Two(w) && right < Two(w)
    ensures 0 <= left * right / Two(w) < Two(w)
  {
    var p, two := left * right, Two(w);
    ProductAtMost(left, right, two - 1, two - 1);
    assert p <= (two - 1) * (two - 1) < two * two;
    DivMod(p, two);
    var q := p / two;
    if q >= two {
      ProductAtMost(two, two, q, two);
    }
  }

  /** The interpreter computes what the operators mean, at every width. */
  lemma ArithmeticMeans(op: Operator, w: Width, left: Word, right: Word)
    requires left < Two(w) && right < Two(w)
    ensures Arithmetic(op, w, left, right) == Meaning(op, w, left, right)
  {
    hide Widen, Signed, Quotient, Remainder, Bitwise, Pow2, Two;
    match op
    case Add => LowBits(left + right, w);
    case Sub => LowBits(left - right, w);
    case Mul => LowBits(left * right, w);
    case SDiv => if right != 0 { DivisionMeans(w, left, right); }
    case SRem => if right != 0 { DivisionMeans(w, left, right); }
    case UMulHi => UnsignedHighMeans(w, left, right);
    case SMulHi => SignedHighMeans(w, left, right);
    case Shl => LeftShiftMeans(w, left, right);
    case LShr => RightShiftMeans(w, left, right);
    case AShr => SignedShiftMeans(w, left, right);
    case UDiv =>
    case URem =>
    case And =>
    case Or =>
    case Xor =>
  }

  lemma DivisionMeans(w: Width, left: Word, right: Word)
    requires left < Two(w) && right < Two(w) && right != 0
    ensures Arithmetic(SDiv, w, left, right) == Meaning(SDiv, w, left, right)
    ensures Arithmetic(SRem, w, left, right) == Meaning(SRem, w, left, right)
  {
    hide Quotient, Remainder, Widen, Signed;
    WidenIsSigned(left, w);
    WidenIsSigned(right, w);
    WidenedZero(right, w);
    var a, b := Signed(left, w), Signed(right, w);
    if b == -1 {
      ByMinusOne(a);
      LowBits(0 - left, w);
      SameNegated(left, w);
    } else {
      LowBits(Quotient(a, b), w);
      LowBits(Remainder(a, b), w);
    }
  }

  lemma ByMinusOne(a: int)
    ensures Quotient(a, -1) == -a && Remainder(a, -1) == 0
  {
    Divides(a, -1);
  }

  lemma SameNegated(left: Word, w: Width)
    requires left < Two(w)
    ensures (0 - left) % Two(w) == (-Signed(left, w)) % Two(w)
  {
    FloorIs(left, Two(w), 0, left);
    if Signed(left, w) != left {
      assert -Signed(left, w) == (0 - left) + Two(w);
      WholeTurns(0 - left, 1, Two(w));
    }
  }

  /** Whole multiples do not change a remainder. */
  lemma WholeTurns(value: int, turns: int, m: nat)
    requires m > 0
    ensures (value + turns * m) % m == value % m
  {
    DivMod(value, m);
    var q := value / m;
    assert value + turns * m == (q + turns) * m + value % m;
    FloorIs(value + turns * m, m, q + turns, value % m);
  }

  lemma UnsignedHighMeans(w: Width, left: Word, right: Word)
    requires left < Two(w) && right < Two(w)
    ensures Arithmetic(UMulHi, w, left, right) == Meaning(UMulHi, w, left, right)
  {
    HighFitsWidth(left, right, w);
    if w != 64 {
      HalvesFit(left, right);
      var high := left * right / Two(w);
      FloorIs(high, Two(w), 0, high);
    }
  }

  lemma SignedHighMeans(w: Width, left: Word, right: Word)
    requires left < Two(w) && right < Two(w)
    ensures Arithmetic(SMulHi, w, left, right) == Meaning(SMulHi, w, left, right)
  {
    WidenIsSigned(left, w);
    WidenIsSigned(right, w);
    var a, b := Signed(left, w), Signed(right, w);
    if w == 64 {
      HighCorrected(left, right, a, b);
    } else {
      LowBits((a * b) / Two(w), w);
    }
  }

  /** Reading an operand as signed takes the other from the high half. */
  lemma HighCorrected(left: Word, right: Word, a: int, b: int)
    requires a == (if left < TWO64 / 2 then left else left - TWO64) && b == (if right < TWO64 / 2 then right else right - TWO64)
    ensures Difference(Difference(HighOf(left, right), if a < 0 then right else 0), if b < 0 then left else 0) == (a * b) / TWO64 % TWO64
  {
    var high, x, y := HighOf(left, right), if a < 0 then right else 0, if b < 0 then left else 0;
    var both := if a < 0 && b < 0 then 1 else 0;
    var p := left * right;
    DivMod(p, TWO64);
    assert a * b == p - (x + y) * TWO64 + both * TWO64 * TWO64 by { ProductOfSigned(left, right, a, b); }
    FloorIs(a * b, TWO64, high - x - y + both * TWO64, p % TWO64);
    WholeTurns(high - x - y, both, TWO64);
    TwiceLess(high, x, y);
  }

  lemma ProductOfSigned(left: Word, right: Word, a: int, b: int)
    requires a == (if left < TWO64 / 2 then left else left - TWO64) && b == (if right < TWO64 / 2 then right else right - TWO64)
    ensures var x, y, both := if a < 0 then right else 0, if b < 0 then left else 0, if a < 0 && b < 0 then 1 else 0;
            a * b == left * right - (x + y) * TWO64 + both * TWO64 * TWO64
  {
  }

  lemma TwiceLess(high: Word, x: Word, y: Word)
    ensures Difference(Difference(high, x), y) == (high - x - y) % TWO64
  {
    DivMod(high - x, TWO64);
    WholeTurns((high - x) % TWO64 - y, (high - x) / TWO64, TWO64);
  }

  lemma LeftShiftMeans(w: Width, left: Word, right: Word)
    requires left < Two(w) && right < Two(w)
    ensures Arithmetic(Shl, w, left, right) == Meaning(Shl, w, left, right)
  {
    if right < w {
      Pow2IsAWord(right);
      LowBits(left * Pow2(right), w);
    } else {
      ShiftedOut(left, right, w);
    }
  }

  lemma Pow2IsAWord(n: nat)
    requires n < 64
    ensures Pow2(n) < TWO64
  {
    TwoIsPow2(64);
    Pow2Grows(n, 63);
    assert Pow2(64) == 2 * Pow2(63);
  }

  lemma ShiftedOut(left: nat, count: nat, w: Width)
    requires w <= count
    ensures (left * Pow2(count)) % Two(w) == 0
  {
    TwoIsPow2(w);
    Pow2Sum(w, count - w);
    var turns := left * Pow2(count - w);
    Regrouped(left, Two(w), Pow2(count - w));
    WholeTurns(0, turns, Two(w));
  }

  lemma Regrouped(a: nat, b: nat, c: nat)
    ensures a * (b * c) == (a * c) * b
  {
  }

  lemma RightShiftMeans(w: Width, left: Word, right: Word)
    requires left < Two(w) && right < Two(w)
    ensures Arithmetic(LShr, w, left, right) == Meaning(LShr, w, left, right)
  {
    if right >= w {
      TwoIsPow2(w);
      Pow2Grows(w, right);
      FloorIs(left, Pow2(right), 0, left);
    }
  }

  lemma SignedShiftMeans(w: Width, left: Word, right: Word)
    requires left < Two(w) && right < Two(w)
    ensures Arithmetic(AShr, w, left, right) == Meaning(AShr, w, left, right)
  {
    hide Widen, Pow2;
    WidenIsSigned(left, w);
    if right >= w {
      SignOnly(Signed(left, w), right, w);
      MinusOneMasked(w);
      HighestBit(left, w);
      hide Two, Signed, Mask;
    } else {
      LowBits(Signed(left, w) / Pow2(right), w);
    }
  }

  lemma HighestBit(value: Word, w: Width)
    requires value < Two(w)
    ensures value >= Two(w) / 2 <==> Signed(value, w) < 0
  {
    FloorIs(value, Two(w), 0, value);
  }

  lemma MinusOneMasked(w: Width)
    ensures Mask(TWO64 - 1, w) == (-1) % Two(w) && 0 == 0 % Two(w)
  {
    LowBits(-1, w);
    FloorIs(-1, TWO64, -1, TWO64 - 1);
  }

  /** Shifted past its width a signed number is its sign. */
  lemma SignOnly(a: int, count: nat, w: Width)
    requires -(Two(w) / 2) <= a < Two(w) / 2 && w <= count
    ensures a / Pow2(count) == if a < 0 then -1 else 0
  {
    TwoIsPow2(w);
    Pow2Grows(w, count);
    if a < 0 {
      FloorIs(a, Pow2(count), -1, a + Pow2(count));
    } else {
      FloorIs(a, Pow2(count), 0, a);
    }
  }
}
