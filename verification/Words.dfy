/** Machine words: 64 bits, of which a value of a width uses the lowest, and the signed reading of
    them.
  */
module Words {

  const TWO32: nat := 0x1_0000_0000
  const TWO64: nat := 0x1_0000_0000_0000_0000

  type Word = n: nat | n < TWO64

  /** A bool's one bit, and the integers'. */
  type Width = w: nat | w in {1, 8, 16, 32, 64} witness 64

  /** The width of each value of a function. */
  type Types = nat -> Width

  function Pow2(n: nat): (p: nat)
    ensures p > 0
  {
    if n == 0 then 1 else 2 * Pow2(n - 1)
  }

  function Two(w: Width): (p: nat)
    ensures 2 <= p <= TWO64
  {
    if w == 1 then 2 else if w == 8 then 0x100 else if w == 16 then 0x1_0000 else if w == 32 then TWO32 else TWO64
  }

  lemma TwoIsPow2(w: Width)
    ensures Two(w) == Pow2(w)
  {
    hide Pow2;
    Pow2OfByte();
    Pow2Sum(8, 8);
    Pow2Sum(16, 16);
    Pow2Sum(32, 32);
  }

  lemma Pow2OfByte()
    ensures Pow2(1) == 2 && Pow2(8) == 0x100
  {
    assert Pow2(4) == 16;
    Pow2Sum(4, 4);
  }

  lemma {:induction false} Pow2Sum(a: nat, b: nat)
    ensures Pow2(a + b) == Pow2(a) * Pow2(b)
    decreases a
  {
    if a > 0 {
      Pow2Sum(a - 1, b);
      DoubleProduct(Pow2(a - 1), Pow2(b));
    }
  }

  lemma DoubleProduct(one: nat, other: nat)
    ensures 2 * (one * other) == (2 * one) * other
  {
  }

  lemma {:induction false} Pow2Grows(a: nat, b: nat)
    requires a <= b
    ensures Pow2(a) <= Pow2(b)
    decreases b
  {
    if a < b {
      Pow2Grows(a, b - 1);
    }
  }

  // ----- Arithmetic on words -----

  function Sum(a: Word, b: Word): Word {
    (a + b) % TWO64
  }

  function Difference(a: Word, b: Word): Word {
    (a - b) % TWO64
  }

  function Product(a: Word, b: Word): Word {
    (a * b) % TWO64
  }

  /** The lowest bits. */
  function Mask(value: Word, w: Width): (masked: Word)
    ensures masked < Two(w) && masked <= value
  {
    value % Two(w)
  }

  /** A signed number, as a word. */
  function FromSigned(i: int): Word {
    i % TWO64
  }

  /** What a word is, read as signed. */
  function ToSigned(value: Word): (i: int)
    ensures -0x8000_0000_0000_0000 <= i < 0x8000_0000_0000_0000
  {
    if value < 0x8000_0000_0000_0000 then value else value - TWO64
  }

  /** Flipping the highest bit of a masked value. */
  function FlipTop(masked: Word, top: Word): Word {
    if masked >= top then masked - top else (masked + top) % TWO64
  }

  /** The sign extended: the highest bit flipped and taken away again. */
  function Widen(value: Word, w: Width): int {
    if w == 64 then ToSigned(value)
    else ToSigned(Difference(FlipTop(Mask(value, w), Two(w) / 2), Two(w) / 2))
  }

  /** What a value of a width is, read as signed. */
  function Signed(value: Word, w: Width): int {
    if value % Two(w) < Two(w) / 2 then value % Two(w) else value % Two(w) - Two(w)
  }

  lemma WidenIsSigned(value: Word, w: Width)
    ensures Widen(value, w) == Signed(value, w)
    ensures -(Two(w) / 2) <= Signed(value, w) < Two(w) / 2
  {
    if w == 64 {
      FloorIs(value, TWO64, 0, value);
    } else {
      FlippedTwice(value % Two(w), Two(w) / 2);
    }
  }

  /** The highest bit flipped and taken away is the sign. */
  lemma FlippedTwice(m: Word, top: Word)
    requires m < 2 * top <= TWO32
    ensures ToSigned(Difference(FlipTop(m, top), top)) == if m < top then m else m - 2 * top
  {
    if m >= top {
      FloorIs(m - 2 * top, TWO64, -1, m - 2 * top + TWO64);
    } else {
      FloorIs(m + top, TWO64, 0, m + top);
      FloorIs(m, TWO64, 0, m);
    }
  }

  /** A word's lowest bits are those of the number it was written from. */
  lemma LowBits(i: int, w: Width)
    ensures (i % TWO64) % Two(w) == i % Two(w)
  {
    var q, r := i / TWO64, i % TWO64;
    DivMod(i, TWO64);
    var k := if w == 1 then 0x8000_0000_0000_0000 else if w == 8 then 0x100_0000_0000_0000 else if w == 16 then 0x1_0000_0000_0000
             else if w == 32 then TWO32 else 1;
    assert TWO64 == k * Two(w);
    DivMod(r, Two(w));
    var p := q * k;
    assert q * TWO64 == p * Two(w);
    FloorIs(i, Two(w), p + r / Two(w), r % Two(w));
  }

  // ----- Division -----

  /** As C++ and the machine divide: toward zero. */
  function Quotient(a: int, b: int): int
    requires b != 0
  {
    if (a < 0) == (b < 0) then Absolute(a) / Absolute(b) else -(Absolute(a) / Absolute(b))
  }

  function Remainder(a: int, b: int): int
    requires b != 0
  {
    if a < 0 then -(Absolute(a) % Absolute(b)) else Absolute(a) % Absolute(b)
  }

  function Absolute(a: int): nat {
    if a < 0 then -a else a
  }

  /** Downward. */
  function Floor(a: int, b: int): int
    requires b != 0
  {
    if b > 0 then a / b else (-a) / (-b)
  }

  lemma DivMod(n: int, m: nat)
    requires m > 0
    ensures n == n / m * m + n % m && 0 <= n % m < m
  {
  }

  lemma TimesAtLeast(q: nat, n: nat)
    requires n >= 1
    ensures q * n >= q
  {
    var k := n - 1;
    assert q * n == q * k + q;
  }

  lemma TimesFar(k: int, m: nat)
    ensures k > 0 ==> k * m >= m
    ensures k < 0 ==> k * m <= -(m as int)
  {
    if k > 0 {
      var j := k - 1;
      assert k * m == j * m + m && j * m >= 0;
    }
    if k < 0 {
      var j := -k - 1;
      assert k * m == -(j * m) - m && j * m >= 0;
    }
  }

  lemma OnlyZeroTimes(k: int, m: nat, x: int)
    requires m > 0 && k * m == x && -(m as int) < x < m
    ensures k == 0 && x == 0
  {
    TimesFar(k, m);
  }

  /** What a quotient downward is. */
  lemma FloorIs(n: int, m: nat, q: int, r: int)
    requires m > 0 && n == q * m + r && 0 <= r < m
    ensures n / m == q && n % m == r
  {
    var d, e := n / m, n % m;
    DivMod(n, m);
    assert (q - d) * m == e - r;
    OnlyZeroTimes(q - d, m, e - r);
  }

  lemma QuotientIsLess(m: nat, n: nat)
    requires n > 0
    ensures 0 <= m / n <= m
  {
    var q := m / n;
    DivMod(m, n);
    TimesAtLeast(q, n);
  }

  lemma Divides(a: int, b: int)
    requires b != 0
    ensures a == Quotient(a, b) * b + Remainder(a, b) && Absolute(Remainder(a, b)) < Absolute(b)
    ensures Absolute(Quotient(a, b)) <= Absolute(a)
  {
    hide Quotient, Remainder, Absolute;
    AbsoluteOf(a);
    AbsoluteOf(b);
    AbsoluteOf(Quotient(a, b));
    AbsoluteOf(Remainder(a, b));
    var q, r := Unsigned(a, b);
    WithSigns(a, b, Absolute(a), Absolute(b), q, r, Quotient(a, b), Remainder(a, b));
  }

  lemma AbsoluteOf(a: int)
    ensures Absolute(a) == if a < 0 then -a else a
  {
  }

  lemma Unsigned(a: int, b: int) returns (q: int, r: int)
    requires b != 0
    ensures Absolute(a) == q * Absolute(b) + r && 0 <= r < Absolute(b) && 0 <= q <= Absolute(a)
    ensures Quotient(a, b) == (if (a < 0) == (b < 0) then q else -q) && Remainder(a, b) == (if a < 0 then -r else r)
  {
    q, r := Absolute(a) / Absolute(b), Absolute(a) % Absolute(b);
    DivMod(Absolute(a), Absolute(b));
    QuotientIsLess(Absolute(a), Absolute(b));
  }

  /** A division of the absolute values, with the signs put back. */
  lemma WithSigns(a: int, b: int, m: int, n: int, q: int, r: int, quotient: int, remainder: int)
    requires m == (if a < 0 then -a else a) && n == (if b < 0 then -b else b) && n > 0
    requires m == q * n + r && 0 <= r < n && 0 <= q <= m
    requires quotient == (if (a < 0) == (b < 0) then q else -q) && remainder == (if a < 0 then -r else r)
    ensures a == quotient * b + remainder && -n < remainder < n && -m <= quotient <= m
  {
    var p := q * n;
    assert q * (-n) == -p && (-q) * n == -p && (-q) * (-n) == p;
  }

  lemma RemainderSign(a: int, b: int)
    requires b != 0
    ensures Remainder(a, b) != 0 ==> ((Remainder(a, b) < 0) <==> a < 0)
    ensures var r, n := Remainder(a, b), if b < 0 then -b else b; -n < r < n
  {
  }

  /** The quotient rounded down is the truncated one, but one less where the division is not exact
      and the signs differ. */
  lemma FloorFromQuotient(a: int, b: int)
    requires b != 0
    ensures Floor(a, b) == if Remainder(a, b) != 0 && ((Remainder(a, b) < 0) != (b < 0)) then Quotient(a, b) - 1 else Quotient(a, b)
    ensures Remainder(a, b) != 0 ==> ((Remainder(a, b) < 0) <==> a < 0)
  {
    hide Quotient, Remainder, Absolute;
    Divides(a, b);
    RemainderSign(a, b);
    var q, r := Quotient(a, b), Remainder(a, b);
    var p := q * b;
    assert a == p + r;
    var apart := r != 0 && ((r < 0) != (b < 0));
    var lower := if apart then q - 1 else q;
    if b > 0 {
      assert lower * b == if apart then p - b else p;
      FloorIs(a, b, lower, if apart then r + b else r);
    } else {
      var m := -b;
      assert lower * m == if apart then -p - m else -p;
      FloorIs(-a, m, lower, if apart then -r + m else -r);
    }
  }
}
