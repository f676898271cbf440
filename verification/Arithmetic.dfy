/** Laws of the integer instructions (src/core.c:807-1058): what they compute, without the formulas that
  * compute it. Words has those of ladd, lsub, division and the conversions.
  */
module Arithmetic {
  import opened Words

  // ---- Congruences ----

  lemma {:induction false} SameModulo(x: int, y: int, k: int, m: int)
    requires m > 0 && x == y + m * k
    ensures x % m == y % m
  {
    var q := y / m;
    Multiply(m, q, k);
    RemainderIs(x, m, q + k, y % m);
  }

  lemma {:induction false} Multiply(m: int, q: int, k: int)
    ensures m * (q + k) == m * q + m * k
  {
  }

  lemma {:induction false} RemainderIs(x: int, m: int, q: int, r: int)
    requires m > 0 && 0 <= r < m && x == m * q + r
    ensures x / m == q && x % m == r
  {
    var d := x / m - q;
    assert m * d == r - x % m by { Multiply(m, x / m, -q); }
    if d >= 1 { AtLeast(m, d); } else if d <= -1 { AtLeast(m, -d); }
  }

  lemma {:induction false} AtLeast(m: int, d: int)
    requires m > 0 && d >= 1
    ensures m * d >= m
  {
  }

  /** What the sign bit takes off the value of a word, in units of 2^32. */
  function Minus(w: Word): int { if w < 0x8000_0000 then 0 else 1 }

  lemma {:induction false} ProductModulo(a: int, b: int, s: int, t: int, m: int)
    requires m > 0
    ensures ((a - m * s) * (b - m * t)) % m == (a * b) % m
  {
    var k := m * (s * t) - a * t - b * s;
    assert (a - m * s) * (b - m * t) == a * b + m * k;
    SameModulo((a - m * s) * (b - m * t), a * b, k, m);
  }

  // ---- int ----

  /** iadd is addition modulo 2^32. */
  lemma {:induction false} IntSum(a: Word, b: Word)
    ensures IntOp(Add, a, b) == Value((a + b) % 0x1_0000_0000)
  {
    SameModulo(Signed(a) + Signed(b), a + b, -Minus(a) - Minus(b), 0x1_0000_0000);
  }

  /** isub undoes iadd. */
  lemma {:induction false} IntSubUndoesAdd(a: Word, b: Word)
    ensures IntOp(Sub, (a + b) % 0x1_0000_0000, b) == Value(a)
  {
    var s: Word := (a + b) % 0x1_0000_0000;
    SameModulo(Signed(s) - Signed(b), a, Minus(b) - Minus(s) - (a + b) / 0x1_0000_0000, 0x1_0000_0000);
  }

  /** It is subtraction modulo 2^32. */
  lemma {:induction false} IntDifference(a: Word, b: Word)
    ensures IntOp(Sub, a, b) == Value((a - b) % 0x1_0000_0000)
  {
    SameModulo(Signed(a) - Signed(b), a - b, Minus(b) - Minus(a), 0x1_0000_0000);
  }

  /** imul multiplies modulo 2^32, whether its operands are read as signed or as unsigned. */
  lemma {:induction false} IntProduct(a: Word, b: Word)
    ensures IntOp(Mul, a, b) == Value((a * b) % 0x1_0000_0000)
  {
    ProductModulo(a, b, Minus(a), Minus(b), 0x1_0000_0000);
  }

  // ---- Shifts of a number ----

  /** Dividing by twice a number is dividing by it and halving. */
  lemma {:induction false} HalfOfQuotient(x: int, q: int)
    requires q > 0
    ensures x / (2 * q) == x / q / 2
  {
    var h := x / q;
    Multiply(q, 2 * (h / 2), h % 2);
    assert q * (2 * (h / 2)) == 2 * q * (h / 2);
    assert h % 2 == 0 || h % 2 == 1;
    RemainderIs(x, 2 * q, h / 2, q * (h % 2) + x % q);
  }

  /** Doubling after taking a remainder. */
  lemma {:induction false} DoubleModulo(x: int, m: int)
    requires m > 0
    ensures (2 * x) % m == (2 * (x % m)) % m
  {
    Multiply(m, x / m, x / m);
    SameModulo(2 * x, 2 * (x % m), 2 * (x / m), m);
  }

  lemma {:induction false} Floor(x: int, q: int)
    requires q > 0
    ensures x / q * q <= x < (x / q + 1) * q
    ensures x >= 0 ==> 0 <= x / q <= x
    ensures x < 0 ==> x <= x / q < 0
  {
    if x < 0 && x / q >= 0 { AtMost(0, x / q, q); }
    if x < 0 && x / q < x { AtMost(x / q + 1, x, q); AtMost(1, q, -x); }
    if x >= 0 && x / q < 0 { AtMost(x / q + 1, 0, q); }
    if x >= 0 && x / q > x { AtMost(x + 1, x / q, q); AtMost(1, q, x + 1); }
  }

  lemma {:induction false} AtMost(a: int, b: int, q: int)
    requires a <= b && q >= 0
    ensures a * q <= b * q
  {
  }

  lemma {:induction false} NextPower(n: nat)
    ensures Pow2(n + 1) == 2 * Pow2(n)
  {
  }

  /** ishl: only five bits of the distance count, distance 0 changes nothing, and one more doubles modulo 2^32. */
  lemma {:induction false} IntShiftLeft(a: Word, d: Word, e: Word)
    ensures IntOp(Shl, a, d).Value?
    ensures d % 32 == 0 ==> IntOp(Shl, a, d) == Value(a)
    ensures d % 32 == e % 32 ==> IntOp(Shl, a, d) == IntOp(Shl, a, e)
    ensures d % 32 + 1 == e % 32 ==> IntOp(Shl, a, e) == Value(2 * IntOp(Shl, a, d).value % 0x1_0000_0000)
  {
    var q := Pow2(d % 32);
    NextPower(d % 32);
    assert a * (2 * q) == 2 * (a * q);
    DoubleModulo(a * q, 0x1_0000_0000);
  }

  /** The value of a word that fits is itself. */
  lemma {:induction false} SignedOfWrap(i: int)
    requires -0x8000_0000 <= i < 0x8000_0000
    ensures Signed(Wrap(i)) == i
  {
  }

  lemma {:induction false} NothingShifted(a: Word)
    ensures Pow2(0) == 1
    ensures forall d: Word :: d % 32 == 0 ==> IntOp(Shr, a, d) == Value(a) && IntOp(Ushr, a, d) == Value(a)
  {
  }

  lemma {:induction false} OneValue(v: Word, w: Word)
    requires Signed(v) == Signed(w)
    ensures v == w
  {
  }

  lemma {:induction false} ShrIs(a: Word, d: Word)
    ensures IntOp(Shr, a, d).Value? && Signed(IntOp(Shr, a, d).value) == Signed(a) / Pow2(d % 32)
  {
    hide Pow2;
    Floor(Signed(a), Pow2(d % 32));
    SignedOfWrap(Signed(a) / Pow2(d % 32));
  }

  lemma {:induction false} UshrIs(a: Word, d: Word)
    ensures IntOp(Ushr, a, d) == Value(a / Pow2(d % 32))
  {
    hide Pow2;
    Floor(a, Pow2(d % 32));
    WrapOfSmall(a / Pow2(d % 32));
  }

  lemma {:induction false} WrapOfSmall(i: int)
    requires 0 <= i < 0x1_0000_0000
    ensures Wrap(i) == i
  {
  }

  /** ishr: the floor of the signed value by a power of two; five bits of the distance count. */
  lemma {:induction false} IntShiftRight(a: Word, d: Word, e: Word)
    ensures IntOp(Shr, a, d).Value?
    ensures d % 32 == 0 ==> IntOp(Shr, a, d) == Value(a)
    ensures d % 32 == e % 32 ==> IntOp(Shr, a, d) == IntOp(Shr, a, e)
    ensures d % 32 + 1 == e % 32 ==> Signed(IntOp(Shr, a, e).value) == Signed(IntOp(Shr, a, d).value) / 2
    ensures var r, q := Signed(IntOp(Shr, a, d).value), Pow2(d % 32); r * q <= Signed(a) < (r + 1) * q
  {
    hide IntOp, Signed, Pow2;
    var x, q := Signed(a), Pow2(d % 32);
    NothingShifted(a);
    ShrIs(a, d);
    ShrIs(a, e);
    Floor(x, q);
    if d % 32 + 1 == e % 32 {
      NextPower(d % 32);
      HalfOfQuotient(x, q);
    }
    if d % 32 == e % 32 { OneValue(IntOp(Shr, a, d).value, IntOp(Shr, a, e).value); }
  }

  /** iushr: the same for the unsigned value. */
  lemma {:induction false} IntShiftUnsigned(a: Word, d: Word, e: Word)
    ensures IntOp(Ushr, a, d).Value?
    ensures d % 32 == 0 ==> IntOp(Ushr, a, d) == Value(a)
    ensures d % 32 == e % 32 ==> IntOp(Ushr, a, d) == IntOp(Ushr, a, e)
    ensures d % 32 + 1 == e % 32 ==> IntOp(Ushr, a, e).value == IntOp(Ushr, a, d).value / 2
    ensures var r, q := IntOp(Ushr, a, d).value, Pow2(d % 32); r * q <= a < (r + 1) * q
  {
    hide IntOp, Pow2;
    var q := Pow2(d % 32);
    NothingShifted(a);
    UshrIs(a, d);
    UshrIs(a, e);
    Floor(a, q);
    if d % 32 + 1 == e % 32 {
      NextPower(d % 32);
      HalfOfQuotient(a, q);
    }
  }

  // ---- Bits ----

  predicate Bit(w: nat, k: nat) { if k == 0 then w % 2 == 1 else Bit(w / 2, k - 1) }

  lemma {:induction false} BitOfBitwise(op: Op, a: nat, b: nat, n: nat, k: nat)
    requires IsLogical(op) && k < n
    ensures Bit(Bitwise(op, a, b, n), k) <==>
            (match op
             case And => Bit(a, k) && Bit(b, k)
             case Or => Bit(a, k) || Bit(b, k)
             case _ => Bit(a, k) != Bit(b, k))
    decreases k
  {
    assert Bitwise(op, a, b, n) / 2 == Bitwise(op, a / 2, b / 2, n - 1);
    if k > 0 { BitOfBitwise(op, a / 2, b / 2, n - 1, k - 1); }
  }

  /** iand, ior and ixor, bit by bit. */
  lemma {:induction false} IntBits(a: Word, b: Word, k: nat)
    requires k < 32
    ensures IntOp(And, a, b).Value? && IntOp(Or, a, b).Value? && IntOp(Xor, a, b).Value?
    ensures Bit(IntOp(And, a, b).value, k) <==> Bit(a, k) && Bit(b, k)
    ensures Bit(IntOp(Or, a, b).value, k) <==> Bit(a, k) || Bit(b, k)
    ensures Bit(IntOp(Xor, a, b).value, k) <==> Bit(a, k) != Bit(b, k)
  {
    BitOfBitwise(And, a, b, 32, k);
    BitOfBitwise(Or, a, b, 32, k);
    BitOfBitwise(Xor, a, b, 32, k);
  }

  // ---- long ----

  /** The value of the pair is the one stored, modulo 2^64. */
  lemma {:induction false} PairOf(i: int)
    ensures Unsigned64(ToPair(i)) == i % 0x1_0000_0000_0000_0000
  {
    var u := i % TWO_64;
    assert u == TWO_32 * (u / TWO_32) + u % TWO_32;
  }

  /** lmul multiplies modulo 2^64, signed or unsigned. */
  lemma {:induction false} LongProduct(a: Pair, b: Pair)
    ensures LongOp(Mul, a, b).Value?
    ensures Unsigned64(LongOp(Mul, a, b).value) == Unsigned64(a) * Unsigned64(b) % 0x1_0000_0000_0000_0000
  {
    PairOf(Signed64(a) * Signed64(b));
    ProductModulo(Unsigned64(a), Unsigned64(b), Sign(a), Sign(b), TWO_64);
  }

  lemma {:induction false} SignedOfPair(i: int)
    requires -0x8000_0000_0000_0000 <= i < 0x8000_0000_0000_0000
    ensures Signed64(ToPair(i)) == i
  {
    PairOf(i);
    var p := ToPair(i);
    assert p.hi >= 0x8000_0000 <==> Unsigned64(p) >= 0x8000_0000_0000_0000;
  }

  /** lshl: six bits of the distance count; one more doubles modulo 2^64. */
  lemma {:induction false} LongShiftLeft(a: Pair, d: Word, e: Word)
    ensures d % 64 == 0 ==> LongShift(Shl, a, d) == a
    ensures d % 64 == e % 64 ==> LongShift(Shl, a, d) == LongShift(Shl, a, e)
    ensures d % 64 + 1 == e % 64 ==>
              Unsigned64(LongShift(Shl, a, e)) == 2 * Unsigned64(LongShift(Shl, a, d)) % 0x1_0000_0000_0000_0000
  {
    var x, q := Unsigned64(a), Pow2(d % 64);
    NextPower(d % 64);
    assert x * (2 * q) == 2 * (x * q);
    PairRoundTrip(a);
    PairOf(x * q);
    PairOf(2 * (x * q));
    DoubleModulo(x * q, TWO_64);
  }

  /** lshr: the floor of the signed value by a power of two. */
  lemma {:induction false} LongShiftRight(a: Pair, d: Word, e: Word)
    ensures d % 64 == 0 ==> LongShift(Shr, a, d) == a
    ensures d % 64 == e % 64 ==> LongShift(Shr, a, d) == LongShift(Shr, a, e)
    ensures d % 64 + 1 == e % 64 ==> Signed64(LongShift(Shr, a, e)) == Signed64(LongShift(Shr, a, d)) / 2
    ensures var r, q := Signed64(LongShift(Shr, a, d)), Pow2(d % 64); r * q <= Signed64(a) < (r + 1) * q
  {
    hide ToPair, Signed64, Unsigned64;
    var x, q := Signed64(a), Pow2(d % 64);
    PairRoundTrip(a);
    Floor(x, q);
    SignedOfPair(x / q);
    if d % 64 + 1 == e % 64 {
      NextPower(d % 64);
      HalfOfQuotient(x, q);
      Floor(x, 2 * q);
      SignedOfPair(x / (2 * q));
    }
  }

  /** lushr: the same for the unsigned value. */
  lemma {:induction false} LongShiftUnsigned(a: Pair, d: Word, e: Word)
    ensures d % 64 == 0 ==> LongShift(Ushr, a, d) == a
    ensures d % 64 == e % 64 ==> LongShift(Ushr, a, d) == LongShift(Ushr, a, e)
    ensures d % 64 + 1 == e % 64 ==> Unsigned64(LongShift(Ushr, a, e)) == Unsigned64(LongShift(Ushr, a, d)) / 2
    ensures var r, q := Unsigned64(LongShift(Ushr, a, d)), Pow2(d % 64); r * q <= Unsigned64(a) < (r + 1) * q
  {
    hide ToPair, Signed64, Unsigned64;
    var x, q := Unsigned64(a), Pow2(d % 64);
    Within64(a);
    PairRoundTrip(a);
    Floor(x, q);
    SmallModulo(x / q);
    PairOf(x / q);
    if d % 64 + 1 == e % 64 {
      NextPower(d % 64);
      HalfOfQuotient(x, q);
      Floor(x, 2 * q);
      SmallModulo(x / (2 * q));
      PairOf(x / (2 * q));
    }
  }

  lemma {:induction false} SmallModulo(i: int)
    requires 0 <= i < 0x1_0000_0000_0000_0000
    ensures i % 0x1_0000_0000_0000_0000 == i
  {
  }

  lemma {:induction false} Within64(p: Pair)
    ensures 0 <= Unsigned64(p) < 0x1_0000_0000_0000_0000
  {
  }

  /** land, lor and lxor, bit by bit of both words. */
  lemma {:induction false} LongBits(a: Pair, b: Pair, k: nat)
    requires k < 32
    ensures LongOp(And, a, b).Value? && LongOp(Or, a, b).Value? && LongOp(Xor, a, b).Value?
    ensures Bit(LongOp(And, a, b).value.lo, k) <==> Bit(a.lo, k) && Bit(b.lo, k)
    ensures Bit(LongOp(And, a, b).value.hi, k) <==> Bit(a.hi, k) && Bit(b.hi, k)
    ensures Bit(LongOp(Or, a, b).value.lo, k) <==> Bit(a.lo, k) || Bit(b.lo, k)
    ensures Bit(LongOp(Or, a, b).value.hi, k) <==> Bit(a.hi, k) || Bit(b.hi, k)
    ensures Bit(LongOp(Xor, a, b).value.lo, k) <==> Bit(a.lo, k) != Bit(b.lo, k)
    ensures Bit(LongOp(Xor, a, b).value.hi, k) <==> Bit(a.hi, k) != Bit(b.hi, k)
  {
    IntBits(a.lo, b.lo, k);
    IntBits(a.hi, b.hi, k);
  }

  /** lcmp: -1, 0 or 1, by the order of the two 64-bit values. */
  lemma {:induction false} CompareOrders(a: Pair, b: Pair)
    ensures Signed64(a) < Signed64(b) <==> Compare(a, b) == 0xFFFF_FFFF
    ensures Signed64(a) == Signed64(b) <==> Compare(a, b) == 0
    ensures Signed64(a) > Signed64(b) <==> Compare(a, b) == 1
  {
  }
}
