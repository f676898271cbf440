/** 32-bit words as the interpreter stores them, and 64-bit values as pairs of words.
  * A word is kept unsigned (`u4`); the signed views are `i4` and `i8`.
  * A pair is little-endian: the low word has the lower address.
  */
module Words {

  const TWO_32: int := 0x1_0000_0000
  const TWO_64: int := 0x1_0000_0000_0000_0000

  type Byte = x: int | 0 <= x < 256
  type Word = x: int | 0 <= x < 0x1_0000_0000

  /** Truncation of a mathematical integer to `u4`. */
  function Wrap(i: int): Word { i % TWO_32 }

  /** `(i4) w` */
  function Signed(w: Word): int {
    if w < 0x8000_0000 then w else w - TWO_32
  }

  /** `(i1) b` and `(i2) h` */
  function SignedByte(b: Byte): int { if b < 128 then b else b - 256 }

  function SignedHalf(h: int): int
    requires 0 <= h < 65536
  {
    if h < 32768 then h else h - 65536
  }

  /** A 64-bit value as it lies in memory: `lo` at the lower address. */
  datatype Pair = Pair(lo: Word, hi: Word)

  /** `*((u8 *) p)` and `*((i8 *) p)` */
  function Unsigned64(p: Pair): int { p.lo + TWO_32 * p.hi }

  function Signed64(p: Pair): int {
    if p.hi < 0x8000_0000 then Unsigned64(p) else Unsigned64(p) - TWO_64
  }

  /** Stores a mathematical integer as an 8-byte value, truncated to 64 bits. */
  function ToPair(i: int): Pair {
    var u := i % TWO_64;
    assert 0 <= u / TWO_32 < TWO_32;
    Pair(u % TWO_32, u / TWO_32)
  }

  /** C's integer division: truncation towards zero. */
  function TruncDiv(a: int, b: int): int
    requires b != 0
  {
    if a >= 0 then (if b > 0 then a / b else -(a / -b))
    else (if b > 0 then -(-a / b) else -a / -b)
  }

  function Pow2(n: nat): (r: nat)
    ensures r >= 1
  {
    if n == 0 then 1 else 2 * Pow2(n - 1)
  }

  datatype Op = Add | Sub | Mul | Div | Rem | Shl | Shr | Ushr | And | Or | Xor

  predicate IsLogical(op: Op) { op == And || op == Or || op == Xor }

  /** `&`, `|` and `^` of the n lowest bits. */
  function Bitwise(op: Op, a: nat, b: nat, n: nat): (r: nat)
    requires IsLogical(op)
    ensures r < Pow2(n)
  {
    if n == 0 then 0 else
      var (x, y) := (a % 2 == 1, b % 2 == 1);
      var bit := match op case And => x && y case Or => x || y case _ => x != y;
      (if bit then 1 else 0) + 2 * Bitwise(op, a / 2, b / 2, n - 1)
  }

  function Logical(op: Op, a: Word, b: Word): Word
    requires IsLogical(op)
  {
    WordSize();
    Bitwise(op, a, b, 32)
  }

  lemma {:induction false} WordSize()
    ensures Pow2(32) == TWO_32
  {
    assert Pow2(8) == 256;
    assert Pow2(16) == 0x1_0000;
    assert Pow2(24) == 0x100_0000;
  }

  /** Why an arithmetic instruction stops the program. */
  datatype Trap = DivisionByZero | HardwareTrap

  datatype Checked<+T> = Value(value: T) | Trapped(trap: Trap)

  /** iadd .. ixor on `u4` cells (src/core.c:807-1006): `i4` arithmetic,
    * shifts by the low 5 bits, a zero test before dividing. The division of
    * the least integer by -1 overflows and raises a trap on the target machine.
    */
  function IntOp(op: Op, a: Word, b: Word): Checked<Word> {
    match op
    case Add => Value(Wrap(Signed(a) + Signed(b)))
    case Sub => Value(Wrap(Signed(a) - Signed(b)))
    case Mul => Value(Wrap(Signed(a) * Signed(b)))
    case Div =>
      if b == 0 then Trapped(DivisionByZero)
      else if DivOverflows(Signed(a), Signed(b), -0x8000_0000) then Trapped(HardwareTrap)
      else Value(Wrap(TruncDiv(Signed(a), Signed(b))))
    case Rem =>
      if b == 0 then Trapped(DivisionByZero)
      else if DivOverflows(Signed(a), Signed(b), -0x8000_0000) then Trapped(HardwareTrap)
      else Value(Wrap(Signed(a) - TruncDiv(Signed(a), Signed(b)) * Signed(b)))
    case Shl => Value(Wrap(a * Pow2(b % 32)))
    case Shr => Value(Wrap(Signed(a) / Pow2(b % 32)))
    case Ushr => Value(Wrap(a / Pow2(b % 32)))
    case And => Value(Logical(And, a, b))
    case Or => Value(Logical(Or, a, b))
    case Xor => Value(Logical(Xor, a, b))
  }

  predicate DivOverflows(a: int, b: int, least: int) { a == least && b == -1 }

  /** ladd .. lrem on 8-byte cells (src/core.c:811-907). Logical operations work
    * word by word, which is the same as on the 8 bytes at once.
    */
  function LongOp(op: Op, a: Pair, b: Pair): Checked<Pair>
    requires !IsShift(op)
  {
    match op
    case Add => Value(ToPair(Signed64(a) + Signed64(b)))
    case Sub => Value(ToPair(Signed64(a) - Signed64(b)))
    case Mul => Value(ToPair(Signed64(a) * Signed64(b)))
    case Div =>
      if Signed64(b) == 0 then Trapped(DivisionByZero)
      else if DivOverflows(Signed64(a), Signed64(b), -0x8000_0000_0000_0000) then Trapped(HardwareTrap)
      else Value(ToPair(TruncDiv(Signed64(a), Signed64(b))))
    case Rem =>
      if Signed64(b) == 0 then Trapped(DivisionByZero)
      else if DivOverflows(Signed64(a), Signed64(b), -0x8000_0000_0000_0000) then Trapped(HardwareTrap)
      else Value(ToPair(Signed64(a) - TruncDiv(Signed64(a), Signed64(b)) * Signed64(b)))
    case And => Value(Pair(Logical(And, a.lo, b.lo), Logical(And, a.hi, b.hi)))
    case Or => Value(Pair(Logical(Or, a.lo, b.lo), Logical(Or, a.hi, b.hi)))
    case Xor => Value(Pair(Logical(Xor, a.lo, b.lo), Logical(Xor, a.hi, b.hi)))
  }

  predicate IsShift(op: Op) { op == Shl || op == Shr || op == Ushr }

  /** lshl, lshr, lushr: the distance is one word, of which 6 bits count. */
  function LongShift(op: Op, a: Pair, d: Word): Pair
    requires IsShift(op)
  {
    match op
    case Shl => ToPair(Unsigned64(a) * Pow2(d % 64))
    case Shr => ToPair(Signed64(a) / Pow2(d % 64))
    case Ushr => ToPair(Unsigned64(a) / Pow2(d % 64))
  }

  /** i2l */
  function Widen(w: Word): Pair { ToPair(Signed(w)) }

  /** lcmp */
  function Compare(a: Pair, b: Pair): Word {
    if Signed64(a) > Signed64(b) then 1
    else if Signed64(a) < Signed64(b) then 0xFFFF_FFFF
    else 0
  }

  datatype Width = ToByte | ToChar | ToShort

  /** int2byte, int2char, int2short */
  function Narrow(k: Width, w: Word): Word {
    match k
    case ToByte => Wrap(SignedByte(w % 256))
    case ToChar => w % 65536
    case ToShort => Wrap(SignedHalf(w % 65536))
  }

  // ---------------------------------------------------------------- properties

  /** A pair holds every 64-bit value exactly once, signed or unsigned. */
  lemma {:induction false} PairRoundTrip(p: Pair)
    ensures ToPair(Unsigned64(p)) == p && ToPair(Signed64(p)) == p
    ensures -0x8000_0000_0000_0000 <= Signed64(p) < 0x8000_0000_0000_0000
  {
    assert 0 <= Unsigned64(p) < TWO_64;
    assert Unsigned64(p) % TWO_32 == p.lo && Unsigned64(p) / TWO_32 == p.hi;
    assert Signed64(p) % TWO_64 == Unsigned64(p);
  }

  /** Two's complement: ToPair(i) is the signed 64-bit value congruent to i, and the only one. */
  lemma {:induction false} ToPairCongruent(i: int)
    ensures (Signed64(ToPair(i)) - i) % TWO_64 == 0
    ensures forall p :: (Signed64(p) - i) % TWO_64 == 0 ==> p == ToPair(i)
  {
    var u := i % TWO_64;
    assert u == TWO_32 * (u / TWO_32) + u % TWO_32;
    assert Unsigned64(ToPair(i)) == u;
    assert i == TWO_64 * (i / TWO_64) + u;
    assert (u - i) == TWO_64 * -(i / TWO_64);
    assert (u - i) % TWO_64 == 0;
    forall p | (Signed64(p) - i) % TWO_64 == 0 ensures p == ToPair(i) {
      PairRoundTrip(p);
      CongruentMod(Signed64(p), i);
    }
  }

  lemma {:induction false} CongruentMod(a: int, b: int)
    requires (a - b) % TWO_64 == 0
    ensures a % TWO_64 == b % TWO_64
  {
    var q := (a - b) / TWO_64;
    assert a == b + TWO_64 * q;
    assert a == TWO_64 * (b / TWO_64 + q) + b % TWO_64;
  }

  /** l2i keeps the low 32 bits of the value, and undoes i2l. */
  lemma {:induction false} NarrowLong(p: Pair, w: Word)
    ensures p.lo == Wrap(Signed64(p))
    ensures Signed64(Widen(w)) == Signed(w) && Widen(w).lo == w
  {
    assert Unsigned64(p) % TWO_32 == p.lo;
    if w < 0x8000_0000 {
      assert ToPair(w) == Pair(w, 0);
    } else {
      var u := w - TWO_32 + TWO_64;
      assert (w - TWO_32) % TWO_64 == u;
      assert u == TWO_32 * 0xFFFF_FFFF + w;
      assert ToPair(w - TWO_32) == Pair(w, 0xFFFF_FFFF);
    }
  }

  lemma {:induction false} WrapSum(x: int, y: int, c: int)
    requires 0 <= x + y - TWO_32 * c < TWO_32
    ensures Wrap(x + y) == x + y - TWO_32 * c
  {
  }

  lemma {:induction false} IsMultiple(i: int, k: int)
    requires i == TWO_64 * k
    ensures i % TWO_64 == 0
  {
  }

  function Sign(p: Pair): int { if p.hi < 0x8000_0000 then 0 else 1 }

  /** ladd is schoolbook addition of the two words with a carry. */
  lemma {:induction false} AddCarries(a: Pair, b: Pair)
    ensures var carry := if a.lo + b.lo >= TWO_32 then 1 else 0;
            LongOp(Add, a, b) == Value(Pair(Wrap(a.lo + b.lo), Wrap(a.hi + b.hi + carry)))
  {
    var carry := if a.lo + b.lo >= TWO_32 then 1 else 0;
    var top := if a.hi + b.hi + carry >= TWO_32 then 1 else 0;
    var p := Pair(a.lo + b.lo - TWO_32 * carry, a.hi + b.hi + carry - TWO_32 * top);
    hide ToPair;
    WrapSum(a.lo, b.lo, carry);
    WrapSum(a.hi + carry, b.hi, top);
    IsMultiple(Signed64(p) - (Signed64(a) + Signed64(b)), Sign(a) + Sign(b) - Sign(p) - top);
    ToPairCongruent(Signed64(a) + Signed64(b));
  }

  /** lsub undoes ladd. */
  lemma {:induction false} SubUndoesAdd(a: Pair, b: Pair)
    ensures LongOp(Sub, LongOp(Add, a, b).value, b) == Value(a)
  {
    var sum := Signed64(a) + Signed64(b);
    var s := ToPair(sum);
    ToPairCongruent(sum);
    var i := Signed64(s) - Signed64(b);
    assert i - Signed64(a) == Signed64(s) - sum;
    CongruentMod(i, Signed64(a));
    PairRoundTrip(a);
  }

  /** Division and remainder as section 6.5 has them: of the least value by -1 they give that value and 0. */
  function JvmsDivision(op: Op, a: int, b: int): Checked<int>
    requires op == Div || op == Rem
  {
    if b == 0 then Trapped(DivisionByZero)
    else if op == Div then Value(TruncDiv(a, b)) else Value(a - TruncDiv(a, b) * b)
  }

  function AsWord(r: Checked<int>): Checked<Word> {
    match r case Value(i) => Value(Wrap(i)) case Trapped(t) => Trapped(t)
  }

  function AsPair(r: Checked<int>): Checked<Pair> {
    match r case Value(i) => Value(ToPair(i)) case Trapped(t) => Trapped(t)
  }

  /** The quotient is rounded towards zero: the remainder is smaller than the divisor and has the sign of the
    * dividend.
    */
  lemma {:induction false} QuotientTruncates(a: int, b: int)
    requires b != 0
    ensures var r := a - TruncDiv(a, b) * b;
            -Magnitude(b) < r < Magnitude(b) && (a >= 0 ==> r >= 0) && (a <= 0 ==> r <= 0)
  {
    var m: int, n: int := Magnitude(a), Magnitude(b);
    Euclid(m, n);
    var q := m / n;
    assert TruncDiv(a, b) == if (a >= 0) == (b > 0) then q else -q;
    Signs(q, n);
  }

  function Magnitude(i: int): (r: int)
    ensures r >= 0
  {
    if i < 0 then -i else i
  }

  lemma {:induction false} Euclid(m: int, n: int)
    requires m >= 0 && n > 0
    ensures 0 <= m - m / n * n < n
  {
  }

  lemma {:induction false} Signs(q: int, n: int)
    ensures (-q) * n == -(q * n) && q * (-n) == -(q * n) && (-q) * (-n) == q * n
  {
  }

  /** idiv and irem do what section 6.5 says except for the least value by -1, which traps. */
  lemma {:induction false} IntDivisionMeetsJvms(op: Op, a: Word, b: Word)
    requires op == Div || op == Rem
    ensures IntOp(op, a, b) == AsWord(JvmsDivision(op, Signed(a), Signed(b)))
            <==> !DivOverflows(Signed(a), Signed(b), -0x8000_0000)
  {
  }

  /** ldiv and lrem likewise. */
  lemma {:induction false} LongDivisionMeetsJvms(op: Op, a: Pair, b: Pair)
    requires op == Div || op == Rem
    ensures LongOp(op, a, b) == AsPair(JvmsDivision(op, Signed64(a), Signed64(b)))
            <==> !DivOverflows(Signed64(a), Signed64(b), -0x8000_0000_0000_0000)
  {
  }
}
