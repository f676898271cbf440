/** Arrays on the heap: a length and a block of bytes (src/core.c:155-158), the element accesses
  * of src/core.c:480-756 and the allocation of src/core.c:1532-1583.
  */
module ArrayHeap {
  import opened Words

  datatype Arr = Arr(length: Word, data: seq<Byte>)

  /** A `width`-byte little-endian number in a block. */
  function Load(data: seq<Byte>, at: nat, width: nat): nat
    requires at + width <= |data|
    decreases width
  {
    if width == 0 then 0 else data[at] + 256 * Load(data, at + 1, width - 1)
  }

  function Store(data: seq<Byte>, at: nat, width: nat, v: nat): (r: seq<Byte>)
    requires at + width <= |data|
    ensures |r| == |data|
    decreases width
  {
    if width == 0 then data else Store(data[at := v % 256], at + 1, width - 1, v / 256)
  }

  function Power256(width: nat): (r: nat)
    ensures r > 0
  {
    if width == 0 then 1 else 256 * Power256(width - 1)
  }

  /** The eight element types of newarray and the bytes the code gives each element. */
  datatype Element = Boolean | Char | Float | Double | Byte8 | Short | Int | Long

  function SizeOf(t: Element): nat {
    match t
    case Boolean => 1 case Char => 1 case Float => 4 case Double => 8
    case Byte8 => 1 case Short => 2 case Int => 4 case Long => 8
  }

  function ElementOf(code: Byte): (t: seq<Element>)
    ensures |t| <= 1
  {
    if code == 4 then [Boolean] else if code == 5 then [Char] else if code == 6 then [Float]
    else if code == 7 then [Double] else if code == 8 then [Byte8] else if code == 9 then [Short]
    else if code == 10 then [Int] else if code == 11 then [Long] else []
  }

  function NewArray(length: Word, t: Element): Arr {
    Arr(length, seq(length * SizeOf(t), _ => 0))
  }

  /** The one test before an access: both operands are unsigned. */
  predicate InBounds(index: Word, length: Word) { index < length }

  /** The block holds the element, so that the access is no stray one. */
  predicate Holds(a: Arr, index: Word, width: nat) { index * width + width <= |a.data| }

  function LoadWord(a: Arr, index: Word, width: nat): (w: Word)
    requires Holds(a, index, width) && (width == 1 || width == 2 || width == 4)
  {
    LoadBound(a.data, index * width, width);
    Load(a.data, index * width, width)
  }

  function StoreWord(a: Arr, index: Word, width: nat, w: Word): Arr
    requires Holds(a, index, width)
  {
    a.(data := Store(a.data, index * width, width, w))
  }

  function LoadPair(a: Arr, index: Word): Pair
    requires Holds(a, index, 8)
  {
    var (lo, hi) := PairAt(a.data, index * 8);
    Pair(lo, hi)
  }

  function StorePair(a: Arr, index: Word, p: Pair): Arr
    requires Holds(a, index, 8)
  {
    a.(data := Store(Store(a.data, index * 8, 4, p.lo), index * 8 + 4, 4, p.hi))
  }

  // ---------------------------------------------------------------- properties

  lemma {:induction false} LoadBound(data: seq<Byte>, at: nat, width: nat)
    requires at + width <= |data|
    ensures Load(data, at, width) < Power256(width)
    ensures Power256(1) == 256 && Power256(2) == 65536 && Power256(4) == TWO_32
    decreases width
  {
    if width > 0 { LoadBound(data, at + 1, width - 1); }
    assert Power256(3) == 0x100_0000;
  }

  /** A store changes only the bytes of its own element. */
  lemma {:induction false} StoreFrame(data: seq<Byte>, at: nat, width: nat, v: nat)
    requires at + width <= |data|
    ensures forall i :: 0 <= i < |data| && !(at <= i < at + width) ==> Store(data, at, width, v)[i] == data[i]
    decreases width
  {
    if width > 0 { StoreFrame(data[at := v % 256], at + 1, width - 1, v / 256); }
  }

  lemma {:induction false} LoadDepends(d: seq<Byte>, e: seq<Byte>, at: nat, width: nat)
    requires at + width <= |d| == |e| && forall i :: at <= i < at + width ==> d[i] == e[i]
    ensures Load(d, at, width) == Load(e, at, width)
    decreases width
  {
    if width > 0 { LoadDepends(d, e, at + 1, width - 1); }
  }

  lemma {:induction false} LoadAfterStore(data: seq<Byte>, at: nat, width: nat, v: nat)
    requires at + width <= |data|
    ensures Load(Store(data, at, width, v), at, width) == v % Power256(width)
    decreases width
  {
    if width > 0 {
      var d := data[at := v % 256];
      StoreFrame(d, at + 1, width - 1, v / 256);
      LoadAfterStore(d, at + 1, width - 1, v / 256);
      SplitModulo(v, Power256(width - 1));
    } else {
      assert v % 1 == 0;
    }
  }

  lemma {:induction false} SplitModulo(v: nat, m: nat)
    requires m > 0
    ensures v % (256 * m) == v % 256 + 256 * (v / 256 % m)
  {
    var q := v / 256 / m;
    var r := v % 256 + 256 * (v / 256 % m);
    assert v / 256 == m * q + v / 256 % m;
    assert v == (256 * m) * q + r;
    assert 0 <= r < 256 * m;
    RemainderUnique(v, 256 * m, q, r);
  }

  lemma {:induction false} RemainderUnique(v: int, m: int, q: int, r: int)
    requires m > 0 && v == m * q + r && 0 <= r < m
    ensures v % m == r
  {
    var k := v / m - q;
    assert m * k == r - v % m by { assert v == m * (v / m) + v % m; }
    AtLeastOne(m, k);
  }

  lemma {:induction false} AtLeastOne(m: int, k: int)
    requires m > 0
    ensures (k >= 1 ==> m * k >= m) && (k <= -1 ==> m * k <= -m)
  {
  }

  /** An element read back after a store at the same index is the value cut to the width; every
    * other element of the same width reads as before.
    */
  lemma {:induction false} WordElements(a: Arr, i: Word, j: Word, width: nat, w: Word)
    requires (width == 1 || width == 2 || width == 4) && Holds(a, i, width) && Holds(a, j, width)
    ensures LoadWord(StoreWord(a, i, width, w), i, width) == w % Power256(width)
    ensures j != i ==> LoadWord(StoreWord(a, i, width, w), j, width) == LoadWord(a, j, width)
  {
    LoadAfterStore(a.data, i * width, width, w);
    StoreFrame(a.data, i * width, width, w);
    if j != i {
      LoadDepends(a.data, StoreWord(a, i, width, w).data, j * width, width);
    }
  }

  function PairAt(data: seq<Byte>, at: nat): (Word, Word)
    requires at + 8 <= |data|
  {
    LoadBound(data, at, 4);
    LoadBound(data, at + 4, 4);
    (Load(data, at, 4), Load(data, at + 4, 4))
  }

  lemma {:induction false} PairSame(data: seq<Byte>, at: nat, p: Pair)
    requires at + 8 <= |data|
    ensures PairAt(Store(Store(data, at, 4, p.lo), at + 4, 4, p.hi), at) == (p.lo, p.hi)
  {
    var d := Store(data, at, 4, p.lo);
    LoadBound(data, at, 4);
    LoadAfterStore(data, at, 4, p.lo);
    LoadAfterStore(d, at + 4, 4, p.hi);
    StoreFrame(d, at + 4, 4, p.hi);
    LoadDepends(d, Store(d, at + 4, 4, p.hi), at, 4);
  }

  lemma {:induction false} PairOther(data: seq<Byte>, at: nat, other: nat, p: Pair)
    requires at + 8 <= |data| && other + 8 <= |data| && (other + 8 <= at || at + 8 <= other)
    ensures PairAt(Store(Store(data, at, 4, p.lo), at + 4, 4, p.hi), other) == PairAt(data, other)
  {
    var d := Store(data, at, 4, p.lo);
    var e := Store(d, at + 4, 4, p.hi);
    StoreFrame(data, at, 4, p.lo);
    StoreFrame(d, at + 4, 4, p.hi);
    LoadDepends(data, e, other, 4);
    LoadDepends(data, e, other + 4, 4);
  }

  /** The same for the 8-byte elements, which keep all their bits. */
  lemma {:induction false} PairElements(a: Arr, i: Word, j: Word, p: Pair)
    requires Holds(a, i, 8) && Holds(a, j, 8)
    ensures LoadPair(StorePair(a, i, p), i) == p
    ensures j != i ==> LoadPair(StorePair(a, i, p), j) == LoadPair(a, j)
  {
    PairSame(a.data, i * 8, p);
    if j != i { PairOther(a.data, i * 8, j * 8, p); }
  }

  /** What section 6.5 of the JVMS reads back after storing w in an array of type t; bastore and baload
    * treat boolean arrays like byte arrays.
    */
  function JvmsElement(t: Element, w: Word): Word {
    match t
    case Boolean => Narrow(ToByte, w)
    case Byte8 => Narrow(ToByte, w)
    case Char => Narrow(ToChar, w)
    case Short => Narrow(ToShort, w)
    case Int => w
    case Float => w
    case Double => w
    case Long => w
  }

  /** Store then load agrees with section 6.5 for int and float always, for boolean, byte and short exactly
    * when the stored part is not negative (the loads extend with zeros), and for char exactly
    * when it fits the one byte the code gives it.
    */
  lemma {:induction false} ElementMeetsJvms(a: Arr, i: Word, t: Element, w: Word)
    requires SizeOf(t) != 8 && Holds(a, i, SizeOf(t))
    ensures LoadWord(StoreWord(a, i, SizeOf(t), w), i, SizeOf(t)) == JvmsElement(t, w) <==>
            match t
            case Boolean => w % 256 < 128
            case Byte8 => w % 256 < 128
            case Short => w % 65536 < 32768
            case Char => w % 65536 < 256
            case _ => true
  {
    WordElements(a, i, i, SizeOf(t), w);
    LoadBound([], 0, 0);
    NarrowAgrees(w);
  }

  lemma {:induction false} NarrowAgrees(w: Word)
    ensures w % 256 == Narrow(ToByte, w) <==> w % 256 < 128
    ensures w % 65536 == Narrow(ToShort, w) <==> w % 65536 < 32768
    ensures w % 256 == Narrow(ToChar, w) <==> w % 65536 < 256
  {
    assert w % 65536 % 256 == w % 256;
  }

  /** The single unsigned comparison accepts exactly the indices between 0 and the length, both read
    * as signed numbers, if and only if the length is below 2^31. newarray never refuses a
    * length of 2^31 or more, because its test for a negative number looks at an unsigned one.
    */
  lemma {:induction false} OneComparisonDecidesBoth(length: Word)
    ensures (forall i: Word :: InBounds(i, length) <==> 0 <= Signed(i) < Signed(length)) <==> length < 0x8000_0000
  {
    if length >= 0x8000_0000 {
      assert InBounds(0, length) && !(0 <= Signed(0) < Signed(length));
    }
  }

  /** A fresh array holds each of its elements, all zero. */
  lemma {:induction false} FreshArray(length: Word, t: Element, i: Word)
    requires InBounds(i, length)
    ensures Holds(NewArray(length, t), i, SizeOf(t))
    ensures SizeOf(t) != 8 ==> LoadWord(NewArray(length, t), i, SizeOf(t)) == 0
    ensures SizeOf(t) == 8 ==> LoadPair(NewArray(length, t), i) == Pair(0, 0)
  {
    var a := NewArray(length, t);
    assert i * SizeOf(t) + SizeOf(t) <= length * SizeOf(t);
    if SizeOf(t) == 8 {
      LoadZero(a.data, i * 8, 4);
      LoadZero(a.data, i * 8 + 4, 4);
    } else {
      LoadZero(a.data, i * SizeOf(t), SizeOf(t));
    }
  }

  lemma {:induction false} LoadZero(data: seq<Byte>, at: nat, width: nat)
    requires at + width <= |data| && forall i :: at <= i < at + width ==> data[i] == 0
    ensures Load(data, at, width) == 0
    decreases width
  {
    if width > 0 { LoadZero(data, at + 1, width - 1); }
  }
}
