/** tableswitch and lookupswitch (src/core.c:1266-1332), exactly as they are coded, against
  * the encoding and the meaning that section 6.5 of the JVMS gives them.
  */
module Switches {
  import opened Words

  /** The memory that holds the code arrays: the program never writes it. */
  type Memory = int -> Byte

  /** n bytes read most significant first. */
  function BigEndian(code: Memory, a: int, n: nat): (r: nat)
    ensures n == 1 ==> r < 0x100
    ensures n == 2 ==> r < 0x1_0000
    ensures n == 3 ==> r < 0x100_0000
    ensures n == 4 ==> r < 0x1_0000_0000
  {
    if n == 0 then 0 else 256 * BigEndian(code, a, n - 1) + code(a + n - 1)
  }

  /** TWO_BYTE_INDEX and FOUR_BYTE_INDEX (src/core.c:160-165) */
  function TwoBytes(code: Memory, a: int): int { SignedHalf(BigEndian(code, a, 2)) }

  function FourBytes(code: Memory, a: int): int { Signed(BigEndian(code, a, 4)) }

  function AlignUp(a: int): (r: int)
    ensures a <= r < a + 4 && r % 4 == 0
  {
    (a + 3) / 4 * 4
  }

  /** The padding loop. */
  method SkipPadding(pc: int) returns (a: int)
    ensures a == AlignUp(pc)
  {
    a := pc;
    while a % 4 != 0
      invariant pc <= a <= AlignUp(pc)
      decreases AlignUp(pc) - a
    {
      a := a + 1;
    }
  }

  /** The new pc; `pc` is the address just after the opcode. Both end points are excluded. */
  function TableTarget(code: Memory, pc: int, key: int): int {
    var d := AlignUp(pc);
    var low, high := FourBytes(code, d + 4), FourBytes(code, d + 8);
    if low < key < high then pc + FourBytes(code, d + 12 + 4 * (key - low)) - 1
    else pc + FourBytes(code, d) - 1
  }

  /** The match key and the jump of the i-th pair of a lookupswitch whose default stands at d. */
  function KeyAt(code: Memory, d: int, i: int): int { FourBytes(code, d + 8 + 8 * i) }

  function JumpAt(code: Memory, d: int, i: int): int { FourBytes(code, d + 8 + 8 * i + 4) }

  function Keys(code: Memory, d: int, n: int): (keys: seq<int>)
    ensures |keys| == if n < 0 then 0 else n
    ensures forall i :: 0 <= i < n ==> keys[i] == KeyAt(code, d, i)
  {
    seq(if n < 0 then 0 else n, i => KeyAt(code, d, i))
  }

  function Middle(low: int, high: int): (m: int)
    requires low < high
    ensures low <= m < high
  {
    low + (high - low) / 2
  }

  datatype Hit = Miss | At(index: nat)

  /** The binary search: `high` is exclusive, yet moving left sets it to `middle - 1`. */
  function Search(keys: seq<int>, key: int, low: nat, high: int): (r: Hit)
    requires high <= |keys|
    ensures r.At? ==> low <= r.index < high && keys[r.index] == key
    decreases high - low
  {
    if low < high then
      var middle := Middle(low, high);
      if keys[middle] == key then At(middle)
      else if keys[middle] < key then Search(keys, key, middle + 1, high)
      else Search(keys, key, low, middle - 1)
    else Miss
  }

  /** The new pc of a lookupswitch whose default stands at d. */
  function LookupAt(code: Memory, d: int, pc: int, key: int): int {
    var n := FourBytes(code, d + 4);
    match Search(Keys(code, d, n), key, 0, n)
    case At(i) => pc + JumpAt(code, d, i) - 1
    case Miss => pc + FourBytes(code, d) - 1
  }

  /** The new pc; `pc` is the address just after the opcode. */
  function LookupTarget(code: Memory, pc: int, key: int): int { LookupAt(code, AlignUp(pc), pc, key) }

  method TableSwitch(code: Memory, pc: int, key: int) returns (target: int)
    ensures target == TableTarget(code, pc, key)
  {
    var d := SkipPadding(pc);
    var low, high := FourBytes(code, d + 4), FourBytes(code, d + 8);
    if low < key && key < high {
      target := pc + FourBytes(code, d + 12 + 4 * (key - low)) - 1;
    } else {
      target := pc + FourBytes(code, d) - 1;
    }
  }

  method LookupSwitch(code: Memory, pc: int, key: int) returns (target: int)
    ensures target == LookupTarget(code, pc, key)
  {
    var d := SkipPadding(pc);
    target := BinarySearch(code, d, pc, key);
  }

  method BinarySearch(code: Memory, d: int, pc: int, key: int) returns (target: int)
    ensures target == LookupAt(code, d, pc, key)
  {
    hide FourBytes;
    var low: nat, high := 0, FourBytes(code, d + 4);
    ghost var n, keys := high, Keys(code, d, high);
    while low < high
      invariant high <= |keys|
      invariant Search(keys, key, low, high) == Search(keys, key, 0, n)
      decreases high - low
    {
      var middle := Middle(low, high);
      if KeyAt(code, d, middle) == key {
        target := pc + JumpAt(code, d, middle) - 1;
        return;
      } else if KeyAt(code, d, middle) < key {
        low := middle + 1;
      } else {
        high := middle - 1;
      }
    }
    target := pc + FourBytes(code, d) - 1;
  }

  // ------------------------------------------- the binary search against the linear scan

  predicate Increasing(keys: seq<int>) {
    forall i, j :: 0 <= i < j < |keys| ==> keys[i] < keys[j]
  }

  /** The linear scan that the source keeps in a comment (src/core.c:1316-1327). */
  function Scan(keys: seq<int>, key: int, i: nat): (r: Hit)
    ensures r.At? ==> i <= r.index < |keys| && keys[r.index] == key
    ensures r.Miss? ==> forall j :: i <= j < |keys| ==> keys[j] != key
    decreases |keys| - i
  {
    if i >= |keys| then Miss
    else if keys[i] == key then At(i)
    else Scan(keys, key, i + 1)
  }

  /** Which positions between low and high the search can ever look at. */
  predicate Probed(k: nat, low: nat, high: int)
    decreases high - low
  {
    low < high &&
    var middle := Middle(low, high);
    if k == middle then true
    else if k > middle then Probed(k, middle + 1, high)
    else Probed(k, low, middle - 1)
  }

  /** Exactly when the search finds what the scan finds: the key's position is probed. */
  lemma {:induction false} SearchAgreesWithScan(keys: seq<int>, key: int)
    requires Increasing(keys)
    ensures var scan := Scan(keys, key, 0);
            Search(keys, key, 0, |keys|) == scan <==> scan.Miss? || Probed(scan.index, 0, |keys|)
  {
    var scan := Scan(keys, key, 0);
    if scan.At? {
      SearchFinds(keys, scan.index, 0, |keys|);
    }
  }

  lemma {:induction false} SearchFinds(keys: seq<int>, k: nat, low: nat, high: int)
    requires Increasing(keys) && k < |keys| && high <= |keys|
    ensures Search(keys, keys[k], low, high) == if Probed(k, low, high) then At(k) else Miss
    decreases high - low
  {
    if low < high {
      var middle := Middle(low, high);
      if k > middle {
        SearchFinds(keys, k, middle + 1, high);
      } else if k < middle {
        SearchFinds(keys, k, low, middle - 1);
      }
    }
  }

  /** The search is right for all tables of n pairs exactly when n is at most 1: with two or more
    * pairs the one just before the first pivot is never found.
    */
  lemma {:induction false} CompleteOnlyUpToOnePair(n: nat)
    ensures (forall k: nat :: k < n ==> Probed(k, 0, n)) <==> n <= 1
    ensures n >= 2 ==> !Probed(n / 2 - 1, 0, n)
  {
    if n >= 2 {
      var k: nat := n / 2 - 1;
      OutOfRange(k, 0, k);
      assert !Probed(k, 0, n);
    }
  }

  lemma {:induction false} OutOfRange(k: nat, low: nat, high: int)
    requires k < low || k >= high
    ensures !Probed(k, low, high)
    decreases high - low
  {
    if low < high {
      var middle := Middle(low, high);
      if k > middle { OutOfRange(k, middle + 1, high); }
      if k < middle { OutOfRange(k, low, middle - 1); }
    }
  }

  /** A missed pair is always followed by one that is found. */
  lemma {:induction false} MissesAreIsolated(k: nat, low: nat, high: int)
    requires low <= k < high && !Probed(k, low, high)
    ensures k + 1 < high && Probed(k + 1, low, high)
    decreases high - low
  {
    var middle := Middle(low, high);
    if k > middle {
      MissesAreIsolated(k, middle + 1, high);
    } else if k < middle - 1 {
      MissesAreIsolated(k, low, middle - 1);
    }
  }

  // --------------------------------------------------- section 6.5 of the JVMS

  /** Big-endian bytes of a signed 32-bit number. */
  function Be32(v: int): (r: seq<Byte>)
    ensures |r| == 4
  {
    var u: Word := Wrap(v);
    [u / 0x100_0000, u / 0x1_0000 % 256, u / 0x100 % 256, u % 256]
  }

  function BeAll(vs: seq<int>): (r: seq<Byte>)
    ensures |r| == 4 * |vs|
  {
    if vs == [] then [] else Be32(vs[0]) + BeAll(vs[1..])
  }

  predicate Located(code: Memory, a: int, bytes: seq<Byte>) {
    forall i :: 0 <= i < |bytes| ==> code(a + i) == bytes[i]
  }

  predicate IsInt(v: int) { -0x8000_0000 <= v < 0x8000_0000 }

  lemma {:induction false} ReadsInt(code: Memory, a: int, vs: seq<int>, k: nat)
    requires Located(code, a, BeAll(vs)) && k < |vs| && IsInt(vs[k])
    ensures FourBytes(code, a + 4 * k) == vs[k]
    decreases k
  {
    var bytes := BeAll(vs);
    if k == 0 {
      var u := Wrap(vs[0]);
      assert code(a) == bytes[0] && code(a + 1) == bytes[1] && code(a + 2) == bytes[2] && code(a + 3) == bytes[3];
      Digits(code, a, u);
      assert Signed(u) == vs[0];
    } else {
      forall i | 0 <= i < |BeAll(vs[1..])| ensures code(a + 4 + i) == BeAll(vs[1..])[i] {
        assert code(a + (4 + i)) == bytes[4 + i];
      }
      ReadsInt(code, a + 4, vs[1..], k - 1);
    }
  }

  lemma {:induction false} Digits(code: Memory, a: int, u: Word)
    requires code(a) == u / 0x100_0000 && code(a + 1) == u / 0x1_0000 % 256
    requires code(a + 2) == u / 0x100 % 256 && code(a + 3) == u % 256
    ensures BigEndian(code, a, 4) == u
  {
    assert BigEndian(code, a, 1) == u / 0x100_0000;
    assert BigEndian(code, a, 2) == u / 0x1_0000 by { assert u / 0x1_0000 / 256 == u / 0x100_0000; }
    assert BigEndian(code, a, 3) == u / 0x100 by { assert u / 0x100 / 256 == u / 0x1_0000; }
  }

  /** The operand bytes of a switch whose opcode is at `offset` in its method's code: 0 to 3
    * bytes bring the default to a multiple of four from the start of that code.
    */
  function Padding(offset: int): (r: seq<Byte>)
    ensures |r| == AlignUp(offset + 1) - (offset + 1)
  {
    seq(AlignUp(offset + 1) - (offset + 1), _ => 0)
  }

  function EncodeTable(offset: int, def: int, low: int, jumps: seq<int>): seq<Byte> {
    Padding(offset) + BeAll([def, low, low + |jumps| - 1] + jumps)
  }

  datatype Entry = Case(key: int, jump: int)

  function Flat(cases: seq<Entry>): (r: seq<int>)
    ensures |r| == 2 * |cases|
    ensures forall i :: 0 <= i < |cases| ==> r[2 * i] == cases[i].key && r[2 * i + 1] == cases[i].jump
  {
    if cases == [] then [] else
      var rest := Flat(cases[1..]);
      assert forall i :: 0 < i < |cases| ==> cases[i] == cases[1..][i - 1];
      assert forall i :: 0 < i < |cases| ==>
        rest[2 * (i - 1)] == cases[i].key && rest[2 * (i - 1) + 1] == cases[i].jump;
      [cases[0].key, cases[0].jump] + rest
  }

  function EncodeLookup(offset: int, def: int, cases: seq<Entry>): seq<Byte> {
    Padding(offset) + BeAll([def, |cases|] + Flat(cases))
  }

  /** The jump that section 6.5 prescribes. */
  function TableJump(def: int, low: int, jumps: seq<int>, key: int): int {
    if low <= key < low + |jumps| then jumps[key - low] else def
  }

  /** The padding loop works on the address, the encoding on the offset in the code array:
    * they agree exactly when the code array starts at a multiple of four.
    */
  lemma {:induction false} PaddingLands(start: int, offset: int)
    ensures AlignUp(start + offset + 1) == start + AlignUp(offset + 1) <==> start % 4 == 0
  {
    var k := AlignUp(offset + 1) / 4;
    assert AlignUp(offset + 1) == 4 * k;
    assert (start + 4 * k) % 4 == start % 4;
  }

  lemma {:induction false} Skip(code: Memory, a: int, pad: seq<Byte>, bytes: seq<Byte>)
    requires Located(code, a, pad + bytes)
    ensures Located(code, a + |pad|, bytes)
  {
    forall i | 0 <= i < |bytes| ensures code(a + |pad| + i) == bytes[i] {
      assert code(a + (|pad| + i)) == (pad + bytes)[|pad| + i];
    }
  }

  /** A tableswitch jumps where section 6.5 says, unless the key is one of the two end points
    * of the table and that entry differs from the default.
    */
  lemma {:induction false} TableSwitchMeetsJvms(code: Memory, start: int, offset: int, def: int, low: int,
                                                jumps: seq<int>, key: int)
    requires start % 4 == 0 && jumps != []
    requires IsInt(def) && IsInt(low) && IsInt(low + |jumps| - 1) && forall j :: j in jumps ==> IsInt(j)
    requires Located(code, start + offset + 1, EncodeTable(offset, def, low, jumps))
    ensures TableTarget(code, start + offset + 1, key) == start + offset + TableJump(def, low, jumps, key)
            <==> (key == low || key == low + |jumps| - 1 ==> jumps[key - low] == def)
  {
    var vs := [def, low, low + |jumps| - 1] + jumps;
    var d := AlignUp(start + offset + 1);
    PaddingLands(start, offset);
    Skip(code, start + offset + 1, Padding(offset), BeAll(vs));
    ReadsInt(code, d, vs, 0);
    ReadsInt(code, d, vs, 1);
    ReadsInt(code, d, vs, 2);
    if low < key < low + |jumps| - 1 {
      assert vs[3 + (key - low)] == jumps[key - low];
      ReadsInt(code, d, vs, 3 + (key - low));
    }
  }

  /** A lookupswitch jumps where section 6.5 says, unless the key's pair is not probed and its
    * jump differs from the default.
    */
  lemma {:induction false} LookupSwitchMeetsJvms(code: Memory, start: int, offset: int, def: int, cases: seq<Entry>,
                                                 key: int)
    requires start % 4 == 0 && IsInt(def) && IsInt(|cases|)
    requires forall i :: 0 <= i < |cases| ==> IsInt(cases[i].key) && IsInt(cases[i].jump)
    requires forall i, j :: 0 <= i < j < |cases| ==> cases[i].key < cases[j].key
    requires Located(code, start + offset + 1, EncodeLookup(offset, def, cases))
    ensures (forall i :: 0 <= i < |cases| ==> cases[i].key != key) ==>
              LookupTarget(code, start + offset + 1, key) == start + offset + def
    ensures forall i: nat :: i < |cases| && cases[i].key == key ==>
              (LookupTarget(code, start + offset + 1, key) == start + offset + cases[i].jump
               <==> Probed(i, 0, |cases|) || cases[i].jump == def)
  {
    var a := start + offset + 1;
    PaddingLands(start, offset);
    LookupReads(code, a, offset, def, cases);
    CasesFound(code, AlignUp(a), a, def, cases, key);
  }

  lemma {:induction false} CasesFound(code: Memory, d: int, pc: int, def: int, cases: seq<Entry>, key: int)
    requires forall i, j :: 0 <= i < j < |cases| ==> cases[i].key < cases[j].key
    requires Reads(code, d, def, cases)
    ensures (forall i :: 0 <= i < |cases| ==> cases[i].key != key) ==> LookupAt(code, d, pc, key) == pc - 1 + def
    ensures forall i: nat :: i < |cases| && cases[i].key == key ==>
              (LookupAt(code, d, pc, key) == pc - 1 + cases[i].jump <==> Probed(i, 0, |cases|) || cases[i].jump == def)
  {
    var keys := Keys(code, d, |cases|);
    SearchOfCases(keys, cases, key);
    forall i: nat | i < |cases| && cases[i].key == key
      ensures LookupAt(code, d, pc, key) == pc - 1 + cases[i].jump <==> Probed(i, 0, |cases|) || cases[i].jump == def
    {
      assert JumpAt(code, d, i) == cases[i].jump;
    }
  }

  predicate Reads(code: Memory, d: int, def: int, cases: seq<Entry>) {
    && FourBytes(code, d) == def && FourBytes(code, d + 4) == |cases|
    && forall i :: 0 <= i < |cases| ==>
         KeyAt(code, d, i) == cases[i].key && JumpAt(code, d, i) == cases[i].jump
  }

  lemma {:induction false} LookupReads(code: Memory, a: int, offset: int, def: int, cases: seq<Entry>)
    requires AlignUp(a) - a == |Padding(offset)| && IsInt(def) && IsInt(|cases|)
    requires forall i :: 0 <= i < |cases| ==> IsInt(cases[i].key) && IsInt(cases[i].jump)
    requires Located(code, a, EncodeLookup(offset, def, cases))
    ensures Reads(code, AlignUp(a), def, cases)
  {
    var vs := [def, |cases|] + Flat(cases);
    var d := AlignUp(a);
    Skip(code, a, Padding(offset), BeAll(vs));
    ReadsInt(code, d, vs, 0);
    ReadsInt(code, d, vs, 1);
    forall i | 0 <= i < |cases|
      ensures KeyAt(code, d, i) == cases[i].key && JumpAt(code, d, i) == cases[i].jump
    {
      ReadsInt(code, d, vs, 2 + 2 * i);
      ReadsInt(code, d, vs, 3 + 2 * i);
    }
  }

  lemma {:induction false} SearchOfCases(keys: seq<int>, cases: seq<Entry>, key: int)
    requires |keys| == |cases| && forall i :: 0 <= i < |cases| ==> keys[i] == cases[i].key
    requires forall i, j :: 0 <= i < j < |cases| ==> cases[i].key < cases[j].key
    ensures (forall i :: 0 <= i < |cases| ==> cases[i].key != key) ==> Search(keys, key, 0, |keys|) == Miss
    ensures forall i: nat :: i < |cases| && cases[i].key == key ==>
              Search(keys, key, 0, |keys|) == if Probed(i, 0, |cases|) then At(i) else Miss
  {
    forall i: nat | i < |cases| && cases[i].key == key
      ensures Search(keys, key, 0, |keys|) == if Probed(i, 0, |cases|) then At(i) else Miss
    {
      SearchFinds(keys, i, 0, |cases|);
    }
  }

  // ---------------------------------------------------------------- one case map, two encodings

  function Cases(low: int, jumps: seq<int>): seq<Entry> {
    seq(|jumps|, i requires 0 <= i < |jumps| => Case(low + i, jumps[i]))
  }

  /** Where each of the two switches really goes, as a distance from its opcode. */
  lemma {:induction false} TableGoes(code: Memory, start: int, offset: int, def: int, low: int, jumps: seq<int>,
                                     key: int)
    requires start % 4 == 0 && jumps != []
    requires IsInt(def) && IsInt(low) && IsInt(low + |jumps| - 1) && forall j :: j in jumps ==> IsInt(j)
    requires Located(code, start + offset + 1, EncodeTable(offset, def, low, jumps))
    ensures TableTarget(code, start + offset + 1, key) - (start + offset) ==
            if 0 < key - low < |jumps| - 1 then jumps[key - low] else def
  {
    var vs := [def, low, low + |jumps| - 1] + jumps;
    PaddingLands(start, offset);
    Skip(code, start + offset + 1, Padding(offset), BeAll(vs));
    var d := AlignUp(start + offset + 1);
    ReadsInt(code, d, vs, 0);
    ReadsInt(code, d, vs, 1);
    ReadsInt(code, d, vs, 2);
    if 0 < key - low < |jumps| - 1 {
      assert vs[3 + (key - low)] == jumps[key - low];
      ReadsInt(code, d, vs, 3 + (key - low));
    }
  }

  lemma {:induction false} LookupGoes(code: Memory, start: int, offset: int, def: int, low: int, jumps: seq<int>,
                                      key: int)
    requires start % 4 == 0 && IsInt(|jumps|)
    requires IsInt(def) && IsInt(low) && IsInt(low + |jumps| - 1) && forall j :: j in jumps ==> IsInt(j)
    requires Located(code, start + offset + 1, EncodeLookup(offset, def, Cases(low, jumps)))
    ensures LookupTarget(code, start + offset + 1, key) - (start + offset) ==
            if 0 <= key - low < |jumps| && Probed(key - low, 0, |jumps|) then jumps[key - low] else def
  {
    hide FourBytes, EncodeLookup, Probed;
    var a, cases := start + offset + 1, Cases(low, jumps);
    PaddingLands(start, offset);
    LookupReads(code, a, offset, def, cases);
    var d := AlignUp(a);
    SearchOfCases(Keys(code, d, |cases|), cases, key);
    if 0 <= key - low < |jumps| {
      assert cases[key - low].key == key && JumpAt(code, d, key - low) == jumps[key - low];
    } else {
      assert forall i :: 0 <= i < |cases| ==> cases[i].key != key;
    }
  }

  /** A tableswitch and a lookupswitch that encode the same case map go the same distance, except for a key
    * that just one of them misses and that does not jump to the default anyway.
    */
  lemma {:induction false} SwitchesAgree(table: Memory, lookup: Memory, start: int, offset: int, begin: int, at: int,
                                         def: int, low: int, jumps: seq<int>, key: int)
    requires start % 4 == 0 && begin % 4 == 0 && jumps != [] && IsInt(|jumps|)
    requires IsInt(def) && IsInt(low) && IsInt(low + |jumps| - 1) && forall j :: j in jumps ==> IsInt(j)
    requires Located(table, start + offset + 1, EncodeTable(offset, def, low, jumps))
    requires Located(lookup, begin + at + 1, EncodeLookup(at, def, Cases(low, jumps)))
    ensures TableTarget(table, start + offset + 1, key) - (start + offset) ==
            LookupTarget(lookup, begin + at + 1, key) - (begin + at)
            <==> var k := key - low;
                 0 <= k < |jumps| ==> jumps[k] == def || (0 < k < |jumps| - 1 <==> Probed(k, 0, |jumps|))
  {
    TableGoes(table, start, offset, def, low, jumps, key);
    LookupGoes(lookup, begin, at, def, low, jumps, key);
  }
}
