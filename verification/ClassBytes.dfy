/** The class file byte by byte: what the reference parser makes of tags, lengths and offsets (sections 4.1, 4.4, 4.5
  * and 4.7 of the JVMS).
  */
module ClassBytes {
  import opened Words
  import opened Wrappers
  import opened ClassFormat
  import opened Parsing
  import Signature

  function H(b: seq<Byte>, at: nat): Half
    requires at + 2 <= |b|
  {
    Two(b[at], b[at + 1])
  }

  function Two(high: int, low: int): int { 0x100 * high + low }

  function W(b: seq<Byte>, at: nat): Word
    requires at + 4 <= |b|
  {
    0x1_0000 * Two(b[at], b[at + 1]) + Two(b[at + 2], b[at + 3])
  }

  lemma {:induction false} Numbers(b: seq<Byte>, at: nat)
    ensures U1(b, at) == if at + 1 <= |b| then Ok(b[at]) else Err(EndOfFile)
    ensures U2(b, at) == if at + 2 <= |b| then Ok(H(b, at)) else Err(EndOfFile)
    ensures U4(b, at) == if at + 4 <= |b| then Ok(W(b, at)) else Err(EndOfFile)
  {
  }

  /** The constants by their tag (JVMS 4.4): the number of bytes, and what is in them. */
  lemma {:induction false} ConstantTags(b: seq<Byte>, at: nat)
    requires at + 9 <= |b|
    ensures var c := ReadConstant(b, at);
            && (b[at] == 3 ==> c == Ok((Integer(W(b, at + 1)), at + 5)))
            && (b[at] == 4 ==> c == Ok((Float(W(b, at + 1)), at + 5)))
            && (b[at] == 5 ==> c == Ok((Long(Pair(W(b, at + 5), W(b, at + 1))), at + 9)))
            && (b[at] == 6 ==> c == Ok((Double(Pair(W(b, at + 5), W(b, at + 1))), at + 9)))
            && (b[at] == 7 ==> c == Ok((ClassRef(H(b, at + 1)), at + 3)))
            && (b[at] == 8 ==> c == Ok((StringRef(H(b, at + 1)), at + 3)))
            && (b[at] == 9 ==> c == Ok((FieldRef(H(b, at + 1), H(b, at + 3)), at + 5)))
            && (b[at] == 10 ==> c == Ok((MethodRef(H(b, at + 1), H(b, at + 3)), at + 5)))
            && (b[at] == 11 ==> c == Ok((InterfaceMethodRef(H(b, at + 1), H(b, at + 3)), at + 5)))
            && (b[at] == 12 ==> c == Ok((NameAndType(H(b, at + 1), H(b, at + 3)), at + 5)))
            && (b[at] == 2 ==> c == Err(UnicodeConstant))
            && (b[at] == 0 || b[at] > 12 ==> c == Err(BadConstantTag(b[at])))
  {
    hide U1, U2, U4, Bytes, W, H;
    Numbers(b, at);
    Numbers(b, at + 1);
    Numbers(b, at + 3);
    Numbers(b, at + 5);
  }

  lemma {:induction false} TextOf(bytes: seq<Byte>)
    requires 0 !in bytes
    ensures |CText(bytes)| == |bytes| && forall i :: 0 <= i < |bytes| ==> CText(bytes)[i] as int == bytes[i]
  {
    if bytes != [] { TextOf(bytes[1..]); }
  }

  /** A Utf8 constant: its length in two bytes and its characters in one each, none of them zero. */
  lemma {:induction false} Utf8Bytes(b: seq<Byte>, at: nat, text: string)
    requires at + 3 <= |b| && b[at] == 1 && |text| == H(b, at + 1) && at + 3 + |text| <= |b|
    requires forall i :: 0 <= i < |text| ==> 0 < text[i] as int == b[at + 3 + i]
    ensures ReadConstant(b, at) == Ok((Utf8(text), at + 3 + |text|))
  {
    hide U2, H;
    Numbers(b, at + 1);
    var bytes := b[at + 3..at + 3 + |text|];
    assert forall i :: 0 <= i < |bytes| ==> bytes[i] == b[at + 3 + i] == text[i] as int != 0;
    TextOf(bytes);
    assert CText(bytes) == text;
    if text == "" { assert bytes == []; }
  }

  /** A long or a double takes the next index too, for which nothing is read; no other constant does. */
  lemma {:induction false} TakesTwoIndices(b: seq<Byte>, at: nat, n: nat)
    requires at < |b| && ReadConstant(b, at).Ok?
    ensures var (c, next) := ReadConstant(b, at).value;
            && (b[at] == 5 || b[at] == 6 ==>
                  ReadConstants(b, at, false, n + 2)
                  == PrependFlagged([c], PrependFlagged([Unused], ReadConstants(b, next, false, n))))
            && (b[at] != 5 && b[at] != 6 ==>
                  ReadConstants(b, at, false, n + 1) == PrependFlagged([c], ReadConstants(b, next, false, n)))
  {
    hide U2, U4, Bytes, CText;
    var (c, next) := ReadConstant(b, at).value;
    if b[at] == 5 || b[at] == 6 {
      assert ReadConstants(b, next, true, n + 1) == PrependFlagged([Unused], ReadConstants(b, next, false, n));
    }
  }

  /** Four bytes are determined by the number they make. */
  lemma {:induction false} SameNumber(b: seq<Byte>, x: seq<Byte>)
    requires |b| >= 4 && |x| == 4
    ensures W(b, 0) == W(x, 0) <==> b[..4] == x
  {
    SameDigits(Two(b[0], b[1]), Two(b[2], b[3]), Two(x[0], x[1]), Two(x[2], x[3]), 0x1_0000);
    SameDigits(b[0], b[1], x[0], x[1], 0x100);
    SameDigits(b[2], b[3], x[2], x[3], 0x100);
  }

  lemma {:induction false} SameDigits(a: int, b: int, c: int, d: int, m: int)
    requires (m == 0x100 || m == 0x1_0000) && 0 <= b < m && 0 <= d < m
    ensures m * a + b == m * c + d <==> a == c && b == d
  {
  }

  /** The head: 0xCAFEBABE, in either byte order, and the two versions. */
  lemma {:induction false} HeadBytes(b: seq<Byte>)
    requires |b| >= 8
    ensures ReadHead(b) ==
            if b[..4] == [0xCA, 0xFE, 0xBA, 0xBE] || b[..4] == [0xBE, 0xBA, 0xFE, 0xCA]
            then Ok((H(b, 4), H(b, 6))) else Err(BadMagic)
  {
    hide U2, U4, H;
    Numbers(b, 0);
    Numbers(b, 4);
    Numbers(b, 6);
    SameNumber(b, [0xCA, 0xFE, 0xBA, 0xBE]);
    SameNumber(b, [0xBE, 0xBA, 0xFE, 0xCA]);
  }

  /** Attributes by name: ConstantValue has an index, Code a table of its own, and everything else is skipped by
    * its length.
    */
  lemma {:induction false} AttributeBytes(b: seq<Byte>, at: nat, cp: seq<Constant>)
    requires at + 6 <= |b| && H(b, at) < |cp| && cp[H(b, at)].Utf8?
    ensures var a, name, length, text := ReadAttribute(b, at, cp), H(b, at), W(b, at + 2), cp[H(b, at)].text;
            && (text == "ConstantValue" && at + 8 <= |b| ==>
                  a == Ok((ConstantValue(name, length, H(b, at + 6)), at + 8)))
            && (text != "ConstantValue" && text != "Code" && length < 0x8000_0000 ==>
                  a == Ok((Other(name, length, []), at + 6 + length)))
            && (text == "Code" && a.Ok? ==>
                  && a.value.0.Code? && at + 14 <= |b|
                  && a.value.0.maxStack == H(b, at + 6) && a.value.0.maxLocals == H(b, at + 8)
                  && |a.value.0.code| == W(b, at + 10)
                  && (forall i :: 0 <= i < W(b, at + 10) ==>
                        at + 14 + i < |b| && a.value.0.code[i] == b[at + 14 + i])
                  && at + 14 + W(b, at + 10) + 2 <= |b|
                  && a.value.0.handlers == H(b, at + 14 + W(b, at + 10))
                  && var table := at + 16 + W(b, at + 10) + 8 * H(b, at + 14 + W(b, at + 10));
                     && table + 2 <= |b| && |a.value.0.attributes| == H(b, table))
  {
    hide U2, U4, H, W, ReadCode;
    Numbers(b, at);
    Numbers(b, at + 2);
    Numbers(b, at + 6);
    var name, length := H(b, at), W(b, at + 2);
    if cp[name].text == "Code" && ReadAttribute(b, at, cp).Ok? { CodeBytes(b, at + 6, cp, name, length); }
  }

  lemma {:induction false} CodeBytes(b: seq<Byte>, at: nat, cp: seq<Constant>, name: Half, length: Word)
    requires ReadCode(b, at, cp, name, length).Ok?
    ensures var a := ReadCode(b, at, cp, name, length).value.0;
            && a.Code? && at + 8 <= |b| && a.maxStack == H(b, at) && a.maxLocals == H(b, at + 2)
            && |a.code| == W(b, at + 4)
            && (forall i :: 0 <= i < W(b, at + 4) ==> at + 8 + i < |b| && a.code[i] == b[at + 8 + i])
            && at + 8 + W(b, at + 4) + 2 <= |b| && a.handlers == H(b, at + 8 + W(b, at + 4))
            && var table := at + 10 + W(b, at + 4) + 8 * H(b, at + 8 + W(b, at + 4));
               table + 2 <= |b| && |a.attributes| == H(b, table)
  {
    hide U2, U4, H, W, ReadAttributes;
    Numbers(b, at);
    Numbers(b, at + 2);
    Numbers(b, at + 4);
    var end := at + 8 + W(b, at + 4);
    Numbers(b, end);
    var table := end + 2 + 8 * H(b, end);
    Numbers(b, table);
    AsMany(b, table + 2, cp, H(b, table));
  }

  lemma {:induction false} AsMany(b: seq<Byte>, at: nat, cp: seq<Constant>, n: nat)
    requires ReadAttributes(b, at, cp, n).Ok?
    ensures |ReadAttributes(b, at, cp, n).value.0| == n
    decreases n
  {
    hide ReadAttribute;
    if n > 0 { AsMany(b, ReadAttribute(b, at, cp).value.1, cp, n - 1); }
  }

  /** Fields and methods: flags, the index of the name, the index of the descriptor, the number of attributes. */
  lemma {:induction false} MemberBytes(b: seq<Byte>, at: nat, cp: seq<Constant>)
    ensures var f := ReadField(b, at, cp);
            f.Ok? ==>
              && at + 8 <= |b| && f.value.0.access == H(b, at) && |f.value.0.attributes| == H(b, at + 6)
              && H(b, at + 2) < |cp| && cp[H(b, at + 2)] == Utf8(f.value.0.name)
              && H(b, at + 4) < |cp| && cp[H(b, at + 4)] == Utf8(f.value.0.signature)
    ensures var m := ReadMethod(b, at, cp);
            m.Ok? ==>
              && at + 8 <= |b| && m.value.0.access == H(b, at) && |m.value.0.attributes| == H(b, at + 6)
              && H(b, at + 2) < |cp| && cp[H(b, at + 2)] == Utf8(m.value.0.name)
              && H(b, at + 4) < |cp| && cp[H(b, at + 4)] == Utf8(m.value.0.signature)
              && Signature.Nargs(m.value.0.signature) == Signature.Count(m.value.0.nargs)
  {
    hide U2, H, ReadAttributes;
    Numbers(b, at);
    Numbers(b, at + 2);
    Numbers(b, at + 4);
    Numbers(b, at + 6);
    if at + 8 <= |b| && ReadAttributes(b, at + 8, cp, H(b, at + 6)).Ok? { AsMany(b, at + 8, cp, H(b, at + 6)); }
  }

  /** The class: what lies behind the pool. */
  lemma {:induction false} ClassIndices(b: seq<Byte>, skip: bool)
    requires ReadFile(b, skip).Ok?
    ensures var (c, end, flag) := ReadFile(b, skip).value;
            var p := ReadPool(b, 8, skip).value.1;
            && p + 8 <= |b| && c.access == H(b, p) && c.thisClass == H(b, p + 2) && c.superClass == H(b, p + 4)
            && |c.tables.interfaces| == H(b, p + 6)
            && c.thisClass < |c.cp| && c.cp[c.thisClass].ClassRef? && c.cp[c.thisClass].nameIndex < |c.cp|
            && c.cp[c.cp[c.thisClass].nameIndex] == Utf8(c.name)
  {
    hide U2, H, ReadPool, ReadHead, ReadAllFields, ReadAllMethods, ReadAttributes;
    var p := ReadPool(b, 8, skip).value.1;
    Numbers(b, p);
    Numbers(b, p + 2);
    Numbers(b, p + 4);
    Numbers(b, p + 6);
    ManyItems(HalvesOf(b), p + 8, H(b, p + 6));
  }

  lemma {:induction false} ManyItems<T>(read: nat -> Read<T>, at: nat, n: nat)
    ensures Many(read, at, n).Ok? ==> |Many(read, at, n).value.0| == n
    decreases n
  {
    if n > 0 && read(at).Ok? { ManyItems(read, read(at).value.1, n - 1); }
  }
}
