/** Parsing undoes encoding. */
module ParseEncode {
  import opened Words
  import opened Switches
  import opened Wrappers
  import opened ClassFormat
  import opened Parsing
  import Signature

  /** The bytes stand in the file from this position on. */
  ghost predicate At(file: seq<Byte>, pos: nat, bytes: seq<Byte>) {
    pos + |bytes| <= |file| && forall i :: 0 <= i < |bytes| ==> file[pos + i] == bytes[i]
  }

  lemma {:induction false} AtSplit(file: seq<Byte>, pos: nat, a: seq<Byte>, b: seq<Byte>)
    requires At(file, pos, a + b)
    ensures At(file, pos, a) && At(file, pos + |a|, b)
  {
    forall i | 0 <= i < |a| ensures file[pos + i] == a[i] { assert (a + b)[i] == a[i]; }
    forall i | 0 <= i < |b| ensures file[pos + |a| + i] == b[i] { assert (a + b)[|a| + i] == b[i]; }
  }

  lemma {:induction false} ReadsU2(file: seq<Byte>, pos: nat, h: Half)
    requires At(file, pos, Be16(h))
    ensures U2(file, pos) == Ok(h)
  {
    assert Be16(h)[0] == h / 256 && Be16(h)[1] == h % 256;
  }

  lemma {:induction false} ReadsU1(file: seq<Byte>, pos: nat, b: Byte)
    requires At(file, pos, [b])
    ensures U1(file, pos) == Ok(b)
  {
    assert [b][0] == b;
  }

  lemma {:induction false} ReadsU4(file: seq<Byte>, pos: nat, w: Word)
    requires At(file, pos, Be32(w))
    ensures U4(file, pos) == Ok(w)
  {
    var b := Be32(w);
    Digits32(w, b);
    assert file[pos] == b[0] && file[pos + 1] == b[1] && file[pos + 2] == b[2] && file[pos + 3] == b[3];
  }

  lemma {:induction false} Digits32(w: Word, b: seq<Byte>)
    requires b == Be32(w)
    ensures |b| == 4 && 0x1_0000 * Join(b[0], b[1]) + Join(b[2], b[3]) == w
  {
    assert Wrap(w) == w;
    assert w / 0x1_0000 / 256 == w / 0x100_0000;
    assert w / 0x100 / 256 == w / 0x1_0000;
  }

  lemma {:induction false} TextBack(t: string)
    requires Plain(t)
    ensures CText(Ascii(t)) == t
  {
    if t != "" {
      TextBack(t[1..]);
      assert Ascii(t)[1..] == Ascii(t[1..]);
    }
  }

  lemma {:induction false} BytesBack(file: seq<Byte>, pos: nat, bytes: seq<Byte>)
    requires At(file, pos, bytes)
    ensures Bytes(file, pos, |bytes|) == Ok(bytes)
  {
    assert bytes != [] ==> file[pos..pos + |bytes|] == bytes;
  }

  // ---- Constants ----

  lemma {:induction false} HalfBack(file: seq<Byte>, pos: nat, tag: Byte, h: Half)
    requires At(file, pos, [tag] + Be16(h))
    ensures U1(file, pos) == Ok(tag) && U2(file, pos + 1) == Ok(h)
  {
    AtSplit(file, pos, [tag], Be16(h));
    ReadsU1(file, pos, tag); ReadsU2(file, pos + 1, h);
  }

  lemma {:induction false} WordBack(file: seq<Byte>, pos: nat, tag: Byte, w: Word)
    requires At(file, pos, [tag] + Be32(w))
    ensures U1(file, pos) == Ok(tag) && U4(file, pos + 1) == Ok(w)
  {
    AtSplit(file, pos, [tag], Be32(w));
    ReadsU1(file, pos, tag); ReadsU4(file, pos + 1, w);
  }

  lemma {:induction false} PairBack(file: seq<Byte>, pos: nat, tag: Byte, a: Half, b: Half)
    requires At(file, pos, [tag] + Be16(a) + Be16(b))
    ensures U1(file, pos) == Ok(tag) && U2(file, pos + 1) == Ok(a) && U2(file, pos + 3) == Ok(b)
  {
    AtSplit(file, pos, [tag] + Be16(a), Be16(b));
    AtSplit(file, pos, [tag], Be16(a));
    ReadsU1(file, pos, tag); ReadsU2(file, pos + 1, a); ReadsU2(file, pos + 3, b);
  }

  lemma {:induction false} WideBack(file: seq<Byte>, pos: nat, tag: Byte, p: Pair)
    requires At(file, pos, [tag] + Be32(p.hi) + Be32(p.lo))
    ensures U1(file, pos) == Ok(tag) && U4(file, pos + 1) == Ok(p.hi) && U4(file, pos + 5) == Ok(p.lo)
  {
    AtSplit(file, pos, [tag] + Be32(p.hi), Be32(p.lo));
    AtSplit(file, pos, [tag], Be32(p.hi));
    ReadsU1(file, pos, tag); ReadsU4(file, pos + 1, p.hi); ReadsU4(file, pos + 5, p.lo);
  }

  lemma {:induction false} Utf8Back(file: seq<Byte>, pos: nat, t: string)
    requires Plain(t) && |t| < 0x1_0000 && At(file, pos, [1] + Be16(|t|) + Ascii(t))
    ensures ReadConstant(file, pos) == Ok((Utf8(t), pos + 3 + |t|))
  {
    AtSplit(file, pos, [1] + Be16(|t|), Ascii(t));
    AtSplit(file, pos, [1], Be16(|t|));
    ReadsU1(file, pos, 1); ReadsU2(file, pos + 1, |t|);
    BytesBack(file, pos + 3, Ascii(t));
    TextBack(t);
  }

  lemma {:induction false} ConstantBack(file: seq<Byte>, pos: nat, c: Constant)
    requires WellFormedConstant(c) && At(file, pos, EncodeConstant(c))
    ensures ReadConstant(file, pos) == Ok((c, pos + |EncodeConstant(c)|))
  {
    match c
    case Utf8(t) => Utf8Back(file, pos, t);
    case Integer(w) => WordBack(file, pos, 3, w);
    case Float(w) => WordBack(file, pos, 4, w);
    case Long(p) => WideBack(file, pos, 5, p);
    case Double(p) => WideBack(file, pos, 6, p);
    case ClassRef(n) => HalfBack(file, pos, 7, n);
    case StringRef(s) => HalfBack(file, pos, 8, s);
    case FieldRef(k, m) => PairBack(file, pos, 9, k, m);
    case MethodRef(k, m) => PairBack(file, pos, 10, k, m);
    case InterfaceMethodRef(k, m) => PairBack(file, pos, 11, k, m);
    case NameAndType(n, s) => PairBack(file, pos, 12, n, s);
  }

  /** Wherever these bytes stand, reading gives this item and goes to their end. */
  ghost predicate Restores<T(!new)>(read: nat -> Read<T>, file: seq<Byte>, bytes: seq<Byte>, item: T) {
    forall p: nat {:trigger At(file, p, bytes)} :: At(file, p, bytes) ==> read(p) == Ok((item, p + |bytes|))
  }

  lemma {:induction false} EntriesStep(read: nat -> Read<Constant>, pos: nat, cs: seq<Constant>, p: nat, end: nat)
    requires cs != [] && read(pos) == Ok((cs[0], p))
    requires Entries(read, p, false, |Indexed(cs[1..])|) == Ok((Indexed(cs[1..]), end, false))
    ensures Entries(read, pos, false, |Indexed(cs)|) == Ok((Indexed(cs), end, false))
  {
    var c, rest := cs[0], Indexed(cs[1..]);
    if IsWide(c) {
      assert Entries(read, p, true, |rest| + 1) == PrependFlagged([Unused], Entries(read, p, false, |rest|));
      assert Indexed(cs) == [c] + ([Unused] + rest);
    } else {
      assert Indexed(cs) == [c] + rest;
    }
  }

  /** Whatever reads each constant back reads the whole pool back, and leaves the flag clear. */
  lemma {:induction false} EntriesBack(read: nat -> Read<Constant>, file: seq<Byte>, pos: nat, parts: seq<seq<Byte>>,
                                       cs: seq<Constant>)
    requires |parts| == |cs| && At(file, pos, Concat(parts))
    requires forall i :: 0 <= i < |cs| ==> Restores(read, file, parts[i], cs[i])
    ensures Entries(read, pos, false, |Indexed(cs)|) == Ok((Indexed(cs), pos + |Concat(parts)|, false))
    decreases |cs|
  {
    if cs != [] {
      var p := pos + |parts[0]|;
      AtSplit(file, pos, parts[0], Concat(parts[1..]));
      EntriesBack(read, file, p, parts[1..], cs[1..]);
      EntriesStep(read, pos, cs, p, p + |Concat(parts[1..])|);
    }
  }

  /** Whatever reads each item back reads a whole table of them back. */
  lemma {:induction false} ManyBack<T(!new)>(read: nat -> Read<T>, file: seq<Byte>, pos: nat, parts: seq<seq<Byte>>,
                                      items: seq<T>)
    requires |parts| == |items| && At(file, pos, Concat(parts))
    requires forall i :: 0 <= i < |items| ==> Restores(read, file, parts[i], items[i])
    ensures Many(read, pos, |items|) == Ok((items, pos + |Concat(parts)|))
    decreases |items|
  {
    if items != [] {
      var p := pos + |parts[0]|;
      AtSplit(file, pos, parts[0], Concat(parts[1..]));
      ManyBack(read, file, p, parts[1..], items[1..]);
      assert items == [items[0]] + items[1..];
    }
  }

  lemma {:induction false} ConstantRestores(file: seq<Byte>, c: Constant)
    requires WellFormedConstant(c)
    ensures Restores(ConstantsOf(file), file, EncodeConstant(c), c)
  {
    forall p: nat | At(file, p, EncodeConstant(c)) ensures ConstantsOf(file)(p) == Ok((c, p + |EncodeConstant(c)|)) {
      ConstantBack(file, p, c);
    }
  }

  lemma {:induction false} ConstantsBack(file: seq<Byte>, pos: nat, cs: seq<Constant>)
    requires WellFormedConstants(cs) && At(file, pos, Concat(ConstantParts(cs)))
    ensures ReadConstants(file, pos, false, |Indexed(cs)|) ==
            Ok((Indexed(cs), pos + |Concat(ConstantParts(cs))|, false))
  {
    forall i | 0 <= i < |cs| ensures Restores(ConstantsOf(file), file, ConstantParts(cs)[i], cs[i]) {
      ConstantRestores(file, cs[i]);
    }
    EntriesBack(ConstantsOf(file), file, pos, ConstantParts(cs), cs);
  }

  // ---- Attributes ----

  /** What the parser keeps of an attribute. */
  function Erase(a: Attribute): Attribute
    decreases a
  {
    match a
    case ConstantValue(_, _, _) => a
    case Code(n, length, stack, locals, code, handlers, _, atts) => Code(n, length, stack, locals, code, handlers, [],
      EraseAll(atts))
    case Other(n, length, _) => Other(n, length, [])
  }

  function EraseAll(atts: seq<Attribute>): (r: seq<Attribute>)
    ensures |r| == |atts|
    decreases atts
  {
    if atts == [] then [] else [Erase(atts[0])] + EraseAll(atts[1..])
  }

  lemma {:induction false} AttributesBack(file: seq<Byte>, pos: nat, cp: seq<Constant>, atts: seq<Attribute>)
    requires WellFormedAttributes(atts, cp) && At(file, pos, EncodeAttributes(atts))
    ensures ReadAttributes(file, pos, cp, |atts|) == Ok((EraseAll(atts), pos + |EncodeAttributes(atts)|))
    decreases atts, 0
  {
    hide At, ReadAttribute, EncodeAttribute, Erase, WellFormedAttribute;
    if atts != [] {
      var head, tail := EncodeAttribute(atts[0]), EncodeAttributes(atts[1..]);
      var p := pos + |head|;
      AtSplit(file, pos, head, tail);
      AttributeBack(file, pos, cp, atts[0]);
      AttributesBack(file, p, cp, atts[1..]);
      AttributesStep(file, pos, cp, Erase(atts[0]), p, EraseAll(atts[1..]), p + |tail|);
    }
  }

  lemma {:induction false} AttributesStep(file: seq<Byte>, pos: nat, cp: seq<Constant>, a: Attribute, p: nat,
                                          rest: seq<Attribute>, end: nat)
    requires ReadAttribute(file, pos, cp) == Ok((a, p)) && ReadAttributes(file, p, cp, |rest|) == Ok((rest, end))
    ensures ReadAttributes(file, pos, cp, |rest| + 1) == Ok(([a] + rest, end))
  {
  }

  lemma {:induction false} HeaderLength(a: Attribute)
    ensures |Be16(a.nameIndex)| == 2 && |Be32(a.length)| == 4 && (a.ConstantValue? ==> |Be16(a.valueIndex)| == 2)
  {
  }

  lemma {:induction false} AttributeBack(file: seq<Byte>, pos: nat, cp: seq<Constant>, a: Attribute)
    requires WellFormedAttribute(a, cp) && At(file, pos, EncodeAttribute(a))
    ensures ReadAttribute(file, pos, cp) == Ok((Erase(a), pos + |EncodeAttribute(a)|))
    decreases a
  {
    hide At, U2, U4, ReadCode, EncodeCode, Be16, Be32;
    HeaderLength(a);
    var head := Be16(a.nameIndex) + Be32(a.length);
    match a
    case ConstantValue(n, length, v) =>
      AtSplit(file, pos, head, Be16(v));
      AtSplit(file, pos, Be16(n), Be32(length));
      ReadsU2(file, pos, n); ReadsU4(file, pos + 2, length); ReadsU2(file, pos + 6, v);
    case Code(n, length, _, _, _, _, _, _) =>
      AtSplit(file, pos, head, EncodeCode(a));
      AtSplit(file, pos, Be16(n), Be32(length));
      ReadsU2(file, pos, n); ReadsU4(file, pos + 2, length);
      CodeBack(file, pos + 6, cp, a);
    case Other(n, length, bytes) =>
      AtSplit(file, pos, head, bytes);
      AtSplit(file, pos, Be16(n), Be32(length));
      ReadsU2(file, pos, n); ReadsU4(file, pos + 2, length);
  }

  lemma {:induction false} BytecodeBack(file: seq<Byte>, pos: nat, code: seq<Byte>)
    requires |code| < TWO_32 && At(file, pos, Be32(|code|) + code)
    ensures ReadBytecode(file, pos) == Ok((code, pos + 4 + |code|))
  {
    hide At, U4, Bytes;
    AtSplit(file, pos, Be32(|code|), code);
    ReadsU4(file, pos, |code|);
    BytesBack(file, pos + 4, code);
  }

  lemma {:induction false} AttributeTableBack(file: seq<Byte>, pos: nat, cp: seq<Constant>, atts: seq<Attribute>)
    requires |atts| < 0x1_0000 && WellFormedAttributes(atts, cp) && At(file, pos, EncodeAttributeTable(atts))
    ensures ReadAttributeTable(file, pos, cp) == Ok((EraseAll(atts), pos + |EncodeAttributeTable(atts)|))
    decreases atts, 1
  {
    hide At, U2, ReadAttributes, WellFormedAttributes;
    AtSplit(file, pos, Be16(|atts|), EncodeAttributes(atts));
    ReadsU2(file, pos, |atts|);
    AttributesBack(file, pos + 2, cp, atts);
  }

  lemma {:induction false} CodeBack(file: seq<Byte>, pos: nat, cp: seq<Constant>, a: Attribute)
    requires a.Code? && WellFormedAttribute(a, cp) && At(file, pos, EncodeCode(a))
    ensures ReadCode(file, pos, cp, a.nameIndex, a.length) == Ok((Erase(a), pos + |EncodeCode(a)|))
    decreases a, 0
  {
    hide At, U2, ReadBytecode, ReadAttributeTable, EncodeAttributeTable;
    var b0, b1, b2 := Be16(a.maxStack), Be16(a.maxLocals), Be32(|a.code|) + a.code;
    var b3, b4, b5 := Be16(a.handlers), a.table, EncodeAttributeTable(a.attributes);
    AtSplit(file, pos, b0 + b1 + b2 + b3 + b4, b5);
    AtSplit(file, pos, b0 + b1 + b2 + b3, b4);
    AtSplit(file, pos, b0 + b1 + b2, b3);
    AtSplit(file, pos, b0 + b1, b2);
    AtSplit(file, pos, b0, b1);
    ReadsU2(file, pos, a.maxStack); ReadsU2(file, pos + 2, a.maxLocals);
    BytecodeBack(file, pos + 4, a.code);
    var p := pos + 8 + |a.code|;
    ReadsU2(file, p, a.handlers);
    AttributeTableBack(file, p + 2 + 8 * a.handlers, cp, a.attributes);
  }

  // ---- Fields and methods ----

  lemma {:induction false} ThreeBack(file: seq<Byte>, pos: nat, a: Half, b: Half, c: Half)
    requires At(file, pos, ThreeHalfBytes(a, b, c))
    ensures ThreeHalves(file, pos) == Ok((a, b, c))
  {
    AtSplit(file, pos, Be16(a) + Be16(b), Be16(c));
    AtSplit(file, pos, Be16(a), Be16(b));
    ReadsU2(file, pos, a); ReadsU2(file, pos + 2, b); ReadsU2(file, pos + 4, c);
  }

  lemma {:induction false} MemberBack(file: seq<Byte>, pos: nat, cp: seq<Constant>, m: Member)
    requires WellFormedMember(m, cp) && At(file, pos, EncodeMember(m))
    ensures ThreeHalves(file, pos) == Ok((m.access, m.nameIndex, m.signatureIndex))
    ensures ReadAttributeTable(file, pos + 6, cp) == Ok((EraseAll(m.attributes), pos + |EncodeMember(m)|))
  {
    AtSplit(file, pos, ThreeHalfBytes(m.access, m.nameIndex, m.signatureIndex), EncodeAttributeTable(m.attributes));
    ThreeBack(file, pos, m.access, m.nameIndex, m.signatureIndex);
    AttributeTableBack(file, pos + 6, cp, m.attributes);
  }

  /** What the parser makes of a field and of a method. */
  function FieldOf(m: Member, cp: seq<Constant>): Field
    requires WellFormedMember(m, cp)
  {
    Field(m.access, cp[m.nameIndex].text, cp[m.signatureIndex].text, EraseAll(m.attributes))
  }

  function MethodOf(m: Member, cp: seq<Constant>): Method
    requires WellFormedMember(m, cp) && Signature.Nargs(cp[m.signatureIndex].text).Count?
  {
    var signature := cp[m.signatureIndex].text;
    Method(m.access, cp[m.nameIndex].text, signature, Signature.Nargs(signature).n, EraseAll(m.attributes))
  }

  function FieldsIn(ms: seq<Member>, cp: seq<Constant>): seq<Field>
    requires WellFormedMembers(ms, cp)
  {
    seq(|ms|, i requires 0 <= i < |ms| => FieldOf(ms[i], cp))
  }

  function MethodsIn(ms: seq<Member>, cp: seq<Constant>): seq<Method>
    requires WellFormedMembers(ms, cp) && Countable(ms, cp)
  {
    seq(|ms|, i requires 0 <= i < |ms| => MethodOf(ms[i], cp))
  }

  lemma {:induction false} FieldBack(file: seq<Byte>, cp: seq<Constant>, m: Member)
    requires WellFormedMember(m, cp)
    ensures Restores(FieldsOf(file, cp), file, EncodeMember(m), FieldOf(m, cp))
  {
    forall p: nat | At(file, p, EncodeMember(m))
      ensures FieldsOf(file, cp)(p) == Ok((FieldOf(m, cp), p + |EncodeMember(m)|))
    {
      MemberBack(file, p, cp, m);
    }
  }

  lemma {:induction false} MethodBack(file: seq<Byte>, cp: seq<Constant>, m: Member)
    requires WellFormedMember(m, cp) && Signature.Nargs(cp[m.signatureIndex].text).Count?
    ensures Restores(MethodsOf(file, cp), file, EncodeMember(m), MethodOf(m, cp))
  {
    forall p: nat | At(file, p, EncodeMember(m))
      ensures MethodsOf(file, cp)(p) == Ok((MethodOf(m, cp), p + |EncodeMember(m)|))
    {
      MemberBack(file, p, cp, m);
    }
  }

  lemma {:induction false} FieldsBack(file: seq<Byte>, pos: nat, cp: seq<Constant>, ms: seq<Member>)
    requires WellFormedMembers(ms, cp) && At(file, pos, Concat(MemberParts(ms)))
    ensures Many(FieldsOf(file, cp), pos, |ms|) == Ok((FieldsIn(ms, cp), pos + |Concat(MemberParts(ms))|))
  {
    forall i | 0 <= i < |ms| ensures Restores(FieldsOf(file, cp), file, MemberParts(ms)[i], FieldsIn(ms, cp)[i]) {
      FieldBack(file, cp, ms[i]);
    }
    ManyBack(FieldsOf(file, cp), file, pos, MemberParts(ms), FieldsIn(ms, cp));
  }

  lemma {:induction false} MethodsBack(file: seq<Byte>, pos: nat, cp: seq<Constant>, ms: seq<Member>)
    requires WellFormedMembers(ms, cp) && Countable(ms, cp) && At(file, pos, Concat(MemberParts(ms)))
    ensures Many(MethodsOf(file, cp), pos, |ms|) == Ok((MethodsIn(ms, cp), pos + |Concat(MemberParts(ms))|))
  {
    forall i | 0 <= i < |ms| ensures Restores(MethodsOf(file, cp), file, MemberParts(ms)[i], MethodsIn(ms, cp)[i]) {
      MethodBack(file, cp, ms[i]);
    }
    ManyBack(MethodsOf(file, cp), file, pos, MemberParts(ms), MethodsIn(ms, cp));
  }

  lemma {:induction false} HalvesBack(file: seq<Byte>, pos: nat, hs: seq<Half>)
    requires At(file, pos, Concat(HalfParts(hs)))
    ensures Many(HalvesOf(file), pos, |hs|) == Ok((hs, pos + |Concat(HalfParts(hs))|))
  {
    forall i | 0 <= i < |hs| ensures Restores(HalvesOf(file), file, HalfParts(hs)[i], hs[i]) {
      forall p: nat | At(file, p, Be16(hs[i])) ensures HalvesOf(file)(p) == Ok((hs[i], p + 2)) {
        ReadsU2(file, p, hs[i]);
      }
    }
    ManyBack(HalvesOf(file), file, pos, HalfParts(hs), hs);
  }

  // ---- The class ----

  function TablesOf(f: File): Tables
    requires WellFormed(f)
  {
    var cp := Pool(f.constants);
    Tables(f.interfaces, FieldsIn(f.fields, cp), MethodsIn(f.methods, cp), EraseAll(f.attributes))
  }

  /** What the parser makes of a class file. */
  function Parsed(f: File): Class
    requires WellFormed(f)
  {
    var cp := Pool(f.constants);
    Class(f.minor, f.major, cp, f.access, f.thisClass, f.superClass, TablesOf(f), cp[cp[f.thisClass].nameIndex].text)
  }

  lemma {:induction false} CountBack(file: seq<Byte>, pos: nat, n: Half, bytes: seq<Byte>)
    requires At(file, pos, Counted(n, bytes))
    ensures U2(file, pos) == Ok(n) && At(file, pos + 2, bytes)
  {
    AtSplit(file, pos, Be16(n), bytes);
    ReadsU2(file, pos, n);
  }

  lemma {:induction false} PoolBack(file: seq<Byte>, pos: nat, f: File)
    requires WellFormed(f) && At(file, pos, EncodePool(f))
    ensures ReadPool(file, pos, false) == Ok((Pool(f.constants), pos + |EncodePool(f)|, false))
  {
    CountBack(file, pos, |Pool(f.constants)|, Concat(ConstantParts(f.constants)));
    ConstantsBack(file, pos + 2, f.constants);
    assert |Pool(f.constants)| - 1 == |Indexed(f.constants)|;
  }

  lemma {:induction false} HeadBack(file: seq<Byte>, f: File)
    requires At(file, 0, EncodeHead(f))
    ensures ReadHead(file) == Ok((f.minor, f.major))
  {
    AtSplit(file, 0, Be32(MAGIC) + Be16(f.minor), Be16(f.major));
    AtSplit(file, 0, Be32(MAGIC), Be16(f.minor));
    ReadsU4(file, 0, MAGIC); ReadsU2(file, 4, f.minor); ReadsU2(file, 6, f.major);
  }

  lemma {:induction false} InterfacesBack(file: seq<Byte>, pos: nat, f: File)
    requires WellFormed(f) && At(file, pos, EncodeInterfaces(f))
    ensures ReadInterfaces(file, pos) == Ok((f.interfaces, pos + |EncodeInterfaces(f)|))
  {
    CountBack(file, pos, |f.interfaces|, Concat(HalfParts(f.interfaces)));
    HalvesBack(file, pos + 2, f.interfaces);
  }

  lemma {:induction false} AllFieldsBack(file: seq<Byte>, pos: nat, cp: seq<Constant>, ms: seq<Member>)
    requires |ms| < 0x1_0000 && WellFormedMembers(ms, cp) && At(file, pos, EncodeMembers(ms))
    ensures ReadAllFields(file, pos, cp) == Ok((FieldsIn(ms, cp), pos + |EncodeMembers(ms)|))
  {
    CountBack(file, pos, |ms|, Concat(MemberParts(ms)));
    FieldsBack(file, pos + 2, cp, ms);
  }

  lemma {:induction false} AllMethodsBack(file: seq<Byte>, pos: nat, cp: seq<Constant>, ms: seq<Member>)
    requires |ms| < 0x1_0000 && WellFormedMembers(ms, cp) && Countable(ms, cp) && At(file, pos, EncodeMembers(ms))
    ensures ReadAllMethods(file, pos, cp) == Ok((MethodsIn(ms, cp), pos + |EncodeMembers(ms)|))
  {
    CountBack(file, pos, |ms|, Concat(MemberParts(ms)));
    MethodsBack(file, pos + 2, cp, ms);
  }

  /** Where the parts of an encoded class stand. */
  ghost predicate Stands(file: seq<Byte>, f: File, p2: nat, p3: nat, p4: nat, p5: nat, p6: nat, end: nat)
    requires WellFormed(f)
  {
    && At(file, 0, EncodeHead(f))
    && At(file, 8, EncodePool(f)) && p2 == 8 + |EncodePool(f)|
    && At(file, p2, EncodeIndices(f)) && p3 == p2 + 6
    && At(file, p3, EncodeInterfaces(f)) && p4 == p3 + |EncodeInterfaces(f)|
    && At(file, p4, EncodeMembers(f.fields)) && p5 == p4 + |EncodeMembers(f.fields)|
    && At(file, p5, EncodeMembers(f.methods)) && p6 == p5 + |EncodeMembers(f.methods)|
    && At(file, p6, EncodeAttributeTable(f.attributes)) && end == p6 + |EncodeAttributeTable(f.attributes)|
  }

  lemma {:induction false} Parts(file: seq<Byte>, f: File) returns (p2: nat, p3: nat, p4: nat, p5: nat, p6: nat)
    requires WellFormed(f) && At(file, 0, Encode(f))
    ensures Stands(file, f, p2, p3, p4, p5, p6, |Encode(f)|)
  {
    hide At, EncodePool, EncodeInterfaces, EncodeMembers, EncodeAttributeTable;
    var b0, b1, b2, b3 := EncodeHead(f), EncodePool(f), EncodeIndices(f), EncodeInterfaces(f);
    var b4, b5, b6 := EncodeMembers(f.fields), EncodeMembers(f.methods), EncodeAttributeTable(f.attributes);
    AtSplit(file, 0, b0 + b1 + b2 + b3 + b4 + b5, b6);
    AtSplit(file, 0, b0 + b1 + b2 + b3 + b4, b5);
    AtSplit(file, 0, b0 + b1 + b2 + b3, b4);
    AtSplit(file, 0, b0 + b1 + b2, b3);
    AtSplit(file, 0, b0 + b1, b2);
    AtSplit(file, 0, b0, b1);
    p2 := 8 + |b1|;
    p3 := p2 + 6;
    p4 := p3 + |b3|;
    p5 := p4 + |b4|;
    p6 := p5 + |b5|;
  }

  lemma {:induction false} TablesWhole(file: seq<Byte>, cp: seq<Constant>, t: Tables, p3: nat, p4: nat, p5: nat,
                                       p6: nat, end: nat)
    requires ReadInterfaces(file, p3) == Ok((t.interfaces, p4)) && ReadAllFields(file, p4, cp) == Ok((t.fields, p5))
    requires ReadAllMethods(file, p5, cp) == Ok((t.methods, p6))
             && ReadAttributeTable(file, p6, cp) == Ok((t.attributes, end))
    ensures ReadTables(file, p3, cp) == Ok((t, end))
  {
    hide ReadInterfaces, ReadAllFields, ReadAllMethods;
  }

  lemma {:induction false} TablesBack(file: seq<Byte>, f: File, p2: nat, p3: nat, p4: nat, p5: nat, p6: nat, end: nat)
    requires WellFormed(f) && Stands(file, f, p2, p3, p4, p5, p6, end)
    ensures ReadTables(file, p3, Pool(f.constants)) == Ok((TablesOf(f), end))
  {
    hide ReadInterfaces, ReadAllFields, ReadAllMethods, ReadAttributeTable, ReadTables, At;
    hide EncodeInterfaces, EncodeMembers, EncodeAttributeTable, EncodePool, EncodeHead, EncodeIndices,
      WellFormedMember, WellFormedAttributes;
    var cp := Pool(f.constants);
    InterfacesBack(file, p3, f);
    AllFieldsBack(file, p4, cp, f.fields);
    AllMethodsBack(file, p5, cp, f.methods);
    AttributeTableBack(file, p6, cp, f.attributes);
    TablesWhole(file, cp, TablesOf(f), p3, p4, p5, p6, end);
  }

  lemma {:induction false} FileWhole(file: seq<Byte>, c: Class, p: nat, end: nat)
    requires ReadHead(file) == Ok((c.minor, c.major)) && ReadPool(file, 8, false) == Ok((c.cp, p, false))
    requires ThreeHalves(file, p) == Ok((c.access, c.thisClass, c.superClass))
    requires ReadTables(file, p + 6, c.cp) == Ok((c.tables, end)) && ClassName(c.cp, c.thisClass) == Ok(c.name)
    ensures ReadFile(file, false) == Ok((c, end, false))
  {
    hide ReadHead, ReadPool, ThreeHalves, ReadTables, ClassName;
  }

  /** Parsing undoes encoding: a file that starts with the encoding of a class is parsed to that class,
    * with exception tables and unsupported attributes erased; the position ends exactly behind the
    * encoding, and the flag for the second half of a long or double is clear.
    */
  lemma {:induction false} ParsingUndoesEncoding(file: seq<Byte>, f: File)
    requires WellFormed(f) && At(file, 0, Encode(f))
    ensures ReadFile(file, false) == Ok((Parsed(f), |Encode(f)|, false))
  {
    hide ReadHead, ReadPool, ReadTables, ReadFile, ThreeHalves, At, Encode, EncodeHead, EncodePool, TablesOf;
    var p2, p3, p4, p5, p6 := Parts(file, f);
    HeadBack(file, f);
    PoolBack(file, 8, f);
    ThreeBack(file, p2, f.access, f.thisClass, f.superClass);
    TablesBack(file, f, p2, p3, p4, p5, p6, |Encode(f)|);
    FileWhole(file, Parsed(f), p2, |Encode(f)|);
  }

  /** The pool has every index it announced, the second index of a long or double is left unused, and the
    * flag stays set exactly when the last index has the first half of one.
    */
  lemma {:induction false} FlagAfterPool(read: nat -> Read<Constant>, pos: nat, skip: bool, n: nat)
    requires Entries(read, pos, skip, n).Ok?
    ensures var (items, _, flag) := Entries(read, pos, skip, n).value;
            && |items| == n && flag == (if n == 0 then skip else IsWide(items[n - 1]))
            && (n > 0 && skip ==> items[0] == Unused)
            && forall i :: 0 < i < n && IsWide(items[i - 1]) ==> items[i] == Unused
    decreases n
  {
    if n > 0 {
      if skip {
        FlagAfterPool(read, pos, false, n - 1);
      } else {
        FlagAfterPool(read, read(pos).value.1, IsWide(read(pos).value.0), n - 1);
      }
    }
  }

  /** Only with the flag clear: left set by another file, it makes the parser skip the first constant. */
  lemma {:induction false} ParsingNeedsClearFlag(file: seq<Byte>, f: File, skip: bool)
    requires WellFormed(f) && At(file, 0, Encode(f))
    ensures ReadFile(file, skip) == Ok((Parsed(f), |Encode(f)|, false)) <==> !skip
  {
    ParsingUndoesEncoding(file, f);
    if skip {
      var p2, p3, p4, p5, p6 := Parts(file, f);
      CountBack(file, 8, |Pool(f.constants)|, Concat(ConstantParts(f.constants)));
      SkippedFirst(file, f);
    }
  }

  lemma {:induction false} SkippedFirst(file: seq<Byte>, f: File)
    requires WellFormed(f) && U2(file, 8) == Ok(|Pool(f.constants)|)
    ensures ReadFile(file, true).Ok? ==> ReadFile(file, true).value.0.cp != Pool(f.constants)
  {
    hide ReadHead, ThreeHalves, ReadTables, ClassName, U2, Concat;
    var cs := f.constants;
    assert cs != [] && Pool(cs)[1] == cs[0] && WellFormedConstant(cs[0]);
    if ReadFile(file, true).Ok? {
      FlagAfterPool(ConstantsOf(file), 10, true, |Pool(cs)| - 1);
    }
  }
}
