/** The class file format (sections 4.1, 4.4, 4.6 and 4.7 of the JVMS), as abstract syntax and as bytes. */
module ClassFormat {
  import opened Words
  import opened Switches
  import Signature

  type Half = x: int | 0 <= x < 0x1_0000

  /** A constant. `Unused` is an index that no constant starts at: 0, and the second one of a long or double. */
  datatype Constant =
    | Unused
    | Utf8(text: string)
    | Integer(bits: Word) | Float(bits: Word)
    | Long(bits64: Pair) | Double(bits64: Pair)
    | ClassRef(nameIndex: Half)
    | StringRef(stringIndex: Half)
    | FieldRef(classIndex: Half, memberIndex: Half)
    | MethodRef(classIndex: Half, memberIndex: Half)
    | InterfaceMethodRef(classIndex: Half, memberIndex: Half)
    | NameAndType(nameIndex: Half, signatureIndex: Half)

  /** An attribute; `length` is the length field of its header. The exception table of a Code attribute and
    * the content of an unsupported attribute are kept as bytes.
    */
  datatype Attribute =
    | ConstantValue(nameIndex: Half, length: Word, valueIndex: Half)
    | Code(nameIndex: Half, length: Word, maxStack: Half, maxLocals: Half, code: seq<Byte>,
           handlers: Half, table: seq<Byte>, attributes: seq<Attribute>)
    | Other(nameIndex: Half, length: Word, bytes: seq<Byte>)

  datatype Member = Member(access: Half, nameIndex: Half, signatureIndex: Half, attributes: seq<Attribute>)

  datatype File = File(
    minor: Half, major: Half, constants: seq<Constant>, access: Half, thisClass: Half, superClass: Half,
    interfaces: seq<Half>, fields: seq<Member>, methods: seq<Member>, attributes: seq<Attribute>)

  const MAGIC: Word := 0xCAFE_BABE

  function Be16(h: Half): seq<Byte> { [h / 256, h % 256] }

  /** A long or a double takes two indices. */
  predicate IsWide(c: Constant) { c.Long? || c.Double? }

  function Ascii(text: string): (r: seq<Byte>)
    requires Plain(text)
    ensures |r| == |text|
  {
    if text == "" then [] else [text[0] as int] + Ascii(text[1..])
  }

  /** No byte of a constant string is zero (JVMS 4.4.7). */
  predicate Plain(text: string) { forall i :: 0 <= i < |text| ==> 0 < text[i] as int < 256 }

  predicate WellFormedConstant(c: Constant) { !c.Unused? && (c.Utf8? ==> Plain(c.text) && |c.text| < 0x1_0000) }

  function EncodeConstant(c: Constant): seq<Byte>
    requires WellFormedConstant(c)
  {
    match c
    case Utf8(t) => [1] + Be16(|t|) + Ascii(t)
    case Integer(w) => [3] + Be32(w)
    case Float(w) => [4] + Be32(w)
    case Long(p) => [5] + Be32(p.hi) + Be32(p.lo)
    case Double(p) => [6] + Be32(p.hi) + Be32(p.lo)
    case ClassRef(n) => [7] + Be16(n)
    case StringRef(s) => [8] + Be16(s)
    case FieldRef(k, m) => [9] + Be16(k) + Be16(m)
    case MethodRef(k, m) => [10] + Be16(k) + Be16(m)
    case InterfaceMethodRef(k, m) => [11] + Be16(k) + Be16(m)
    case NameAndType(n, s) => [12] + Be16(n) + Be16(s)
  }

  predicate WellFormedConstants(cs: seq<Constant>) {
    forall i :: 0 <= i < |cs| ==> WellFormedConstant(cs[i])
  }

  function Concat(parts: seq<seq<Byte>>): seq<Byte> {
    if parts == [] then [] else parts[0] + Concat(parts[1..])
  }

  /** Each constant's bytes. */
  function ConstantParts(cs: seq<Constant>): seq<seq<Byte>>
    requires WellFormedConstants(cs)
  {
    seq(|cs|, i requires 0 <= i < |cs| => EncodeConstant(cs[i]))
  }

  /** The constants by index, from 1 on. */
  function Indexed(cs: seq<Constant>): seq<Constant> {
    if cs == [] then [] else [cs[0]] + (if IsWide(cs[0]) then [Unused] else []) + Indexed(cs[1..])
  }

  function Pool(cs: seq<Constant>): seq<Constant> { [Unused] + Indexed(cs) }

  predicate Names(cp: seq<Constant>, i: Half, text: string) { i < |cp| && cp[i] == Utf8(text) }

  predicate WellFormedAttribute(a: Attribute, cp: seq<Constant>)
    decreases a
  {
    match a
    case ConstantValue(n, _, _) => Names(cp, n, "ConstantValue")
    case Code(n, _, _, _, code, handlers, table, atts) =>
      && Names(cp, n, "Code") && |code| < TWO_32 && |table| == 8 * handlers
      && |atts| < 0x1_0000 && WellFormedAttributes(atts, cp)
    case Other(n, length, bytes) =>
      && n < |cp| && cp[n].Utf8? && cp[n].text != "ConstantValue" && cp[n].text != "Code"
      && |bytes| == length < 0x8000_0000
  }

  predicate WellFormedAttributes(atts: seq<Attribute>, cp: seq<Constant>)
    decreases atts
  {
    atts == [] || (WellFormedAttribute(atts[0], cp) && WellFormedAttributes(atts[1..], cp))
  }

  function EncodeAttribute(a: Attribute): seq<Byte>
    decreases a, 1
  {
    Be16(a.nameIndex) + Be32(a.length) +
    match a
    case ConstantValue(_, _, v) => Be16(v)
    case Code(_, _, _, _, _, _, _, _) => EncodeCode(a)
    case Other(_, _, bytes) => bytes
  }

  function EncodeCode(a: Attribute): seq<Byte>
    requires a.Code?
    decreases a, 0
  {
    Be16(a.maxStack) + Be16(a.maxLocals) + (Be32(|a.code|) + a.code) + Be16(a.handlers) + a.table +
    EncodeAttributeTable(a.attributes)
  }

  function EncodeAttributeTable(atts: seq<Attribute>): seq<Byte>
    decreases atts, 1
  {
    Be16(|atts| % 0x1_0000) + EncodeAttributes(atts)
  }

  function EncodeAttributes(atts: seq<Attribute>): seq<Byte>
    decreases atts, 0
  {
    if atts == [] then [] else EncodeAttribute(atts[0]) + EncodeAttributes(atts[1..])
  }

  predicate WellFormedMember(m: Member, cp: seq<Constant>) {
    && m.nameIndex < |cp| && cp[m.nameIndex].Utf8? && m.signatureIndex < |cp| && cp[m.signatureIndex].Utf8?
    && |m.attributes| < 0x1_0000 && WellFormedAttributes(m.attributes, cp)
  }

  predicate WellFormedMembers(ms: seq<Member>, cp: seq<Constant>) {
    forall i :: 0 <= i < |ms| ==> WellFormedMember(ms[i], cp)
  }

  /** A method's descriptor is one that its argument words can be counted in. */
  predicate Countable(ms: seq<Member>, cp: seq<Constant>)
    requires WellFormedMembers(ms, cp)
  {
    forall i :: 0 <= i < |ms| ==> Signature.Nargs(cp[ms[i].signatureIndex].text).Count?
  }

  function ThreeHalfBytes(a: Half, b: Half, c: Half): seq<Byte> { Be16(a) + Be16(b) + Be16(c) }

  function EncodeMember(m: Member): seq<Byte> {
    ThreeHalfBytes(m.access, m.nameIndex, m.signatureIndex) + EncodeAttributeTable(m.attributes)
  }

  function MemberParts(ms: seq<Member>): seq<seq<Byte>> { seq(|ms|, i requires 0 <= i < |ms| => EncodeMember(ms[i])) }

  function HalfParts(hs: seq<Half>): seq<seq<Byte>> { seq(|hs|, i requires 0 <= i < |hs| => Be16(hs[i])) }

  /** The rules of sections 4.1 to 4.7 that parsing depends on. */
  predicate WellFormed(f: File) {
    var cp := Pool(f.constants);
    && WellFormedConstants(f.constants)
    && |cp| < 0x1_0000 && |f.interfaces| < 0x1_0000 && |f.fields| < 0x1_0000 && |f.methods| < 0x1_0000
    && WellFormedMembers(f.fields, cp) && WellFormedMembers(f.methods, cp) && Countable(f.methods, cp)
    && |f.attributes| < 0x1_0000 && WellFormedAttributes(f.attributes, cp)
    && f.thisClass < |cp| && cp[f.thisClass].ClassRef?
    && cp[f.thisClass].nameIndex < |cp| && cp[cp[f.thisClass].nameIndex].Utf8?
  }

  /** A table: its count and its items. */
  function Counted(n: Half, bytes: seq<Byte>): seq<Byte> { Be16(n) + bytes }

  function EncodePool(f: File): seq<Byte>
    requires WellFormed(f)
  {
    Counted(|Pool(f.constants)|, Concat(ConstantParts(f.constants)))
  }

  function EncodeInterfaces(f: File): seq<Byte>
    requires WellFormed(f)
  {
    Counted(|f.interfaces|, Concat(HalfParts(f.interfaces)))
  }

  function EncodeMembers(ms: seq<Member>): seq<Byte>
    requires |ms| < 0x1_0000
  {
    Counted(|ms|, Concat(MemberParts(ms)))
  }

  function EncodeHead(f: File): seq<Byte> { Be32(MAGIC) + Be16(f.minor) + Be16(f.major) }

  function EncodeIndices(f: File): seq<Byte> { ThreeHalfBytes(f.access, f.thisClass, f.superClass) }

  function Encode(f: File): seq<Byte>
    requires WellFormed(f)
  {
    EncodeHead(f) + EncodePool(f) + EncodeIndices(f) + EncodeInterfaces(f) +
    EncodeMembers(f.fields) + EncodeMembers(f.methods) + EncodeAttributeTable(f.attributes)
  }
}
