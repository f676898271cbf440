/** What src/parser.c makes of the bytes of a class file, as functions of the file and a position in it. */
module Parsing {
  import opened Words
  import opened Wrappers
  import opened ClassFormat
  import Signature

  /** How parsing ends the program. `Undefined` is an index outside the pool, or of a constant of the wrong
    * kind, which the C code follows without a check.
    */
  datatype Problem =
    | EndOfFile | BadMagic | BadConstantTag(tag: Byte) | UnicodeConstant | BadAttributeName | BadSignature | Undefined

  type Read<+T> = Result<(T, nat), Problem>

  /** r_field_info: a field with its name and signature looked up. */
  datatype Field = Field(access: Half, name: string, signature: string, attributes: seq<Attribute>)

  datatype Method = Method(access: Half, name: string, signature: string, nargs: int, attributes: seq<Attribute>)

  datatype Tables = Tables(interfaces: seq<Half>, fields: seq<Field>, methods: seq<Method>, attributes: seq<Attribute>)

  datatype Class = Class(
    minor: Half, major: Half, cp: seq<Constant>, access: Half, thisClass: Half, superClass: Half, tables: Tables,
      name: string)

  function U1(file: seq<Byte>, pos: nat): Result<Byte, Problem> {
    if pos < |file| then Ok(file[pos]) else Err(EndOfFile)
  }

  /** Two bytes, most significant first. */
  function Join(a: int, b: int): (r: int)
    ensures 0 <= a < 256 && 0 <= b < 256 ==> 0 <= r < 0x1_0000
  {
    256 * a + b
  }

  function U2(file: seq<Byte>, pos: nat): Result<Half, Problem> {
    if pos + 2 <= |file| then Ok(Join(file[pos], file[pos + 1])) else Err(EndOfFile)
  }

  function U4(file: seq<Byte>, pos: nat): Result<Word, Problem> {
    if pos + 4 <= |file| then Ok(0x1_0000 * Join(file[pos], file[pos + 1]) + Join(file[pos + 2], file[pos + 3]))
    else Err(EndOfFile)
  }

  /** Three halves in a row: flags and two indices. */
  function ThreeHalves(file: seq<Byte>, pos: nat): Result<(Half, Half, Half), Problem> {
    var a :- U2(file, pos);
    var b :- U2(file, pos + 2);
    var c :- U2(file, pos + 4);
    Ok((a, b, c))
  }

  function Bytes(file: seq<Byte>, pos: nat, n: nat): Result<seq<Byte>, Problem> {
    if n == 0 then Ok([]) else if pos + n <= |file| then Ok(file[pos..pos + n]) else Err(EndOfFile)
  }

  /** A C string ends at its first zero byte. */
  function CText(bytes: seq<Byte>): string {
    if bytes == [] || bytes[0] == 0 then "" else [bytes[0] as char] + CText(bytes[1..])
  }

  /** What is left of the file: the measure of the recursion. */
  function Ahead(file: seq<Byte>, pos: nat): nat { if pos < |file| then |file| - pos else 0 }

  function Prepend<T>(items: seq<T>, r: Read<seq<T>>): Read<seq<T>> {
    if r.Err? then r else Ok((items + r.value.0, r.value.1))
  }

  /** n items, each where the one before it ended. */
  function Many<T>(read: nat -> Read<T>, pos: nat, n: nat): Read<seq<T>>
    decreases n
  {
    if n == 0 then Ok(([], pos))
    else
      var item :- read(pos);
      Prepend([item.0], Many(read, item.1, n - 1))
  }

  // ---- Constants ----

  /** parse_constant; it reads nothing for the second index of a long or double. */
  function ReadConstant(file: seq<Byte>, pos: nat): Read<Constant> {
    var tag :- U1(file, pos);
    if tag == 7 then
      var n :- U2(file, pos + 1); Ok((ClassRef(n), pos + 3))
    else if tag == 9 || tag == 10 || tag == 11 then
      var k :- U2(file, pos + 1);
      var m :- U2(file, pos + 3);
      Ok((if tag == 9 then FieldRef(k, m) else if tag == 10 then MethodRef(k, m)
        else InterfaceMethodRef(k, m), pos + 5))
    else if tag == 8 then
      var s :- U2(file, pos + 1); Ok((StringRef(s), pos + 3))
    else if tag == 3 || tag == 4 then
      var w :- U4(file, pos + 1); Ok((if tag == 3 then Integer(w) else Float(w), pos + 5))
    else if tag == 5 || tag == 6 then
      var hi :- U4(file, pos + 1);
      var lo :- U4(file, pos + 5);
      Ok((if tag == 5 then Long(Pair(lo, hi)) else Double(Pair(lo, hi)), pos + 9))
    else if tag == 12 then
      var n :- U2(file, pos + 1);
      var s :- U2(file, pos + 3);
      Ok((NameAndType(n, s), pos + 5))
    else if tag == 1 then
      var length :- U2(file, pos + 1);
      var bytes :- Bytes(file, pos + 3, length);
      Ok((Utf8(CText(bytes)), pos + 3 + length))
    else Err(if tag == 2 then UnicodeConstant else BadConstantTag(tag))
  }

  /** The next n entries of the pool, and the flag second_double_or_long_part after them. */
  function Entries(read: nat -> Read<Constant>, pos: nat, skip: bool, n: nat)
    : Result<(seq<Constant>, nat, bool), Problem>
    decreases n
  {
    if n == 0 then Ok(([], pos, skip))
    else if skip then PrependFlagged([Unused], Entries(read, pos, false, n - 1))
    else
      var c :- read(pos);
      PrependFlagged([c.0], Entries(read, c.1, IsWide(c.0), n - 1))
  }

  function ReadConstants(file: seq<Byte>, pos: nat, skip: bool, n: nat): Result<(seq<Constant>, nat, bool), Problem> {
    Entries(ConstantsOf(file), pos, skip, n)
  }

  function ConstantsOf(file: seq<Byte>): nat -> Read<Constant> { p => ReadConstant(file, p) }

  function PrependFlagged(items: seq<Constant>, r: Result<(seq<Constant>, nat, bool), Problem>)
    : Result<(seq<Constant>, nat, bool), Problem>
  {
    if r.Err? then r else Ok((items + r.value.0, r.value.1, r.value.2))
  }

  /** parse_constant_pool. The entry at index 0 is never written. */
  function ReadPool(file: seq<Byte>, pos: nat, skip: bool): Result<(seq<Constant>, nat, bool), Problem> {
    var count :- U2(file, pos);
    if count == 0 then Ok(([], pos + 2, skip))
    else PrependFlagged([Unused], ReadConstants(file, pos + 2, skip, count - 1))
  }

  // ---- Attributes ----

  /** parse_attribute: only ConstantValue and Code are kept, anything else is skipped by its length. */
  function ReadAttribute(file: seq<Byte>, pos: nat, cp: seq<Constant>): (r: Read<Attribute>)
    ensures r.Ok? ==> pos + 6 <= |file| && pos + 6 <= r.value.1
    decreases Ahead(file, pos), 0
  {
    var name :- U2(file, pos);
    var length :- U4(file, pos + 2);
    if name >= |cp| then Err(Undefined)
    else if !cp[name].Utf8? then Err(BadAttributeName)
    else if cp[name].text == "ConstantValue" then
      var v :- U2(file, pos + 6);
      Ok((ConstantValue(name, length, v), pos + 8))
    else if cp[name].text == "Code" then
      ReadCode(file, pos + 6, cp, name, length)
    else if length < 0x8000_0000 then Ok((Other(name, length, []), pos + 6 + length))
    else Err(Undefined)
  }

  /** The length of the code and its bytes. */
  function ReadBytecode(file: seq<Byte>, pos: nat): Read<seq<Byte>> {
    var size :- U4(file, pos);
    var code :- Bytes(file, pos + 4, size);
    Ok((code, pos + 4 + size))
  }

  /** parse_Code_attribute: the exception table is skipped. */
  function ReadCode(file: seq<Byte>, pos: nat, cp: seq<Constant>, name: Half, length: Word): (r: Read<Attribute>)
    ensures r.Ok? ==> pos <= r.value.1
    decreases Ahead(file, pos), 3
  {
    var stack :- U2(file, pos);
    var locals :- U2(file, pos + 2);
    var code :- ReadBytecode(file, pos + 4);
    var handlers :- U2(file, code.1);
    var atts :- ReadAttributeTable(file, code.1 + 2 + 8 * handlers, cp);
    Ok((Code(name, length, stack, locals, code.0, handlers, [], atts.0), atts.1))
  }

  /** A count and that many attributes. */
  function ReadAttributeTable(file: seq<Byte>, pos: nat, cp: seq<Constant>): (r: Read<seq<Attribute>>)
    ensures r.Ok? ==> pos <= r.value.1
    decreases Ahead(file, pos), 2
  {
    var n :- U2(file, pos);
    ReadAttributes(file, pos + 2, cp, n)
  }

  function ReadAttributes(file: seq<Byte>, pos: nat, cp: seq<Constant>, n: nat): (r: Read<seq<Attribute>>)
    ensures r.Ok? ==> pos <= r.value.1
    decreases Ahead(file, pos), 1
  {
    if n == 0 then Ok(([], pos))
    else
      var a :- ReadAttribute(file, pos, cp);
      Prepend([a.0], ReadAttributes(file, a.1, cp, n - 1))
  }

  // ---- Fields, methods, the class ----

  function TextAt(cp: seq<Constant>, i: Half): Result<string, Problem> {
    if i < |cp| && cp[i].Utf8? then Ok(cp[i].text) else Err(Undefined)
  }

  function ReadField(file: seq<Byte>, pos: nat, cp: seq<Constant>): Read<Field> {
    var h :- ThreeHalves(file, pos);
    var name :- TextAt(cp, h.1);
    var signature :- TextAt(cp, h.2);
    var atts :- ReadAttributeTable(file, pos + 6, cp);
    Ok((Field(h.0, name, signature, atts.0), atts.1))
  }

  /** A signature that cannot be counted ends the program. */
  function Scanned(r: Signature.Scanned): Result<int, Problem> {
    match r
    case Count(n) => Ok(n)
    case BadSignature => Err(BadSignature)
    case Overrun => Err(Undefined)
  }

  function ReadMethod(file: seq<Byte>, pos: nat, cp: seq<Constant>): Read<Method> {
    var h :- ThreeHalves(file, pos);
    var name :- TextAt(cp, h.1);
    var signature :- TextAt(cp, h.2);
    var nargs :- Scanned(Signature.Nargs(signature));
    var atts :- ReadAttributeTable(file, pos + 6, cp);
    Ok((Method(h.0, name, signature, nargs, atts.0), atts.1))
  }

  function FieldsOf(file: seq<Byte>, cp: seq<Constant>): nat -> Read<Field> { p => ReadField(file, p, cp) }

  function MethodsOf(file: seq<Byte>, cp: seq<Constant>): nat -> Read<Method> { p => ReadMethod(file, p, cp) }

  function HalvesOf(file: seq<Byte>): nat -> Read<Half> {
    p => var h :- U2(file, p); Ok((h, p + 2))
  }

  /** A count and that many items. */
  function ReadInterfaces(file: seq<Byte>, pos: nat): Read<seq<Half>> {
    var n :- U2(file, pos); Many(HalvesOf(file), pos + 2, n)
  }

  function ReadAllFields(file: seq<Byte>, pos: nat, cp: seq<Constant>): Read<seq<Field>> {
    var n :- U2(file, pos); Many(FieldsOf(file, cp), pos + 2, n)
  }

  function ReadAllMethods(file: seq<Byte>, pos: nat, cp: seq<Constant>): Read<seq<Method>> {
    var n :- U2(file, pos); Many(MethodsOf(file, cp), pos + 2, n)
  }

  function ReadTables(file: seq<Byte>, pos: nat, cp: seq<Constant>): Read<Tables> {
    var interfaces :- ReadInterfaces(file, pos);
    var fields :- ReadAllFields(file, interfaces.1, cp);
    var methods :- ReadAllMethods(file, fields.1, cp);
    var atts :- ReadAttributeTable(file, methods.1, cp);
    Ok((Tables(interfaces.0, fields.0, methods.0, atts.0), atts.1))
  }

  /** The name of a class constant. */
  function ClassName(cp: seq<Constant>, i: Half): Result<string, Problem> {
    if i < |cp| && cp[i].ClassRef? then TextAt(cp, cp[i].nameIndex) else Err(Undefined)
  }

  /** The magic number is accepted in either byte order; everything after it is read big-endian. */
  const SWAPPED_MAGIC: Word := 0xBEBA_FECA

  /** The versions, behind a good magic number. */
  function ReadHead(file: seq<Byte>): Result<(Half, Half), Problem> {
    var magic :- U4(file, 0);
    if magic != MAGIC && magic != SWAPPED_MAGIC then Err(BadMagic)
    else
      var minor :- U2(file, 4);
      var major :- U2(file, 6);
      Ok((minor, major))
  }

  /** parse_file, with the flag as an earlier file left it; the result has the end position and the flag. */
  function ReadFile(file: seq<Byte>, skip: bool): Result<(Class, nat, bool), Problem> {
    var head :- ReadHead(file);
    var pool :- ReadPool(file, 8, skip);
    var (cp, p) := (pool.0, pool.1);
    var h :- ThreeHalves(file, p);
    var tables :- ReadTables(file, p + 6, cp);
    var name :- ClassName(cp, h.1);
    Ok((Class(head.0, head.1, cp, h.0, h.1, h.2, tables.0, name), tables.1, pool.2))
  }
}
