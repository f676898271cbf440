/** The parser of src/parser.c as it runs: a position that moves through the file, the global flag for the
  * second half of a long or double, and the global that says whose shortcut the next Code attribute sets.
  */
module ClassParser {
  import opened Words
  import opened Wrappers
  import opened ClassFormat
  import opened Parsing
  import opened Links
  import opened StringPool
  import opened ClassBytes
  import Resolution
  import Signature

  /** A read without its end position. */
  function Item<T>(r: Read<T>): Result<T, Problem> { if r.Err? then Err(r.error) else Ok(r.value.0) }

  /** The pointers of a field or method are the string pool's own strings for its name and signature. */
  ghost predicate HasNames(m: Resolution.Member, name: string, signature: string, contents: map<string, CString>) {
    && m.name.text == name && Interned(m.name, contents)
    && m.signature.text == signature && Interned(m.signature, contents)
  }

  ghost predicate FieldsNamed(ms: seq<Resolution.Member>, fields: seq<Field>, contents: map<string, CString>) {
    |ms| == |fields| && forall i :: 0 <= i < |ms| ==> HasNames(ms[i], fields[i].name, fields[i].signature, contents)
  }

  ghost predicate MethodsNamed(ms: seq<Resolution.Member>, methods: seq<Method>, contents: map<string, CString>) {
    |ms| == |methods| && forall i :: 0 <= i < |ms| ==> HasNames(ms[i], methods[i].name, methods[i].signature, contents)
  }

  /** Every Utf8 entry has the string pool's own string for its text. */
  ghost predicate InternedPool(cp: seq<Constant>, utf8: seq<CString?>, contents: map<string, CString>) {
    |utf8| == |cp| && forall i :: 0 <= i < |cp| && cp[i].Utf8? ==>
      utf8[i] != null && utf8[i].text == cp[i].text && Interned(utf8[i], contents)
  }

  lemma {:induction false} NoneInterned(contents: map<string, CString>)
    ensures InternedPool([], [], contents)
  {
  }

  /** The pool may grow, and one more entry is parsed. */
  lemma {:induction false} OneMoreInterned(cp: seq<Constant>, utf8: seq<CString?>, before: map<string, CString>,
                                           c: Constant, str: CString?, after: map<string, CString>)
    requires InternedPool(cp, utf8, before) && Grows(before, after)
    requires c.Utf8? ==> str != null && str.text == c.text && Interned(str, after)
    ensures InternedPool(cp + [c], utf8 + [str], after)
  {
  }

  /** A text that an entry of the pool has. */
  predicate InPool(cp: seq<Constant>, text: string) { exists i :: 0 <= i < |cp| && cp[i] == Utf8(text) }

  lemma {:induction false} ManyAre<T(!new)>(read: nat -> Read<T>, pos: nat, n: nat, good: T -> bool)
    requires Many(read, pos, n).Ok? && forall p: nat {:trigger read(p)} :: read(p).Ok? ==> good(read(p).value.0)
    ensures forall x :: x in Many(read, pos, n).value.0 ==> good(x)
    decreases n
  {
    if n > 0 { ManyAre(read, read(pos).value.1, n - 1, good); }
  }

  predicate FieldFromPool(cp: seq<Constant>, f: Field) { InPool(cp, f.name) && InPool(cp, f.signature) }

  predicate MethodFromPool(cp: seq<Constant>, m: Method) {
    InPool(cp, m.name) && InPool(cp, m.signature) && Signature.Nargs(m.signature) == Signature.Count(m.nargs)
  }

  lemma {:induction false} FieldsFromPool(file: seq<Byte>, pos: nat, cp: seq<Constant>)
    requires ReadAllFields(file, pos, cp).Ok?
    ensures forall f :: f in ReadAllFields(file, pos, cp).value.0 ==> FieldFromPool(cp, f)
  {
    hide U2, ReadAttributeTable;
    ManyAre(FieldsOf(file, cp), pos + 2, U2(file, pos).value, f => FieldFromPool(cp, f));
  }

  lemma {:induction false} MethodsFromPool(file: seq<Byte>, pos: nat, cp: seq<Constant>)
    requires ReadAllMethods(file, pos, cp).Ok?
    ensures forall m :: m in ReadAllMethods(file, pos, cp).value.0 ==> MethodFromPool(cp, m)
  {
    hide U2, ReadAttributeTable, Signature.Nargs;
    ManyAre(MethodsOf(file, cp), pos + 2, U2(file, pos).value, m => MethodFromPool(cp, m));
  }

  lemma {:induction false} TablesFromPool(file: seq<Byte>, pos: nat, cp: seq<Constant>)
    requires ReadTables(file, pos, cp).Ok?
    ensures var t := ReadTables(file, pos, cp).value.0;
            (forall f :: f in t.fields ==> FieldFromPool(cp, f)) && forall m :: m in t.methods ==> MethodFromPool(cp, m)
  {
    hide ReadInterfaces, ReadAllFields, ReadAllMethods, FieldFromPool, MethodFromPool;
    var p := ReadInterfaces(file, pos).value.1;
    FieldsFromPool(file, p, cp);
    MethodsFromPool(file, ReadAllFields(file, p, cp).value.1, cp);
  }

  /** Every name and signature of a parsed class is a string of its constant pool (with InternedPool, the
    * string that the class keeps is the one the string pool has for that text), and every method has the
    * count of its argument words.
    */
  lemma {:induction false} NamesComeFromThePool(file: seq<Byte>, skip: bool)
    requires ReadFile(file, skip).Ok?
    ensures var c := ReadFile(file, skip).value.0;
            && InPool(c.cp, c.name)
            && (forall f :: f in c.tables.fields ==> FieldFromPool(c.cp, f))
            && forall m :: m in c.tables.methods ==> MethodFromPool(c.cp, m)
  {
    hide ReadHead, ReadPool, ThreeHalves, ReadTables, FieldFromPool, MethodFromPool;
    TablesFromPool(file, ReadPool(file, 8, skip).value.1 + 6, ReadFile(file, skip).value.0.cp);
  }

  /** A constant as the resolver sees it; the string of a Utf8 entry is the pool's. */
  function EntryOf(c: Constant, str: CString?): Resolution.Entry
    requires c.Utf8? ==> str != null
  {
    match c
    case Unused => Resolution.Unused
    case Utf8(_) => Resolution.Utf8(str)
    case Integer(w) => Resolution.Number(w)
    case Float(w) => Resolution.Number(w)
    case Long(p) => Resolution.Number(Unsigned64(p))
    case Double(p) => Resolution.Number(Unsigned64(p))
    case ClassRef(n) => Resolution.ClassEntry(n)
    case StringRef(i) => Resolution.StringEntry(i)
    case FieldRef(k, m) => Resolution.Fieldref(k, m)
    case MethodRef(k, m) => Resolution.Methodref(k, m)
    case InterfaceMethodRef(k, m) => Resolution.InterfaceMethodref(k, m)
    case NameAndType(n, i) => Resolution.NameAndType(n, i)
  }

  function EntriesOf(cp: seq<Constant>, utf8: seq<CString?>): seq<Resolution.Entry>
    requires |utf8| == |cp| && forall i :: 0 <= i < |cp| && cp[i].Utf8? ==> utf8[i] != null
  {
    seq(|cp|, i requires 0 <= i < |cp| => EntryOf(cp[i], utf8[i]))
  }

  /** The resolver's entry by the tag in the file. */
  lemma {:induction false} EntriesByTag(b: seq<Byte>, at: nat, str: CString)
    requires at + 9 <= |b| && ReadConstant(b, at).Ok?
    ensures var e := EntryOf(ReadConstant(b, at).value.0, str);
            && (b[at] == 1 ==> e == Resolution.Utf8(str))
            && (b[at] == 3 || b[at] == 4 ==> e == Resolution.Number(W(b, at + 1)))
            && (b[at] == 5 || b[at] == 6 ==> e == Resolution.Number(0x1_0000_0000 * W(b, at + 1) + W(b, at + 5)))
            && (b[at] == 7 ==> e == Resolution.ClassEntry(H(b, at + 1)))
            && (b[at] == 8 ==> e == Resolution.StringEntry(H(b, at + 1)))
            && (b[at] == 9 ==> e == Resolution.Fieldref(H(b, at + 1), H(b, at + 3)))
            && (b[at] == 10 ==> e == Resolution.Methodref(H(b, at + 1), H(b, at + 3)))
            && (b[at] == 11 ==> e == Resolution.InterfaceMethodref(H(b, at + 1), H(b, at + 3)))
            && (b[at] == 12 ==> e == Resolution.NameAndType(H(b, at + 1), H(b, at + 3)))
  {
    hide U2, U4, W, H, CText, Bytes;
    ConstantTags(b, at);
  }

  class Parser {
    const file: seq<Byte>
    const strings: Pool
    var pos: nat
    var skip: bool               // second_double_or_long_part
    var target: Option<Site>     // c_attr_to_set
    var links: Shortcuts         // the c_attr of each method
    var name: CString?           // the name of the class
    var fieldNames: seq<Resolution.Member>    // name and signature of each field, as pointers
    var methodNames: seq<Resolution.Member>   // and of each method
    var utf8: seq<CString?>      // the str of each Utf8 entry of the constant pool

    /** The globals are as the class parsed before left them. */
    constructor (file: seq<Byte>, skip: bool, target: Option<Site>, strings: Pool)
      ensures this.file == file && pos == 0 && this.skip == skip && this.target == target && links == map[]
      ensures this.strings == strings
    {
      this.file, this.skip, this.target, this.strings := file, skip, target, strings;
      pos, links, utf8, name, fieldNames, methodNames := 0, map[], [], null, [], [];
    }

    method ReadE8() returns (r: Result<Byte, Problem>)
      modifies `pos
      ensures r == U1(file, old(pos)) && (r.Ok? ==> pos == old(pos) + 1 <= |file|)
    {
      if pos >= |file| {
        return Err(EndOfFile);
      }
      r := Ok(file[pos]);
      pos := pos + 1;
    }

    /** Two bytes at once, swapped. */
    method ReadE16() returns (r: Result<Half, Problem>)
      modifies `pos
      ensures r == U2(file, old(pos)) && (r.Ok? ==> pos == old(pos) + 2 <= |file|)
    {
      if pos + 2 > |file| {
        return Err(EndOfFile);
      }
      r := Ok(Join(file[pos], file[pos + 1]));
      pos := pos + 2;
    }

    method ReadE32() returns (r: Result<Word, Problem>)
      modifies `pos
      ensures r == U4(file, old(pos)) && (r.Ok? ==> pos == old(pos) + 4 <= |file|)
    {
      if pos + 4 > |file| {
        return Err(EndOfFile);
      }
      r := Ok(0x1_0000 * Join(file[pos], file[pos + 1]) + Join(file[pos + 2], file[pos + 3]));
      pos := pos + 4;
    }

    /** The loops that read a byte at a time. */
    method ReadBytes(n: nat) returns (r: Result<seq<Byte>, Problem>)
      modifies `pos
      ensures r == Bytes(file, old(pos), n) && (r.Ok? ==> pos == old(pos) + n)
    {
      var bytes: seq<Byte> := [];
      var i := 0;
      while i < n
        invariant i <= n && pos == old(pos) + i && (i == 0 || pos <= |file|)
        invariant i > 0 ==> bytes == file[old(pos)..pos]
        invariant i == 0 ==> bytes == []
      {
        var b :- ReadE8();
        bytes := bytes + [b];
        i := i + 1;
      }
      return Ok(bytes);
    }

    // ---- Constants ----

    /** A Utf8 constant: the string goes to the pool, and the entry gets the string the pool has. */
    method ParseUtf8() returns (r: Result<Constant, Problem>, str: CString?)
      requires strings.Valid()
      modifies `pos, strings, strings.place.Keys
      ensures strings.Valid() && fresh(strings.place.Keys - old(strings.place.Keys))
      ensures Grows(old(strings.contents), strings.contents)
      ensures r.Err? ==>
                || U2(file, old(pos)) == Err(r.error)
                || (U2(file, old(pos)).Ok? && Bytes(file, old(pos) + 2, U2(file, old(pos)).value) == Err(r.error))
      ensures r.Ok? ==> U2(file, old(pos)).Ok? && Bytes(file, old(pos) + 2, U2(file, old(pos)).value).Ok?
      ensures r.Ok? ==> pos == old(pos) + 2 + U2(file, old(pos)).value
      ensures r.Ok? ==> r.value == Utf8(CText(Bytes(file, old(pos) + 2, U2(file, old(pos)).value).value))
      ensures r.Ok? ==> str != null && r.value == Utf8(str.text) && Interned(str, strings.contents)
    {
      hide U2, Bytes, CText, Pool.Valid;
      str := null;
      var length :- ReadE16();
      var bytes :- ReadBytes(length);
      var own := new CString(CText(bytes));
      str := strings.AddString(own);
      r := Ok(Utf8(CText(bytes)));
    }

    /** parse_constant */
    method ParseConstant() returns (r: Result<Constant, Problem>, str: CString?)
      requires strings.Valid()
      modifies `pos, `skip, strings, strings.place.Keys
      ensures old(skip) ==> r == Ok(Unused) && pos == old(pos) && !skip
      ensures !old(skip) ==> r == Item(ReadConstant(file, old(pos)))
      ensures !old(skip) && r.Ok? ==> pos == ReadConstant(file, old(pos)).value.1 && skip == IsWide(r.value)
      ensures strings.Valid() && fresh(strings.place.Keys - old(strings.place.Keys))
      ensures Grows(old(strings.contents), strings.contents)
      ensures r.Ok? && r.value.Utf8? ==> str != null && str.text == r.value.text && Interned(str, strings.contents)
    {
      hide U2, U4, Bytes, CText, Pool.Valid;
      str := null;
      if skip {
        skip := false;
        return Ok(Unused), null;
      }
      var tag :- ReadE8();
      if tag == 1 {
        r, str := ParseUtf8();
      } else {
        r := ParseNumberOrIndex(tag);
      }
    }

    /** The other cases of the switch on the tag. */
    method ParseNumberOrIndex(tag: Byte) returns (r: Result<Constant, Problem>)
      requires 0 < pos <= |file| && file[pos - 1] == tag != 1 && !skip
      modifies `pos, `skip
      ensures r == Item(ReadConstant(file, old(pos) - 1)) && (r.Ok? ==> !r.value.Utf8?)
      ensures r.Ok? ==> pos == ReadConstant(file, old(pos) - 1).value.1 && skip == IsWide(r.value)
    {
      hide U2, U4, Bytes, CText;
      match tag {
        case 7 =>
          var n :- ReadE16();
          r := Ok(ClassRef(n));
        case 9 =>
          var k :- ReadE16();
          var m :- ReadE16();
          r := Ok(FieldRef(k, m));
        case 10 =>
          var k :- ReadE16();
          var m :- ReadE16();
          r := Ok(MethodRef(k, m));
        case 11 =>
          var k :- ReadE16();
          var m :- ReadE16();
          r := Ok(InterfaceMethodRef(k, m));
        case 8 =>
          var s :- ReadE16();
          r := Ok(StringRef(s));
        case 3 =>
          var w :- ReadE32();
          r := Ok(Integer(w));
        case 4 =>
          var w :- ReadE32();
          r := Ok(Float(w));
        case 5 =>
          var hi :- ReadE32();
          var lo :- ReadE32();
          skip := true;
          r := Ok(Long(Pair(lo, hi)));
        case 6 =>
          var hi :- ReadE32();
          var lo :- ReadE32();
          skip := true;
          r := Ok(Double(Pair(lo, hi)));
        case 12 =>
          var n :- ReadE16();
          var s :- ReadE16();
          r := Ok(NameAndType(n, s));
        case 2 =>
          r := Err(UnicodeConstant);
        case _ =>
          r := Err(BadConstantTag(tag));
      }
    }

    /** parse_constant_pool */
    method ParseConstantPool() returns (r: Result<seq<Constant>, Problem>)
      requires strings.Valid()
      modifies `pos, `skip, `utf8, strings, strings.place.Keys
      ensures ReadPool(file, old(pos), old(skip)).Err? ==> r == Err(ReadPool(file, old(pos), old(skip)).error)
      ensures ReadPool(file, old(pos), old(skip)).Ok? ==>
                r.Ok? && ReadPool(file, old(pos), old(skip)).value == (r.value, pos, skip)
      ensures strings.Valid() && fresh(strings.place.Keys - old(strings.place.Keys))
      ensures Grows(old(strings.contents), strings.contents)
      ensures r.Ok? ==> InternedPool(r.value, utf8, strings.contents)
    {
      hide ReadConstant, U2, Pool.Valid, Grows, InternedPool;
      GrowsTwice(strings.contents, strings.contents, strings.contents);
      utf8 := [];
      NoneInterned(strings.contents);
      var count :- ReadE16();
      if count == 0 {
        return Ok([]);
      }
      var cp := [Unused];
      utf8 := [null];
      OneMoreInterned([], [], strings.contents, Unused, null, strings.contents);
      assert [] + [Unused] == cp && [] + [null] == utf8;
      var i: nat := 1;
      while i < count
        invariant 1 <= i <= count && |cp| == i
        invariant PrependFlagged(cp, Entries(ConstantsOf(file), pos, skip, count - i)) ==
                  ReadPool(file, old(pos), old(skip))
        invariant strings.Valid() && fresh(strings.place.Keys - old(strings.place.Keys))
        invariant Grows(old(strings.contents), strings.contents) && InternedPool(cp, utf8, strings.contents)
      {
        ghost var before := strings.contents;
        var c, str := ParseConstant();
        GrowsTwice(old(strings.contents), before, strings.contents);
        if c.Err? {
          return Err(c.error);
        }
        OneMoreInterned(cp, utf8, before, c.value, str, strings.contents);
        assert forall rest: seq<Constant> :: cp + ([c.value] + rest) == (cp + [c.value]) + rest;
        cp := cp + [c.value];
        utf8 := utf8 + [str];
        i := i + 1;
      }
      assert cp + [] == cp;
      return Ok(cp);
    }

    // ---- Attributes ----

    /** parse_attribute, into the place that the caller set aside for it. */
    method ParseAttribute(at: Place, cp: seq<Constant>) returns (r: Result<Attribute, Problem>)
      modifies `pos, `links
      ensures r == Item(ReadAttribute(file, old(pos), cp))
      ensures r.Ok? ==> pos == ReadAttribute(file, old(pos), cp).value.1
      ensures r.Ok? ==> links == Patched(old(links), target, LastCode(at, r.value))
      decreases Ahead(file, pos), 0
    {
      hide ReadCode, U2, U4;
      var name :- ReadE16();
      var length :- ReadE32();
      if name >= |cp| {
        return Err(Undefined);
      }
      if !cp[name].Utf8? {
        return Err(BadAttributeName);
      }
      if cp[name].text == "ConstantValue" {
        var v :- ReadE16();
        r := Ok(ConstantValue(name, length, v));
      } else if cp[name].text == "Code" {
        r := ParseCode(at, cp, name, length);
      } else if length < 0x8000_0000 {
        pos := pos + length;
        r := Ok(Other(name, length, []));
      } else {
        r := Err(Undefined);
      }
    }

    /** parse_Code_attribute */
    method ParseCode(at: Place, cp: seq<Constant>, name: Half, length: Word) returns (r: Result<Attribute, Problem>)
      modifies `pos, `links
      ensures r == Item(ReadCode(file, old(pos), cp, name, length))
      ensures r.Ok? ==> pos == ReadCode(file, old(pos), cp, name, length).value.1
      ensures r.Ok? ==> links == Patched(old(links), target, LastCode(at, r.value))
      decreases Ahead(file, pos), 3
    {
      hide ReadAttributes, U2, U4, Bytes;
      if target.Some? {
        links := links[target.value := at];
      }
      var stack :- ReadE16();
      var locals :- ReadE16();
      var size :- ReadE32();
      var code :- ReadBytes(size);
      var handlers :- ReadE16();
      var rows: nat := handlers;
      pos := pos + 8 * rows;
      var count :- ReadE16();
      var atts :- ParseAttributes(at, cp, count);
      return Ok(Code(name, length, stack, locals, code, handlers, [], atts));
    }

    /** The loops that parse a table of attributes. */
    method ParseAttributes(at: Place, cp: seq<Constant>, n: nat) returns (r: Result<seq<Attribute>, Problem>)
      modifies `pos, `links
      ensures r == Item(ReadAttributes(file, old(pos), cp, n))
      ensures r.Ok? ==> pos == ReadAttributes(file, old(pos), cp, n).value.1
      ensures r.Ok? ==> links == Patched(old(links), target, LastIn(at, r.value))
      decreases Ahead(file, pos), 1
    {
      hide ReadAttribute;
      var atts: seq<Attribute> := [];
      assert forall rest: seq<Attribute> :: atts + rest == rest;
      var i: nat := 0;
      while i < n
        invariant i <= n && |atts| == i && old(pos) <= pos && (i > 0 ==> old(pos) < pos && old(pos) < |file|)
        invariant Prepend(atts, ReadAttributes(file, pos, cp, n - i)) == ReadAttributes(file, old(pos), cp, n)
        invariant links == Patched(old(links), target, LastIn(at, atts))
      {
        var a :- ParseAttribute(at.Item(i), cp);
        assert forall rest: seq<Attribute> :: atts + ([a] + rest) == (atts + [a]) + rest;
        assert (atts + [a])[..i] == atts;
        atts := atts + [a];
        i := i + 1;
      }
      assert atts + [] == atts;
      return Ok(atts);
    }

    // ---- Fields, methods, the class ----

    /** parse_field */
    method ParseField(index: nat, cp: seq<Constant>) returns (r: Result<Field, Problem>)
      requires InternedPool(cp, utf8, strings.contents)
      modifies `pos, `links, `fieldNames
      ensures r == Item(ReadField(file, old(pos), cp))
      ensures r.Ok? ==> pos == ReadField(file, old(pos), cp).value.1
      ensures r.Ok? ==> links == Patched(old(links), target, LastIn(Place(FieldAt(index), []), r.value.attributes))
      ensures r.Ok? ==> |fieldNames| == |old(fieldNames)| + 1 && fieldNames[..|old(fieldNames)|] == old(fieldNames)
      ensures r.Ok? ==> HasNames(fieldNames[|old(fieldNames)|], r.value.name, r.value.signature, strings.contents)
    {
      hide ReadAttributes, U2;
      var access :- ReadE16();
      var n :- ReadE16();
      var s :- ReadE16();
      var name :- TextAt(cp, n);
      var signature :- TextAt(cp, s);
      fieldNames := fieldNames + [Resolution.Member(utf8[n], utf8[s])];
      var count :- ReadE16();
      var atts :- ParseAttributes(Place(FieldAt(index), []), cp, count);
      return Ok(Field(access, name, signature, atts));
    }

    /** parse_method: from here on, Code attributes are linked to this method. */
    method ParseMethod(index: nat, cp: seq<Constant>) returns (r: Result<Method, Problem>)
      requires InternedPool(cp, utf8, strings.contents)
      modifies `pos, `links, `target, `methodNames
      ensures r == Item(ReadMethod(file, old(pos), cp))
      ensures r.Ok? ==> pos == ReadMethod(file, old(pos), cp).value.1 && target == Some(Of(index))
      ensures r.Ok? ==> links == Patched(old(links), target, LastIn(Place(MethodAt(index), []), r.value.attributes))
      ensures r.Ok? ==> |methodNames| == |old(methodNames)| + 1 && methodNames[..|old(methodNames)|] == old(methodNames)
      ensures r.Ok? ==> HasNames(methodNames[|old(methodNames)|], r.value.name, r.value.signature, strings.contents)
    {
      hide ReadAttributes, U2;
      var access :- ReadE16();
      var n :- ReadE16();
      var s :- ReadE16();
      var name :- TextAt(cp, n);
      var signature :- TextAt(cp, s);
      methodNames := methodNames + [Resolution.Member(utf8[n], utf8[s])];
      var scanned := Signature.CalculateNargs(signature);
      var nargs :- Scanned(scanned);
      target := Some(Of(index));
      var count :- ReadE16();
      var atts :- ParseAttributes(Place(MethodAt(index), []), cp, count);
      return Ok(Method(access, name, signature, nargs, atts));
    }

    /** parse_interfaces */
    method ParseInterfaces() returns (r: Result<seq<Half>, Problem>)
      modifies `pos
      ensures r == Item(ReadInterfaces(file, old(pos)))
      ensures r.Ok? ==> pos == ReadInterfaces(file, old(pos)).value.1
    {
      hide U2;
      var n :- ReadE16();
      var items: seq<Half> := [];
      assert forall rest: seq<Half> :: items + rest == rest;
      var i: nat := 0;
      while i < n
        invariant i <= n && |items| == i
        invariant Prepend(items, Many(HalvesOf(file), pos, n - i)) == ReadInterfaces(file, old(pos))
      {
        var h :- ReadE16();
        assert forall rest: seq<Half> :: items + ([h] + rest) == (items + [h]) + rest;
        items := items + [h];
        i := i + 1;
      }
      assert items + [] == items;
      return Ok(items);
    }

    /** parse_fields */
    method ParseFields(cp: seq<Constant>) returns (r: Result<seq<Field>, Problem>)
      requires InternedPool(cp, utf8, strings.contents)
      modifies `pos, `links, `fieldNames
      ensures r == Item(ReadAllFields(file, old(pos), cp))
      ensures r.Ok? ==> pos == ReadAllFields(file, old(pos), cp).value.1
      ensures r.Ok? ==> links == AfterFields(old(links), target, r.value)
      ensures r.Ok? ==> FieldsNamed(fieldNames, r.value, strings.contents)
    {
      hide U2, ReadField, InternedPool;
      fieldNames := [];
      var n :- ReadE16();
      var items: seq<Field> := [];
      assert forall rest: seq<Field> :: items + rest == rest;
      var i: nat := 0;
      while i < n
        invariant i <= n && |items| == i
        invariant Prepend(items, Many(FieldsOf(file, cp), pos, n - i)) == ReadAllFields(file, old(pos), cp)
        invariant FieldsNamed(fieldNames, items, strings.contents)
        invariant links == AfterFields(old(links), target, items)
      {
        var f :- ParseField(i, cp);
        assert forall rest: seq<Field> :: items + ([f] + rest) == (items + [f]) + rest;
        assert (items + [f])[..i] == items;
        items := items + [f];
        i := i + 1;
      }
      assert items + [] == items;
      return Ok(items);
    }

    /** parse_methods */
    method ParseMethods(cp: seq<Constant>) returns (r: Result<seq<Method>, Problem>)
      requires InternedPool(cp, utf8, strings.contents)
      modifies `pos, `links, `target, `methodNames
      ensures r == Item(ReadAllMethods(file, old(pos), cp))
      ensures r.Ok? ==> pos == ReadAllMethods(file, old(pos), cp).value.1
      ensures r.Ok? ==> links == AfterMethods(old(links), r.value) && target == TargetAfter(old(target), r.value)
      ensures r.Ok? ==> MethodsNamed(methodNames, r.value, strings.contents)
    {
      hide U2, ReadMethod, InternedPool;
      methodNames := [];
      var n :- ReadE16();
      var items: seq<Method> := [];
      assert forall rest: seq<Method> :: items + rest == rest;
      var i: nat := 0;
      while i < n
        invariant i <= n && |items| == i
        invariant Prepend(items, Many(MethodsOf(file, cp), pos, n - i)) == ReadAllMethods(file, old(pos), cp)
        invariant MethodsNamed(methodNames, items, strings.contents)
        invariant links == AfterMethods(old(links), items) && target == TargetAfter(old(target), items)
      {
        var m :- ParseMethod(i, cp);
        assert forall rest: seq<Method> :: items + ([m] + rest) == (items + [m]) + rest;
        assert (items + [m])[..i] == items;
        items := items + [m];
        i := i + 1;
      }
      assert items + [] == items;
      return Ok(items);
    }

    /** The four tables of parse_file. */
    method ParseTables(cp: seq<Constant>) returns (r: Result<Tables, Problem>)
      requires InternedPool(cp, utf8, strings.contents)
      modifies `pos, `links, `target, `fieldNames, `methodNames
      ensures r == Item(ReadTables(file, old(pos), cp))
      ensures r.Ok? ==> pos == ReadTables(file, old(pos), cp).value.1
      ensures r.Ok? ==> links == AfterClass(old(links), old(target), r.value)
      ensures r.Ok? ==> FieldsNamed(fieldNames, r.value.fields, strings.contents)
      ensures r.Ok? ==> MethodsNamed(methodNames, r.value.methods, strings.contents)
    {
      hide ReadInterfaces, ReadAllFields, ReadAllMethods, ReadAttributes, U2, InternedPool, FieldsNamed, MethodsNamed;
      var interfaces :- ParseInterfaces();
      var fields :- ParseFields(cp);
      var methods :- ParseMethods(cp);
      var count :- ReadE16();
      var atts :- ParseAttributes(Place(TheClass, []), cp, count);
      return Ok(Tables(interfaces, fields, methods, atts));
    }

    /** The magic number and the versions. */
    method ParseHead() returns (r: Result<(Half, Half), Problem>)
      requires pos == 0
      modifies `pos
      ensures r == ReadHead(file) && (r.Ok? ==> pos == 8)
    {
      hide U2, U4;
      var magic :- ReadE32();
      if magic != MAGIC && magic != SWAPPED_MAGIC {
        return Err(BadMagic);
      }
      var minor :- ReadE16();
      var major :- ReadE16();
      return Ok((minor, major));
    }

    /** parse_file: what it returns, where it stops, and how it leaves the flag and the shortcuts. */
    method ParseFile() returns (r: Result<Class, Problem>)
      requires pos == 0 && strings.Valid()
      modifies `pos, `skip, `target, `links, `utf8, `name, `fieldNames, `methodNames, strings, strings.place.Keys
      ensures ReadFile(file, old(skip)).Err? ==> r == Err(ReadFile(file, old(skip)).error)
      ensures ReadFile(file, old(skip)).Ok? ==> r.Ok? && ReadFile(file, old(skip)).value == (r.value, pos, skip)
      ensures r.Ok? ==> links == AfterClass(old(links), old(target), r.value.tables)
      ensures strings.Valid() && fresh(strings.place.Keys - old(strings.place.Keys))
      ensures Grows(old(strings.contents), strings.contents)
      ensures r.Ok? ==> Complete(r.value)
    {
      hide ReadHead, ReadPool, ReadTables, ClassName, U2, Pool.Valid, Grows, InternedPool, Interned, AfterClass,
        FieldsNamed, MethodsNamed;
      GrowsTwice(strings.contents, strings.contents, strings.contents);
      var versions :- ParseHead();
      var cp :- ParseConstantPool();
      var access :- ReadE16();
      var thisClass :- ReadE16();
      var superClass :- ReadE16();
      var tables :- ParseTables(cp);
      var text :- ClassName(cp, thisClass);
      InternName(cp, thisClass);
      return Ok(Class(versions.0, versions.1, cp, access, thisClass, superClass, tables, text));
    }

    /** The class takes its name from the pool of strings again. */
    method InternName(cp: seq<Constant>, i: Half)
      requires ClassName(cp, i).Ok? && strings.Valid() && InternedPool(cp, utf8, strings.contents)
      modifies `name, strings, strings.place.Keys
      ensures strings.Valid() && fresh(strings.place.Keys - old(strings.place.Keys))
              && strings.contents == old(strings.contents)
      ensures name != null && name.text == ClassName(cp, i).value && Interned(name, strings.contents)
    {
      hide Pool.Valid;
      var str := utf8[cp[i].nameIndex];
      name := strings.AddString(str);
    }

    /** What the parser keeps of a class it has parsed: every pointer is the string pool's own string. */
    ghost predicate Complete(c: Class)
      reads this, strings
    {
      && InternedPool(c.cp, utf8, strings.contents)
      && name != null && name.text == c.name && Interned(name, strings.contents)
      && FieldsNamed(fieldNames, c.tables.fields, strings.contents)
      && MethodsNamed(methodNames, c.tables.methods, strings.contents)
    }

    /** The class file structure that parse_file returns, a ring of its own. */
    method MakeClassFile(c: Class) returns (cf: Resolution.ClassFile)
      requires Complete(c)
      ensures fresh(cf) && fresh(cf.cp) && cf.next == cf && cf.name.text == c.name
      ensures Resolution.InternedClass(cf, strings.contents)
      ensures cf.cp[..] == cf.parsed == EntriesOf(c.cp, utf8)
      ensures FieldsNamed(cf.fields, c.tables.fields, strings.contents)
      ensures MethodsNamed(cf.methods, c.tables.methods, strings.contents)
    {
      cf := new Resolution.ClassFile(name, methodNames, fieldNames, EntriesOf(c.cp, utf8));
    }

    /** load_class, once the file is read: what the resolver asks of a loaded class, provided that the indices
      * of its constant pool are right, which the code does not check.
      */
    method Load(ghost ring: seq<Resolution.ClassFile>) returns (r: Result<Resolution.ClassFile, Problem>)
      requires pos == 0 && strings.Valid()
      modifies `pos, `skip, `target, `links, `utf8, `name, `fieldNames, `methodNames, strings, strings.place.Keys
      ensures strings.Valid() && Grows(old(strings.contents), strings.contents)
      ensures r.Ok? <==> ReadFile(file, old(skip)).Ok?
      ensures r.Ok? && Resolution.WellFormed(r.value.parsed) ==>
                Resolution.Loadable(r.value, ReadFile(file, old(skip)).value.0.name, ring, strings.contents)
    {
      hide ReadFile, Pool.Valid, Grows, Resolution.WellFormed, Resolution.InternedClass, InternedPool, EntriesOf,
        FieldsNamed, MethodsNamed, Interned, AfterClass;
      var c :- ParseFile();
      var cf := MakeClassFile(c);
      return Ok(cf);
    }
  }
}
