/** Lazy resolution of constant-pool entries and the ring of loaded classes (src/resolve.c and the ring
  * code of src/parser.c).
  */
module Resolution {
  import opened Wrappers
  import opened StringPool

  /** A field or method as far as a search looks at it. */
  datatype Member = Member(name: CString, signature: CString)

  /** cp_info: the tag is the constructor; resolving an entry overwrites both. */
  datatype Entry =
    | Unused
    | Utf8(str: CString)
    | Number(bits: nat)
    | ClassEntry(nameIndex: nat)
    | ResolvedClass(cls: ClassFile)
    | NameAndType(nameIndex: nat, signatureIndex: nat)
    | ResolvedNameAndType(name: CString, signature: CString)
    | Methodref(classIndex: nat, memberIndex: nat)
    | ResolvedMethodref(cls: ClassFile, index: nat)
    | Fieldref(classIndex: nat, memberIndex: nat)
    | ResolvedFieldref(cls: ClassFile, index: nat)
    | InterfaceMethodref(classIndex: nat, memberIndex: nat)
    | StringEntry(stringIndex: nat)
    | ResolvedString(str: CString)

  /** The IS_RESOLVED bit of the tag. */
  predicate IsResolved(e: Entry) {
    e.Utf8? || e.Number? || e.ResolvedClass? || e.ResolvedNameAndType? || e.ResolvedMethodref? || e.ResolvedFieldref? ||
    e.ResolvedString?
  }

  class ClassFile {
    const name: CString
    const methods: seq<Member>
    const fields: seq<Member>
    const cp: array<Entry>
    ghost const parsed: seq<Entry>   // the constant pool as it was parsed
    var next: ClassFile

    constructor (name: CString, methods: seq<Member>, fields: seq<Member>, entries: seq<Entry>)
      ensures this.name == name && this.methods == methods && this.fields == fields
      ensures fresh(cp) && cp[..] == parsed == entries && next == this
    {
      this.name, this.methods, this.fields := name, methods, fields;
      var a := new Entry[|entries|](i requires 0 <= i < |entries| => entries[i]);
      cp, parsed, next := a, entries, this;
    }
  }

  /** The indices of a constant pool lead to entries of the right kind (JVMS 4.4). */
  ghost predicate WellFormed(o: seq<Entry>) {
    forall i :: 0 <= i < |o| ==> WellFormedEntry(o, o[i])
  }

  ghost predicate WellFormedEntry(o: seq<Entry>, e: Entry) {
    match e
    case ClassEntry(n) => HasStr(o, n)
    case NameAndType(n, s) => HasStr(o, n) && HasStr(o, s)
    case Methodref(c, m) => HasClass(o, c) && HasNameAndType(o, m)
    case Fieldref(c, m) => HasClass(o, c) && HasNameAndType(o, m)
    case StringEntry(s) => HasStr(o, s)
    case _ => e.Unused? || e.Utf8? || e.Number? || e.InterfaceMethodref?
  }

  ghost predicate HasStr(o: seq<Entry>, i: nat) { i < |o| && o[i].Utf8? }

  ghost predicate HasClass(o: seq<Entry>, i: nat) { i < |o| && o[i].ClassEntry? && HasStr(o, o[i].nameIndex) }

  ghost predicate HasNameAndType(o: seq<Entry>, i: nat) {
    i < |o| && o[i].NameAndType? && HasStr(o, o[i].nameIndex) && HasStr(o, o[i].signatureIndex)
  }

  // ---- The reference: lookup by content ----

  ghost function Find(ring: seq<ClassFile>, text: string): Option<ClassFile> {
    if ring == [] then None else if ring[0].name.text == text then Some(ring[0]) else Find(ring[1..], text)
  }

  ghost function FirstMember(members: seq<Member>, name: string, signature: string): (r: Option<nat>)
    ensures r.Some? ==> r.value < |members|
  {
    if members == [] then None
    else if members[0].name.text == name && members[0].signature.text == signature then Some(0)
    else match FirstMember(members[1..], name, signature)
      case None => None
      case Some(i) => Some(i + 1)
  }

  /** What resolving entry i of a pool means (JVMS 5.4.3): a fresh lookup by name over the classes of the
    * ring, which gives the resolved entry, or the entry itself when there is no such class or member.
    */
  ghost function Lookup(o: seq<Entry>, ring: seq<ClassFile>, i: nat): Entry
    requires WellFormed(o) && i < |o|
  {
    assert WellFormedEntry(o, o[i]);
    match o[i]
    case ClassEntry(n) =>
      (match Find(ring, o[n].str.text)
       case None => o[i]
       case Some(c) => ResolvedClass(c))
    case NameAndType(n, s) => ResolvedNameAndType(o[n].str, o[s].str)
    case Methodref(ci, m) =>
      (match Find(ring, o[o[ci].nameIndex].str.text)
       case None => o[i]
       case Some(c) =>
         match FirstMember(c.methods, o[o[m].nameIndex].str.text, o[o[m].signatureIndex].str.text)
         case None => o[i]
         case Some(k) => ResolvedMethodref(c, k))
    case Fieldref(ci, m) =>
      (match Find(ring, o[o[ci].nameIndex].str.text)
       case None => o[i]
       case Some(c) =>
         match FirstMember(c.fields, o[o[m].nameIndex].str.text, o[o[m].signatureIndex].str.text)
         case None => o[i]
         case Some(k) => ResolvedFieldref(c, k))
    case StringEntry(s) => ResolvedString(o[s].str)
    case _ => o[i]
  }

  ghost predicate DistinctNames(ring: seq<ClassFile>) {
    forall i, j :: 0 <= i < j < |ring| ==> ring[i].name.text != ring[j].name.text
  }

  /** The lookup finds the class of a name, whatever the order of the ring. */
  lemma {:induction false} FindsTheClass(ring: seq<ClassFile>, c: ClassFile)
    requires c in ring && DistinctNames(ring)
    ensures Find(ring, c.name.text) == Some(c)
  {
    if ring[0] != c {
      var i :| 0 <= i < |ring| && ring[i] == c;
      assert ring[1..][i - 1] == c;
      assert ring[0].name.text != ring[i].name.text;
      FindsTheClass(ring[1..], c);
    }
  }

  lemma {:induction false} FindSpec(ring: seq<ClassFile>, text: string)
    ensures Find(ring, text).Some? ==> Find(ring, text).value in ring && Find(ring, text).value.name.text == text
    ensures Find(ring, text).None? ==> forall c :: c in ring ==> c.name.text != text
  {
    if ring != [] {
      FindSpec(ring[1..], text);
      assert ring == [ring[0]] + ring[1..];
    }
  }

  lemma {:induction false} FirstMemberSpec(members: seq<Member>, name: string, signature: string, i: nat)
    requires forall k :: 0 <= k < i <= |members| ==>
             members[k].name.text != name || members[k].signature.text != signature
    requires i <= |members|
    requires i < |members| ==> members[i].name.text == name && members[i].signature.text == signature
    ensures FirstMember(members, name, signature) == if i < |members| then Some(i) else None
  {
    if i > 0 {
      forall k | 0 <= k < i - 1
        ensures members[1..][k].name.text != name || members[1..][k].signature.text != signature
      {
        assert members[1..][k] == members[k + 1];
      }
      FirstMemberSpec(members[1..], name, signature, i - 1);
    }
  }

  /** Once a lookup succeeds it gives the same for ever: the ring only grows and names stay distinct. */
  lemma {:induction false} LookupIsStable(o: seq<Entry>, ring: seq<ClassFile>, grown: seq<ClassFile>, i: nat)
    requires WellFormed(o) && i < |o| && DistinctNames(grown)
    requires forall c :: c in ring ==> c in grown
    requires IsResolved(Lookup(o, ring, i))
    ensures Lookup(o, grown, i) == Lookup(o, ring, i)
  {
    assert WellFormedEntry(o, o[i]);
    if o[i].ClassEntry? || o[i].Methodref? || o[i].Fieldref? {
      var text := if o[i].ClassEntry? then o[o[i].nameIndex].str.text else o[o[o[i].classIndex].nameIndex].str.text;
      FindSpec(ring, text);
      FindsTheClass(grown, Find(ring, text).value);
    }
  }

  // ---- Interning makes a comparison of pointers a comparison of contents ----

  ghost predicate InternedMembers(members: seq<Member>, contents: map<string, CString>) {
    forall i :: 0 <= i < |members| ==> Interned(members[i].name, contents) && Interned(members[i].signature, contents)
  }

  /** Every name the parser hands out comes from add_string. */
  ghost predicate InternedClass(c: ClassFile, contents: map<string, CString>) {
    && Interned(c.name, contents)
    && InternedMembers(c.methods, contents) && InternedMembers(c.fields, contents)
    && forall i :: 0 <= i < |c.parsed| && c.parsed[i].Utf8? ==> Interned(c.parsed[i].str, contents)
  }

  /** Loading more classes only adds strings, so what was interned stays interned. */
  lemma {:induction false} InternedStays(c: ClassFile, contents: map<string, CString>, adds: seq<CString>)
    requires InternedClass(c, contents) && Named(contents)
    ensures InternedClass(c, AddedAll(contents, adds))
  {
    AddingKeeps(contents, adds, 0);
    assert adds[..0] == [];
  }

  // ---- The ring ----

  function After(n: nat, i: nat): nat { if i + 1 < n then i + 1 else 0 }

  ghost predicate Ring(ring: seq<ClassFile>)
    reads ring
  {
    ring != [] && DistinctNames(ring) && forall i :: 0 <= i < |ring| ==> Leads(ring, i)
  }

  ghost predicate Leads(ring: seq<ClassFile>, i: nat)
    reads ring
    requires i < |ring|
  {
    ring[i].next == ring[After(|ring|, i)]
  }

  /** One class against the ring: each entry is as it was parsed or is what a fresh lookup gives. */
  ghost predicate Coherent(c: ClassFile, ring: seq<ClassFile>)
    reads c.cp
  {
    && c.cp.Length == |c.parsed| && WellFormed(c.parsed)
    && forall i :: 0 <= i < |c.parsed| ==> CoherentEntry(c.cp[i], c.parsed, ring, i)
  }

  ghost predicate CoherentEntry(e: Entry, o: seq<Entry>, ring: seq<ClassFile>, i: nat)
    requires WellFormed(o) && i < |o|
  {
    e == o[i] || (IsResolved(e) && e == Lookup(o, ring, i))
  }

  ghost predicate Valid(ring: seq<ClassFile>, contents: map<string, CString>)
    reads ring, set c | c in ring :: c.cp
  {
    && Ring(ring)
    && (forall c :: c in ring ==> InternedClass(c, contents) && Coherent(c, ring))
    && forall c, d :: c in ring && d in ring && c != d ==> c.cp != d.cp
  }

  /** The places passed on the way round from k to j. */
  predicate Passed(k: nat, j: nat, i: nat) { if k <= j then k <= i <= j else k <= i || i <= j }

  /** The classes still ahead on the way round from k. */
  function Left(n: nat, k: nat, j: nat): nat
    requires k < n && j < n
  {
    if k <= j then n - 1 - j + k else k - 1 - j
  }

  /** The search of resolve_class: the class itself, then once round the ring; compares pointers. */
  method Search(curr: ClassFile, name: CString, ghost ring: seq<ClassFile>, ghost k: nat,
                ghost contents: map<string, CString>) returns (r: ClassFile?)
    requires Valid(ring, contents) && Interned(name, contents) && k < |ring| && ring[k] == curr
    ensures r == match Find(ring, name.text) case Some(c) => c case None => null
  {
    if curr.name == name {
      FindsTheClass(ring, curr);
      return curr;
    }
    var clas := curr.next;
    ghost var j: nat := k;
    assert Leads(ring, j);
    while clas != curr
      invariant j < |ring| && clas == ring[After(|ring|, j)]
      invariant forall i {:trigger ring[i]} :: 0 <= i < |ring| && Passed(k, j, i) ==> ring[i].name != name
      decreases Left(|ring|, k, j)
    {
      if clas.name == name {
        FindsTheClass(ring, clas);
        return clas;
      }
      j := After(|ring|, j);
      assert Leads(ring, j);
      clas := clas.next;
    }
    FindSpec(ring, name.text);
    return null;
  }

  ghost function Linked(ring: seq<ClassFile>, k: nat, c: ClassFile): seq<ClassFile>
    requires k < |ring|
  {
    ring[..k + 1] + [c] + ring[k + 1..]
  }

  /** A ring with one more class behind place k has the old classes and the new one, names still distinct. */
  lemma {:induction false} LinkedNames(ring: seq<ClassFile>, k: nat, c: ClassFile)
    requires k < |ring| && DistinctNames(ring) && Find(ring, c.name.text).None?
    ensures DistinctNames(Linked(ring, k, c)) && multiset(Linked(ring, k, c)) == multiset(ring) + multiset{c}
  {
    FindSpec(ring, c.name.text);
    var grown := Linked(ring, k, c);
    assert ring == ring[..k + 1] + ring[k + 1..];
    forall i, j | 0 <= i < j < |grown| ensures grown[i].name.text != grown[j].name.text {
      if j != k + 1 {
        assert grown[j] == ring[if j <= k then j else j - 1];
        if i != k + 1 { assert grown[i] == ring[if i <= k then i else i - 1]; }
      } else {
        assert grown[i] == ring[i];
      }
    }
  }

  /** link_class, and the same two assignments at the end of resolve_class. */
  method Link(any: ClassFile, c: ClassFile, ghost ring: seq<ClassFile>, ghost k: nat)
    requires Ring(ring) && k < |ring| && ring[k] == any && c !in ring && Find(ring, c.name.text).None?
    modifies any`next, c`next
    ensures Ring(Linked(ring, k, c)) && any.next == c && c.next == old(any.next)
  {
    ghost var grown := Linked(ring, k, c);
    LinkedNames(ring, k, c);
    assert Leads(ring, k);
    c.next := any.next;
    any.next := c;
    forall i | 0 <= i < |grown| ensures Leads(grown, i) {
      if i < k { assert old(Leads(ring, i)) && ring[i] != any; }
      if i > k + 1 { assert old(Leads(ring, i - 1)) && ring[i - 1] != any; }
    }
  }

  // ---- Resolving ----

  /** What load_class gives for a name: a parsed class of that name, a ring of its own, or nothing when it
    * fails and the program exits.
    */
  ghost predicate Loadable(c: ClassFile, text: string, ring: seq<ClassFile>, contents: map<string, CString>)
    reads c, c.cp
  {
    && c !in ring && c.name.text == text && InternedClass(c, contents)
    && WellFormed(c.parsed) && c.cp[..] == c.parsed
    && forall d :: d in ring ==> d.cp != c.cp
  }

  /** The ring after a name was looked for: unchanged if it has the class, else with the loaded one behind
    * the class that asked.
    */
  ghost function Grown(ring: seq<ClassFile>, k: nat, text: string, loaded: ClassFile?): seq<ClassFile>
    requires k < |ring|
  {
    if Find(ring, text).Some? || loaded == null then ring else Linked(ring, k, loaded)
  }

  ghost function NameOf(c: ClassFile, index: nat): string
    requires WellFormed(c.parsed) && index < |c.parsed| && c.parsed[index].ClassEntry?
  {
    assert WellFormedEntry(c.parsed, c.parsed[index]);
    c.parsed[c.parsed[index].nameIndex].str.text
  }

  /** A ring that grew keeps what its classes had resolved. */
  lemma {:induction false} CoherenceStays(c: ClassFile, ring: seq<ClassFile>, grown: seq<ClassFile>)
    requires Coherent(c, ring) && DistinctNames(grown) && forall d :: d in ring ==> d in grown
    ensures Coherent(c, grown)
  {
    forall i | 0 <= i < |c.parsed| ensures CoherentEntry(c.cp[i], c.parsed, grown, i) {
      assert CoherentEntry(c.cp[i], c.parsed, ring, i);
      if c.cp[i] != c.parsed[i] { LookupIsStable(c.parsed, ring, grown, i); }
    }
  }

  /** Linking a loaded class keeps the invariant. */
  method LinkLoaded(curr: ClassFile, loaded: ClassFile, ghost ring: seq<ClassFile>, ghost k: nat,
                    ghost contents: map<string, CString>)
    requires Valid(ring, contents) && k < |ring| && ring[k] == curr
    requires Loadable(loaded, loaded.name.text, ring, contents) && Find(ring, loaded.name.text).None?
    modifies curr`next, loaded`next
    ensures Valid(Linked(ring, k, loaded), contents)
  {
    Link(curr, loaded, ring, k);
    ghost var grown := Linked(ring, k, loaded);
    forall c | c in grown ensures Coherent(c, grown) && InternedClass(c, contents) {
      if c != loaded {
        assert old(Coherent(c, ring));
        CoherenceStays(c, ring, grown);
      }
    }
  }

  /** Overwriting an entry by what a fresh lookup gives keeps the invariant. */
  method Overwrite(c: ClassFile, index: nat, e: Entry, ghost ring: seq<ClassFile>, ghost contents: map<string, CString>)
    requires Valid(ring, contents) && c in ring && index < |c.parsed|
    requires IsResolved(e) && e == Lookup(c.parsed, ring, index)
    modifies c.cp
    ensures Valid(ring, contents)
    ensures c.cp[..] == old(c.cp[..])[index := e]
  {
    c.cp[index] := e;
    forall d | d in ring ensures Coherent(d, ring) {
      assert old(Coherent(d, ring));
      forall i | 0 <= i < |d.parsed| ensures CoherentEntry(d.cp[i], d.parsed, ring, i) {
        assert old(CoherentEntry(d.cp[i], d.parsed, ring, i));
      }
    }
  }

  /** resolve_class: the class of a name. A null result is the exit of load_class. */
  method ResolveClass(curr: ClassFile, index: nat, loaded: ClassFile?,
                      ghost ring: seq<ClassFile>, ghost k: nat, ghost contents: map<string, CString>)
    returns (r: ClassFile?, ghost grown: seq<ClassFile>)
    requires Valid(ring, contents) && k < |ring| && ring[k] == curr && Coherent(curr, ring)
    requires index < |curr.parsed| && curr.parsed[index].ClassEntry? && curr.cp[index] == curr.parsed[index]
    requires loaded != null ==> Loadable(loaded, NameOf(curr, index), ring, contents)
    modifies curr.cp, curr`next, loaded
    ensures Valid(grown, contents) && grown == Grown(ring, k, NameOf(curr, index), loaded)
    ensures r != null ==> Find(grown, NameOf(curr, index)) == Some(r)
    ensures r == null ==> loaded == null && Find(ring, NameOf(curr, index)).None?
    ensures curr.cp[..] == if r != null then old(curr.cp[..])[index := ResolvedClass(r)] else old(curr.cp[..])
  {
    assert Coherent(curr, ring) && CoherentEntry(curr.cp[index], curr.parsed, ring, index);
    assert WellFormedEntry(curr.parsed, curr.parsed[index]);
    ghost var n := curr.parsed[index].nameIndex;
    assert CoherentEntry(curr.cp[n], curr.parsed, ring, n);
    var name := curr.cp[curr.cp[index].nameIndex].str;
    grown := ring;
    r := Search(curr, name, ring, k, contents);
    if r == null {
      if loaded == null {
        return;
      }
      LinkLoaded(curr, loaded, ring, k, contents);
      grown := Linked(ring, k, loaded);
      r := loaded;
      FindsTheClass(grown, loaded);
    }
    Overwrite(curr, index, ResolvedClass(r), grown, contents);
  }

  /** Resolved entries never change again. */
  ghost predicate Kept(before: seq<Entry>, after: seq<Entry>) {
    |before| == |after| && forall i :: 0 <= i < |before| && IsResolved(before[i]) ==> after[i] == before[i]
  }

  /** The class of a member reference: from its entry if that is resolved, else by resolve_class. */
  method ClassOf(c: ClassFile, index: nat, loaded: ClassFile?,
                 ghost ring: seq<ClassFile>, ghost k: nat, ghost contents: map<string, CString>)
    returns (r: ClassFile?, ghost grown: seq<ClassFile>)
    requires Valid(ring, contents) && k < |ring| && ring[k] == c && Coherent(c, ring)
    requires index < |c.parsed| && c.parsed[index].ClassEntry?
    requires loaded != null ==> Loadable(loaded, NameOf(c, index), ring, contents)
    modifies c.cp, c`next, loaded
    ensures Valid(grown, contents) && grown == Grown(ring, k, NameOf(c, index), loaded) && c in grown
    ensures Kept(old(c.cp[..]), c.cp[..]) && forall i :: 0 <= i < |c.parsed| && i != index ==> c.cp[i] == old(c.cp[i])
    ensures Find(grown, NameOf(c, index)) == if r == null then None else Some(r)
  {
    assert CoherentEntry(c.cp[index], c.parsed, ring, index);
    if IsResolved(c.cp[index]) {
      return c.cp[index].cls, ring;
    }
    r, grown := ResolveClass(c, index, loaded, ring, k, contents);
  }

  /** resolve_nameAndType, which a member reference calls unless its entry is resolved. */
  method NameAndTypeOf(c: ClassFile, index: nat, ghost ring: seq<ClassFile>, ghost contents: map<string, CString>)
    returns (name: CString, signature: CString)
    requires Valid(ring, contents) && c in ring && Coherent(c, ring)
    requires index < |c.parsed| && c.parsed[index].NameAndType?
    modifies c.cp
    ensures Valid(ring, contents)
    ensures Kept(old(c.cp[..]), c.cp[..]) && forall i :: 0 <= i < |c.parsed| && i != index ==> c.cp[i] == old(c.cp[i])
    ensures HasNameAndType(c.parsed, index)
    ensures name == c.parsed[c.parsed[index].nameIndex].str && signature == c.parsed[c.parsed[index].signatureIndex].str
    ensures c.cp[index] == Lookup(c.parsed, ring, index)
  {
    assert WellFormedEntry(c.parsed, c.parsed[index]) && CoherentEntry(c.cp[index], c.parsed, ring, index);
    if !IsResolved(c.cp[index]) {
      ghost var n, t := c.parsed[index].nameIndex, c.parsed[index].signatureIndex;
      assert CoherentEntry(c.cp[n], c.parsed, ring, n) && CoherentEntry(c.cp[t], c.parsed, ring, t);
      var e := ResolvedNameAndType(c.cp[c.cp[index].nameIndex].str, c.cp[c.cp[index].signatureIndex].str);
      Overwrite(c, index, e, ring, contents);
    }
    return c.cp[index].name, c.cp[index].signature;
  }

  /** The member searches of resolve_methodref and resolve_fieldref; they compare pointers. */
  method SearchMember(members: seq<Member>, name: CString, signature: CString, ghost contents: map<string, CString>)
    returns (i: nat)
    requires InternedMembers(members, contents) && Interned(name, contents) && Interned(signature, contents)
    ensures i <= |members| && FirstMember(members, name.text, signature.text) == if i < |members| then Some(i) else None
  {
    i := 0;
    while i < |members|
      invariant i <= |members|
      invariant forall k :: 0 <= k < i ==> members[k].name != name || members[k].signature != signature
    {
      if members[i].name == name && members[i].signature == signature {
        break;
      }
      i := i + 1;
    }
    FirstMemberSpec(members, name.text, signature.text, i);
  }

  /** resolve_methodref. A false result is the exit: no such class, or no such method in it. */
  method ResolveMethodref(c: ClassFile, index: nat, loaded: ClassFile?,
                          ghost ring: seq<ClassFile>, ghost k: nat, ghost contents: map<string, CString>)
    returns (found: bool, ghost grown: seq<ClassFile>)
    requires Valid(ring, contents) && k < |ring| && ring[k] == c && Coherent(c, ring)
    requires index < |c.parsed| && c.parsed[index].Methodref? && c.cp[index] == c.parsed[index]
    requires HasClass(c.parsed, c.parsed[index].classIndex)
    requires loaded != null ==> Loadable(loaded, NameOf(c, c.parsed[index].classIndex), ring, contents)
    modifies c.cp, c`next, loaded
    ensures Valid(grown, contents) && grown == Grown(ring, k, NameOf(c, c.parsed[index].classIndex), loaded)
    ensures Kept(old(c.cp[..]), c.cp[..])
    ensures c.cp[index] == Lookup(c.parsed, grown, index) && (found <==> IsResolved(c.cp[index]))
  {
    assert WellFormedEntry(c.parsed, c.parsed[index]);
    var classIndex, memberIndex := c.cp[index].classIndex, c.cp[index].memberIndex;
    var cls;
    cls, grown := ClassOf(c, classIndex, loaded, ring, k, contents);
    if cls == null {
      return false, grown;
    }
    var name, signature := NameAndTypeOf(c, memberIndex, grown, contents);
    FindSpec(grown, NameOf(c, classIndex));
    assert c.parsed[index].classIndex == classIndex && c.parsed[index].memberIndex == memberIndex;
    assert InternedClass(cls, contents) && InternedClass(c, contents);
    var i := SearchMember(cls.methods, name, signature, contents);
    if i == |cls.methods| {
      return false, grown;
    }
    Overwrite(c, index, ResolvedMethodref(cls, i), grown, contents);
    return true, grown;
  }

  /** resolve_fieldref. A false result is the exit: no such class, or no such field in it. */
  method ResolveFieldref(c: ClassFile, index: nat, loaded: ClassFile?,
                          ghost ring: seq<ClassFile>, ghost k: nat, ghost contents: map<string, CString>)
    returns (found: bool, ghost grown: seq<ClassFile>)
    requires Valid(ring, contents) && k < |ring| && ring[k] == c && Coherent(c, ring)
    requires index < |c.parsed| && c.parsed[index].Fieldref? && c.cp[index] == c.parsed[index]
    requires HasClass(c.parsed, c.parsed[index].classIndex)
    requires loaded != null ==> Loadable(loaded, NameOf(c, c.parsed[index].classIndex), ring, contents)
    modifies c.cp, c`next, loaded
    ensures Valid(grown, contents) && grown == Grown(ring, k, NameOf(c, c.parsed[index].classIndex), loaded)
    ensures Kept(old(c.cp[..]), c.cp[..])
    ensures c.cp[index] == Lookup(c.parsed, grown, index) && (found <==> IsResolved(c.cp[index]))
  {
    assert WellFormedEntry(c.parsed, c.parsed[index]);
    var classIndex, memberIndex := c.cp[index].classIndex, c.cp[index].memberIndex;
    var cls;
    cls, grown := ClassOf(c, classIndex, loaded, ring, k, contents);
    if cls == null {
      return false, grown;
    }
    var name, signature := NameAndTypeOf(c, memberIndex, grown, contents);
    FindSpec(grown, NameOf(c, classIndex));
    assert c.parsed[index].classIndex == classIndex && c.parsed[index].memberIndex == memberIndex;
    assert InternedClass(cls, contents) && InternedClass(c, contents);
    var i := SearchMember(cls.fields, name, signature, contents);
    if i == |cls.fields| {
      return false, grown;
    }
    Overwrite(c, index, ResolvedFieldref(cls, i), grown, contents);
    return true, grown;
  }

  datatype Outcome = Done | Exit

  /** resolve_const, on the tag of the entry. */
  method ResolveConst(c: ClassFile, index: nat, loaded: ClassFile?,
                      ghost ring: seq<ClassFile>, ghost k: nat, ghost contents: map<string, CString>)
    returns (outcome: Outcome, ghost grown: seq<ClassFile>)
    requires Valid(ring, contents) && k < |ring| && ring[k] == c && Coherent(c, ring) && index < |c.parsed|
    requires loaded != null && ClassIndex(c.parsed, index).Some? ==>
               Loadable(loaded, NameOf(c, ClassIndex(c.parsed, index).value), ring, contents)
    modifies c.cp, c`next, loaded
    ensures Valid(grown, contents) && Kept(old(c.cp[..]), c.cp[..])
    ensures IsResolved(old(c.cp[index])) ==> outcome == Exit && c.cp[..] == old(c.cp[..])
    ensures !IsResolved(old(c.cp[index])) ==> c.cp[index] == Lookup(c.parsed, grown, index)
    ensures outcome == Done <==>
              old(c.cp[index]).InterfaceMethodref? || (!IsResolved(old(c.cp[index])) && IsResolved(c.cp[index]))
  {
    assert CoherentEntry(c.cp[index], c.parsed, ring, index) && WellFormedEntry(c.parsed, c.parsed[index]);
    grown := ring;
    match c.cp[index] {
      case ClassEntry(_) =>
        var r;
        r, grown := ResolveClass(c, index, loaded, ring, k, contents);
        outcome := if r == null then Exit else Done;
      case Fieldref(_, _) =>
        var found;
        found, grown := ResolveFieldref(c, index, loaded, ring, k, contents);
        outcome := if found then Done else Exit;
      case Methodref(_, _) =>
        var found;
        found, grown := ResolveMethodref(c, index, loaded, ring, k, contents);
        outcome := if found then Done else Exit;
      case InterfaceMethodref(_, _) =>
        outcome := Done;
      case StringEntry(s) =>
        assert CoherentEntry(c.cp[s], c.parsed, ring, s);
        Overwrite(c, index, ResolvedString(c.cp[s].str), ring, contents);
        outcome := Done;
      case NameAndType(_, _) =>
        var name, signature := NameAndTypeOf(c, index, ring, contents);
        outcome := Done;
      case _ =>
        outcome := Exit;
    }
  }

  /** The class entry that resolving entry i goes through, if any. */
  ghost function ClassIndex(o: seq<Entry>, i: nat): (r: Option<nat>)
    requires WellFormed(o) && i < |o|
    ensures r.Some? ==> HasClass(o, r.value)
  {
    assert WellFormedEntry(o, o[i]);
    match o[i]
    case ClassEntry(_) => Some(i)
    case Methodref(c, _) => Some(c)
    case Fieldref(c, _) => Some(c)
    case _ => None
  }

  /** Where the ring has the m-th class on the way round from k. */
  function PlaceOf(n: nat, k: nat, m: nat): nat
    requires k < n && m < n
  {
    if k + m < n then k + m else k + m - n
  }

  /** These classes are the ring from place k on, as far as they go. */
  ghost predicate Round(classes: seq<ClassFile>, ring: seq<ClassFile>, k: nat)
    requires k < |ring|
  {
    |classes| <= |ring| && forall m :: 0 <= m < |classes| ==> classes[m] == ring[PlaceOf(|ring|, k, m)]
  }

  lemma {:induction false} OnceRound(classes: seq<ClassFile>, ring: seq<ClassFile>, k: nat)
    requires k < |ring| == |classes| && Round(classes, ring, k)
    ensures multiset(classes) == multiset(ring)
  {
    assert classes == ring[k..] + ring[..k];
    assert ring == ring[..k] + ring[k..];
  }

  lemma {:induction false} NotYetPassed(classes: seq<ClassFile>, ring: seq<ClassFile>, k: nat)
    requires k < |ring| && Round(classes, ring, k) && |classes| < |ring| && DistinctNames(ring)
    ensures ring[PlaceOf(|ring|, k, |classes|)] !in classes
  {
  }

  /** The memory of the classes: one that was freed must not be looked at or freed again. */
  class Memory {
    ghost var freed: set<ClassFile>

    constructor ()
      ensures freed == {}
    {
      freed := {};
    }

    method NextOf(c: ClassFile) returns (next: ClassFile)
      requires c !in freed
      ensures next == c.next
    {
      next := c.next;
    }

    /** free_class */
    method Free(c: ClassFile)
      requires c !in freed
      modifies this
      ensures freed == old(freed) + {c}
    {
      freed := freed + {c};
    }
  }

  ghost function Elements(classes: seq<ClassFile>): set<ClassFile> { set c | c in classes }

  lemma {:induction false} SameElements(a: seq<ClassFile>, b: seq<ClassFile>)
    requires multiset(a) == multiset(b)
    ensures Elements(a) == Elements(b)
  {
    forall c ensures c in a <==> c in b { assert c in multiset(a) <==> c in multiset(b); }
  }

  /** The class at the m-th place of the way round leads to the next, and the last to the first. */
  lemma {:induction false} LeadsOn(ring: seq<ClassFile>, k: nat, m: nat)
    requires Ring(ring) && k < |ring| && m < |ring|
    ensures var n := |ring|;
            ring[PlaceOf(n, k, m)].next == if m + 1 < n then ring[PlaceOf(n, k, m + 1)] else ring[k]
  {
    assert Leads(ring, PlaceOf(|ring|, k, m));
  }

  lemma {:induction false} FirstOfRound(ring: seq<ClassFile>, k: nat)
    requires k < |ring|
    ensures Round([ring[k]], ring, k) && Elements([ring[k]]) == {ring[k]}
  {
  }

  /** The next class on the way round has not been passed. */
  lemma {:induction false} NextOfRound(classes: seq<ClassFile>, ring: seq<ClassFile>, k: nat)
    requires k < |ring| && Round(classes, ring, k) && |classes| < |ring| && DistinctNames(ring)
    ensures var c := ring[PlaceOf(|ring|, k, |classes|)];
            && c !in Elements(classes) && c in ring
            && Round(classes + [c], ring, k) && Elements(classes + [c]) == Elements(classes) + {c}
  {
    NotYetPassed(classes, ring, k);
  }

  lemma {:induction false} NotBack(ring: seq<ClassFile>, k: nat, m: nat)
    requires k < |ring| && DistinctNames(ring)
    ensures 0 < m < |ring| ==> ring[PlaceOf(|ring|, k, m)] != ring[k]
  {
  }

  /** free_all_linked_classes: every class is freed exactly once, in the order of the ring, and the calls of
    * NextOf and Free allow for no look at a class that was freed.
    */
  method FreeAll(cf: ClassFile, memory: Memory, ghost ring: seq<ClassFile>, ghost k: nat)
    returns (freed: seq<ClassFile>)
    requires Ring(ring) && k < |ring| && ring[k] == cf
    requires forall c :: c in ring ==> c !in memory.freed
    modifies memory
    ensures Round(freed, ring, k) && multiset(freed) == multiset(ring)
    ensures memory.freed == old(memory.freed) + Elements(ring)
  {
    hide Elements, DistinctNames, Round, Leads;
    LeadsOn(ring, k, 0);
    FirstOfRound(ring, k);
    var curr := cf;
    var next := memory.NextOf(cf);
    memory.Free(cf);
    freed := [cf];
    ghost var m: nat := 1;
    while next != cf
      invariant 0 < m == |freed| <= |ring| && Round(freed, ring, k)
      invariant next == if m < |ring| then ring[PlaceOf(|ring|, k, m)] else cf
      invariant memory.freed == old(memory.freed) + Elements(freed)
      decreases |ring| - m
    {
      curr := next;
      NextOfRound(freed, ring, k);
      LeadsOn(ring, k, m);
      next := memory.NextOf(curr);
      memory.Free(curr);
      freed := freed + [curr];
      m := m + 1;
    }
    NotBack(ring, k, m);
    OnceRound(freed, ring, k);
    SameElements(freed, ring);
  }
}
