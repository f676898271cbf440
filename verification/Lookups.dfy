/** What resolving a constant-pool entry finds (section 5.4.3 of the JVMS, src/resolve.c), said of the classes of
  * the ring and of their members by themselves.
  */
module Lookups {
  import opened Wrappers
  import opened Resolution

  /** This member is the first one of that name and signature. */
  ghost predicate IsFirst(members: seq<Member>, k: nat, name: string, signature: string) {
    && k < |members| && members[k].name.text == name && members[k].signature.text == signature
    && forall j :: 0 <= j < k ==> members[j].name.text != name || members[j].signature.text != signature
  }

  ghost predicate Has(members: seq<Member>, name: string, signature: string) {
    exists k :: 0 <= k < |members| && members[k].name.text == name && members[k].signature.text == signature
  }

  lemma {:induction false} FirstIs(members: seq<Member>, name: string, signature: string)
    ensures var r := FirstMember(members, name, signature);
            && (r.Some? ==> IsFirst(members, r.value, name, signature)) && (r.Some? <==> Has(members, name, signature))
  {
    if members != [] {
      FirstIs(members[1..], name, signature);
      assert forall j :: 0 < j < |members| ==> members[j] == members[1..][j - 1];
      assert forall j :: 0 <= j < |members[1..]| ==> members[1..][j] == members[j + 1];
    }
  }

  lemma {:induction false} FirstIsUnique(members: seq<Member>, k: nat, l: nat, name: string, signature: string)
    requires IsFirst(members, k, name, signature) && IsFirst(members, l, name, signature)
    ensures k == l
  {
  }

  /** The two strings of a member reference, and the name of its class. */
  ghost predicate Refers(o: seq<Entry>, classIndex: nat, memberIndex: nat, text: string, name: string,
                         signature: string) {
    && HasClass(o, classIndex) && o[o[classIndex].nameIndex].str.text == text
    && HasNameAndType(o, memberIndex)
    && o[o[memberIndex].nameIndex].str.text == name && o[o[memberIndex].signatureIndex].str.text == signature
  }

  /** A Fieldref resolves to field k of class c exactly if c is the class of that name in the ring and k its
    * first field of that name and signature; it does not resolve exactly if there is no such class or field.
    */
  lemma {:induction false} FieldrefMeans(o: seq<Entry>, ring: seq<ClassFile>, i: nat, c: ClassFile, k: nat,
                                         text: string, name: string, signature: string)
    requires WellFormed(o) && i < |o| && o[i].Fieldref? && DistinctNames(ring)
    requires Refers(o, o[i].classIndex, o[i].memberIndex, text, name, signature)
    ensures Lookup(o, ring, i) == ResolvedFieldref(c, k) <==>
            c in ring && c.name.text == text && IsFirst(c.fields, k, name, signature)
    ensures Lookup(o, ring, i) == o[i] <==>
            forall d :: d in ring && d.name.text == text ==> !Has(d.fields, name, signature)
  {
    FindSpec(ring, text);
    var found := Find(ring, text);
    if found.Some? {
      OfThatName(ring, found.value, text);
      var d := found.value;
      FirstIs(d.fields, name, signature);
      if FirstMember(d.fields, name, signature).Some? && c == d && IsFirst(d.fields, k, name, signature) {
        FirstIsUnique(d.fields, k, FirstMember(d.fields, name, signature).value, name, signature);
      }
    }
  }

  /** There is one class of a name. */
  lemma {:induction false} OfThatName(ring: seq<ClassFile>, d: ClassFile, text: string)
    requires d in ring && DistinctNames(ring) && d.name.text == text
    ensures forall c :: c in ring && c.name.text == text ==> c == d
  {
    forall c | c in ring && c.name.text == text ensures c == d {
      FindsTheClass(ring, c);
      FindsTheClass(ring, d);
    }
  }

  /** A Methodref likewise, among the methods. */
  lemma {:induction false} MethodrefMeans(o: seq<Entry>, ring: seq<ClassFile>, i: nat, c: ClassFile, k: nat,
                                          text: string, name: string, signature: string)
    requires WellFormed(o) && i < |o| && o[i].Methodref? && DistinctNames(ring)
    requires Refers(o, o[i].classIndex, o[i].memberIndex, text, name, signature)
    ensures Lookup(o, ring, i) == ResolvedMethodref(c, k) <==>
            c in ring && c.name.text == text && IsFirst(c.methods, k, name, signature)
    ensures Lookup(o, ring, i) == o[i] <==>
            forall d :: d in ring && d.name.text == text ==> !Has(d.methods, name, signature)
  {
    FindSpec(ring, text);
    var found := Find(ring, text);
    if found.Some? {
      OfThatName(ring, found.value, text);
      var d := found.value;
      FirstIs(d.methods, name, signature);
      if FirstMember(d.methods, name, signature).Some? && c == d && IsFirst(d.methods, k, name, signature) {
        FirstIsUnique(d.methods, k, FirstMember(d.methods, name, signature).value, name, signature);
      }
    }
  }

  /** A class entry resolves to the class of its name, and to none exactly if the ring has none. */
  lemma {:induction false} ClassMeans(o: seq<Entry>, ring: seq<ClassFile>, i: nat, c: ClassFile)
    requires WellFormed(o) && i < |o| && o[i].ClassEntry? && DistinctNames(ring)
    requires HasStr(o, o[i].nameIndex)
    ensures Lookup(o, ring, i) == ResolvedClass(c) <==> c in ring && c.name.text == o[o[i].nameIndex].str.text
    ensures Lookup(o, ring, i) == o[i] <==> forall d :: d in ring ==> d.name.text != o[o[i].nameIndex].str.text
  {
    var text := o[o[i].nameIndex].str.text;
    FindSpec(ring, text);
    if Find(ring, text).Some? { OfThatName(ring, Find(ring, text).value, text); }
  }

  /** The entries that need no class: the strings they refer to, whatever is loaded. Interface method
    * references stay as they are.
    */
  lemma {:induction false} StringsMean(o: seq<Entry>, ring: seq<ClassFile>, i: nat)
    requires WellFormed(o) && i < |o|
    ensures forall n: nat, t: nat :: o[i] == NameAndType(n, t) && HasStr(o, n) && HasStr(o, t) ==>
              Lookup(o, ring, i) == ResolvedNameAndType(o[n].str, o[t].str)
    ensures forall n: nat :: o[i] == StringEntry(n) && HasStr(o, n) ==> Lookup(o, ring, i) == ResolvedString(o[n].str)
    ensures o[i].InterfaceMethodref? || o[i].Utf8? || o[i].Number? || o[i].Unused? ==> Lookup(o, ring, i) == o[i]
  {
    assert WellFormedEntry(o, o[i]);
  }

  /** Every index of a well-formed pool has what these theorems ask for. */
  lemma {:induction false} Covered(o: seq<Entry>, i: nat)
    requires WellFormed(o) && i < |o|
    ensures o[i].ClassEntry? ==> HasStr(o, o[i].nameIndex)
    ensures o[i].NameAndType? ==> HasStr(o, o[i].nameIndex) && HasStr(o, o[i].signatureIndex)
    ensures o[i].StringEntry? ==> HasStr(o, o[i].stringIndex)
    ensures o[i].Fieldref? || o[i].Methodref? ==>
              exists text, name, signature :: Refers(o, o[i].classIndex, o[i].memberIndex, text, name, signature)
  {
    assert WellFormedEntry(o, o[i]);
    if o[i].Fieldref? || o[i].Methodref? {
      var k, m := o[i].classIndex, o[i].memberIndex;
      assert Refers(o, k, m, o[o[k].nameIndex].str.text, o[o[m].nameIndex].str.text, o[o[m].signatureIndex].str.text);
    }
  }

  /** Looking a name up loads a class exactly if the ring has none of that name, and then the ring has that
    * one more.
    */
  lemma {:induction false} LoadsWhatIsMissing(ring: seq<ClassFile>, k: nat, text: string, loaded: ClassFile,
                                              c: ClassFile)
    requires k < |ring|
    ensures c in Grown(ring, k, text, loaded) <==>
            c in ring || (c == loaded && forall d :: d in ring ==> d.name.text != text)
    ensures Grown(ring, k, text, null) == ring
  {
    FindSpec(ring, text);
  }
}
