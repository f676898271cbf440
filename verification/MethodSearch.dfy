/** The searches for <clinit> and main (src/core.c:72-99, src/core.c:132-153). They compare pointers into the
  * string pool; that they find what a comparison of the texts finds rests on interning.
  */
module MethodSearch {
  import opened Words
  import opened Bytecode
  import opened FrameMachine
  import opened StringPool
  import Resolution

  /** The names that a class keeps for its methods are the pool's own strings. */
  ghost predicate NamesOf(methods: seq<Method>, names: seq<CString>, contents: map<string, CString>) {
    |names| == |methods| &&
    forall i :: 0 <= i < |names| ==> Interned(names[i], contents) && names[i].text == methods[i].name
  }

  /** The loop over the methods, for the string that find_string delivered. */
  method SearchConstructor(methods: seq<Method>, names: seq<CString>, wanted: CString?,
                           ghost contents: map<string, CString>) returns (k: Constructor)
    requires NamesOf(methods, names, contents)
    requires wanted != null ==> Interned(wanted, contents) && wanted.text == CLINIT
    ensures k == if wanted == null then NoConstructor else LeftByLoop(methods)
  {
    if wanted == null {
      return NoConstructor;
    }
    k := Unset;
    var i := 0;
    while i < |methods|
      invariant i <= |methods| && k == if i == 0 then Unset else Runs(methods[i - 1])
      invariant FirstNamed(methods, CLINIT, i) == FirstNamed(methods, CLINIT, 0)
    {
      k := Runs(methods[i]);
      if names[i] == wanted {
        break;
      }
      i := i + 1;
    }
  }

  /** get_static_constructor, with the string pool it asks. */
  method FindConstructor(methods: seq<Method>, names: seq<CString>, strings: Pool) returns (k: Constructor)
    requires strings.Valid() && NamesOf(methods, names, strings.contents)
    ensures k == if CLINIT in strings.contents then LeftByLoop(methods) else NoConstructor
  {
    var wanted := strings.FindString(CLINIT);
    k := SearchConstructor(methods, names, wanted, strings.contents);
  }

  /** What is found, said of the methods themselves: the first one named <clinit>; with none of that name the
    * last method; and nothing as long as no loaded class mentions the name.
    */
  lemma {:induction false} ConstructorFound(p: Program, loaded: set<Word>, c: Word, k: nat)
    ensures var ms, found := p.ClassAt(c).methods, StaticConstructor(p, loaded, c);
            if !exists d :: d in loaded && p.ClassAt(d).mentionsClinit then found == NoConstructor
            else
              && (k < |ms| && ms[k].name == "<clinit>" && (forall j :: 0 <= j < k ==> ms[j].name != "<clinit>") ==>
                    found == Runs(ms[k]))
              && ((forall j :: 0 <= j < |ms| ==> ms[j].name != "<clinit>") ==>
                    found == if ms == [] then Unset else Runs(ms[|ms| - 1]))
  {
    var ms := p.ClassAt(c).methods;
    var i := FirstNamed(ms, CLINIT, 0);
    if i < |ms| { assert ms[i].name == "<clinit>"; }
  }

  // ------------------------------------------------------------ main

  const MAIN := "main"
  const MAIN_SIGNATURE := "([Ljava/lang/String;)V"

  predicate IsMain(m: Method) { m.name == MAIN && m.signature == MAIN_SIGNATURE }

  function FirstMain(methods: seq<Method>, i: nat): (r: nat)
    requires i <= |methods|
    ensures i <= r <= |methods| && (r < |methods| ==> IsMain(methods[r]))
    ensures forall j :: i <= j < r ==> !IsMain(methods[j])
    decreases |methods| - i
  {
    if i == |methods| || IsMain(methods[i]) then i else FirstMain(methods, i + 1)
  }

  /** `Missing`: main or its signature is not in the string pool, and the program ends. */
  datatype Main = Missing | NeverSet | Is(target: Method)

  /** What the loop leaves in `mi`: the last method when none matches, and nothing when there is none. */
  function MainMethod(methods: seq<Method>): Main {
    var i := FirstMain(methods, 0);
    if methods == [] then NeverSet else Is(methods[if i < |methods| then i else |methods| - 1])
  }

  /** What the search leaves: the first method with the name and the descriptor of main, and with none such the
    * last method.
    */
  lemma {:induction false} MainFound(ms: seq<Method>, k: nat)
    ensures k < |ms| && ms[k].name == "main" && ms[k].signature == "([Ljava/lang/String;)V"
            && (forall j :: 0 <= j < k ==> ms[j].name != "main" || ms[j].signature != "([Ljava/lang/String;)V") ==>
              MainMethod(ms) == Is(ms[k])
    ensures (forall j :: 0 <= j < |ms| ==> ms[j].name != "main" || ms[j].signature != "([Ljava/lang/String;)V") ==>
              MainMethod(ms) == if ms == [] then NeverSet else Is(ms[|ms| - 1])
  {
    var i := FirstMain(ms, 0);
    if i < |ms| { assert IsMain(ms[i]); }
  }

  ghost predicate MembersOf(methods: seq<Method>, members: seq<Resolution.Member>, contents: map<string, CString>) {
    |members| == |methods| && Resolution.InternedMembers(members, contents) &&
    forall i :: 0 <= i < |members| ==>
      members[i].name.text == methods[i].name && members[i].signature.text == methods[i].signature
  }

  /** get_main_method */
  method GetMainMethod(methods: seq<Method>, members: seq<Resolution.Member>, strings: Pool) returns (mi: Main)
    requires strings.Valid() && MembersOf(methods, members, strings.contents)
    ensures mi == if MAIN in strings.contents && MAIN_SIGNATURE in strings.contents then MainMethod(methods)
            else Missing
  {
    var name := strings.FindString(MAIN);
    var signature := strings.FindString(MAIN_SIGNATURE);
    if name == null || signature == null {
      return Missing;
    }
    mi := SearchMain(methods, members, name, signature, strings.contents);
  }

  method SearchMain(methods: seq<Method>, members: seq<Resolution.Member>, name: CString, signature: CString,
                    ghost contents: map<string, CString>) returns (mi: Main)
    requires MembersOf(methods, members, contents)
    requires Interned(name, contents) && name.text == MAIN
    requires Interned(signature, contents) && signature.text == MAIN_SIGNATURE
    ensures mi == MainMethod(methods)
  {
    mi := NeverSet;
    var i := 0;
    while i < |methods|
      invariant i <= |methods| && mi == if i == 0 then NeverSet else Is(methods[i - 1])
      invariant FirstMain(methods, i) == FirstMain(methods, 0)
    {
      mi := Is(methods[i]);
      if members[i].name == name && members[i].signature == signature {
        break;
      }
      i := i + 1;
    }
  }

  /** It delivers a main method, the first one, exactly when the class has one. */
  lemma {:induction false} MainMeetsIntent(methods: seq<Method>, members: seq<Resolution.Member>,
                                           contents: map<string, CString>)
    requires MembersOf(methods, members, contents)
    ensures var mi := if MAIN in contents && MAIN_SIGNATURE in contents then MainMethod(methods) else Missing;
            (mi.Is? && IsMain(mi.target)) <==> exists i :: 0 <= i < |methods| && IsMain(methods[i])
  {
    var r := FirstMain(methods, 0);
    if r < |methods| {
      assert Interned(members[r].name, contents) && Interned(members[r].signature, contents);
    }
  }
}
