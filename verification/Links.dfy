/** The shortcut from a method to its Code attribute: parse_method leaves the address of the method's
  * c_attr in the global c_attr_to_set, and every Code attribute that is parsed stores its own address
  * there (src/parser.c:160-180, src/parser.c:287-288).
  */
module Links {
  import opened Wrappers
  import opened ClassFormat
  import opened Parsing

  /** Whose c_attr the global points to: a method of this class, or one of a class parsed before. */
  datatype Site = Earlier | Of(index: nat)

  /** What an attribute belongs to. */
  datatype Owner = FieldAt(index: nat) | MethodAt(index: nat) | TheClass

  /** The address of an attribute: its owner, and its index at every level down. */
  datatype Place = Place(owner: Owner, path: seq<nat>) {
    function Item(i: nat): Place { Place(owner, path + [i]) }
  }

  type Shortcuts = map<Site, Place>

  /** The Code attribute that is parsed last in an attribute, or in a table of them. */
  function LastCode(at: Place, a: Attribute): Option<Place>
    decreases a, 1
  {
    if !a.Code? then None
    else match LastIn(at, a.attributes)
      case Some(p) => Some(p)
      case None => Some(at)
  }

  function LastIn(at: Place, atts: seq<Attribute>): Option<Place>
    decreases atts, 0
  {
    if atts == [] then None
    else
      var n := |atts| - 1;
      match LastCode(at.Item(n), atts[n])
      case Some(p) => Some(p)
      case None => LastIn(at, atts[..n])
  }

  /** The shortcuts after parsing something whose last Code attribute this is. */
  function Patched(links: Shortcuts, target: Option<Site>, last: Option<Place>): Shortcuts {
    if target.Some? && last.Some? then links[target.value := last.value] else links
  }

  function AfterFields(links: Shortcuts, target: Option<Site>, fields: seq<Field>): Shortcuts {
    if fields == [] then links
    else
      var n := |fields| - 1;
      Patched(AfterFields(links, target, fields[..n]), target, LastIn(Place(FieldAt(n), []), fields[n].attributes))
  }

  function AfterMethods(links: Shortcuts, methods: seq<Method>): Shortcuts {
    if methods == [] then links
    else
      var n := |methods| - 1;
      Patched(AfterMethods(links, methods[..n]), Some(Of(n)), LastIn(Place(MethodAt(n), []), methods[n].attributes))
  }

  function TargetAfter(target: Option<Site>, methods: seq<Method>): Option<Site> {
    if methods == [] then target else Some(Of(|methods| - 1))
  }

  /** The shortcuts after parsing a whole class. */
  function AfterClass(links: Shortcuts, target: Option<Site>, t: Tables): Shortcuts {
    Patched(AfterMethods(AfterFields(links, target, t.fields), t.methods), TargetAfter(target, t.methods),
            LastIn(Place(TheClass, []), t.attributes))
  }

  // ---- What a shortcut should be, and when it is ----

  /** A Code attribute at any level. */
  predicate HasCode(atts: seq<Attribute>)
    decreases atts
  {
    atts != [] && (atts[|atts| - 1].Code? || HasCode(atts[..|atts| - 1]))
  }

  lemma {:induction false} LastInIffCode(at: Place, atts: seq<Attribute>)
    ensures LastIn(at, atts).Some? <==> HasCode(atts)
    decreases |atts|
  {
    if atts != [] { LastInIffCode(at, atts[..|atts| - 1]); }
  }

  /** The only Code attribute of a table is the last one parsed exactly if it has none inside. */
  lemma {:induction false} LastInOnly(at: Place, atts: seq<Attribute>, j: nat)
    requires j < |atts| && atts[j].Code? && forall k :: 0 <= k < |atts| && k != j ==> !atts[k].Code?
    ensures LastIn(at, atts) == Some(at.Item(j)) <==> !HasCode(atts[j].attributes)
    decreases |atts|
  {
    var n := |atts| - 1;
    if n == j {
      LastInIffCode(at.Item(j), atts[j].attributes);
      DeeperPath(at.Item(j), atts[j].attributes);
    } else {
      assert LastCode(at.Item(n), atts[n]) == None;
      LastInOnly(at, atts[..n], j);
    }
  }

  lemma {:induction false} DeeperPath(at: Place, atts: seq<Attribute>)
    ensures LastIn(at, atts).Some? ==> |LastIn(at, atts).value.path| > |at.path|
    decreases atts, 0
  {
    if atts != [] {
      var n := |atts| - 1;
      if atts[n].Code? { DeeperPath(at.Item(n), atts[n].attributes); }
      DeeperPath(at, atts[..n]);
    }
  }

  /** The place stays within its owner. */
  lemma {:induction false} SameOwner(at: Place, atts: seq<Attribute>)
    ensures LastIn(at, atts).Some? ==> LastIn(at, atts).value.owner == at.owner
    decreases atts, 0
  {
    if atts != [] {
      var n := |atts| - 1;
      if atts[n].Code? { SameOwner(at.Item(n), atts[n].attributes); }
      SameOwner(at, atts[..n]);
    }
  }

  function Get(links: Shortcuts, s: Site): Option<Place> { if s in links then Some(links[s]) else None }

  lemma {:induction false} AfterFieldsKeeps(links: Shortcuts, target: Option<Site>, fields: seq<Field>, s: Site)
    requires target != Some(s)
    ensures Get(AfterFields(links, target, fields), s) == Get(links, s)
  {
    if fields != [] { AfterFieldsKeeps(links, target, fields[..|fields| - 1], s); }
  }

  lemma {:induction false} AfterMethodsGives(links: Shortcuts, methods: seq<Method>, s: Site)
    ensures Get(AfterMethods(links, methods), s) ==
            if s.Of? && s.index < |methods| && HasCode(methods[s.index].attributes)
            then LastIn(Place(MethodAt(s.index), []), methods[s.index].attributes) else Get(links, s)
    decreases |methods|
  {
    if methods != [] {
      var n := |methods| - 1;
      AfterMethodsGives(links, methods[..n], s);
      LastInIffCode(Place(MethodAt(n), []), methods[n].attributes);
    }
  }

  /** Every method's shortcut: the last Code attribute parsed within the method, unless it is the last
    * method and the class has a Code attribute of its own.
    */
  lemma {:induction false} ShortcutOf(links: Shortcuts, target: Option<Site>, t: Tables, i: nat)
    requires i < |t.methods| && Of(i) !in links && target != Some(Of(i))
    ensures Get(AfterClass(links, target, t), Of(i)) ==
            if i == |t.methods| - 1 && HasCode(t.attributes) then LastIn(Place(TheClass, []), t.attributes)
            else LastIn(Place(MethodAt(i), []), t.methods[i].attributes)
  {
    AfterFieldsKeeps(links, target, t.fields, Of(i));
    AfterMethodsGives(AfterFields(links, target, t.fields), t.methods, Of(i));
    LastInIffCode(Place(TheClass, []), t.attributes);
    LastInIffCode(Place(MethodAt(i), []), t.methods[i].attributes);
  }

  /** A method with exactly one Code attribute is linked to it exactly if no Code attribute is nested in
    * that one and, for the last method, the class has none of its own.
    */
  lemma {:induction false} ShortcutMeetsIntent(links: Shortcuts, target: Option<Site>, t: Tables, i: nat, j: nat)
    requires i < |t.methods| && Of(i) !in links && target != Some(Of(i))
    requires var atts := t.methods[i].attributes;
             j < |atts| && atts[j].Code? && forall k :: 0 <= k < |atts| && k != j ==> !atts[k].Code?
    ensures Get(AfterClass(links, target, t), Of(i)) == Some(Place(MethodAt(i), [j])) <==>
            !HasCode(t.methods[i].attributes[j].attributes) && (i == |t.methods| - 1 ==> !HasCode(t.attributes))
  {
    var at := Place(MethodAt(i), []);
    assert at.Item(j) == Place(MethodAt(i), [j]);
    ShortcutOf(links, target, t, i);
    LastInOnly(at, t.methods[i].attributes, j);
    SameOwner(Place(TheClass, []), t.attributes);
    LastInIffCode(Place(TheClass, []), t.attributes);
  }

  lemma {:induction false} AfterFieldsReaches(links: Shortcuts, s: Site, fields: seq<Field>)
    requires s !in links
    ensures s in AfterFields(links, Some(s), fields) <==> exists k :: 0 <= k < |fields| && HasCode(fields[k].attributes)
    decreases |fields|
  {
    if fields != [] {
      var n := |fields| - 1;
      AfterFieldsReaches(links, s, fields[..n]);
      LastInIffCode(Place(FieldAt(n), []), fields[n].attributes);
      assert forall k :: 0 <= k < n ==> fields[k] == fields[..n][k];
    }
  }

  /** The last method of the class parsed before keeps its shortcut exactly if no field of this class has a
    * Code attribute, and this class, if it has no methods, has none either.
    */
  lemma {:induction false} EarlierShortcutStays(links: Shortcuts, t: Tables)
    requires Earlier !in links
    ensures Earlier !in AfterClass(links, Some(Earlier), t) <==>
            (forall k :: 0 <= k < |t.fields| ==> !HasCode(t.fields[k].attributes)) &&
            (t.methods == [] ==> !HasCode(t.attributes))
  {
    AfterFieldsReaches(links, Earlier, t.fields);
    AfterMethodsGives(AfterFields(links, Some(Earlier), t.fields), t.methods, Earlier);
    LastInIffCode(Place(TheClass, []), t.attributes);
  }
}
