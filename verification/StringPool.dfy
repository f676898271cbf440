/** The string pool (src/string_pool.c): a chained hash table of C strings, as a map from content to the
  * one string that stands for it.
  */
module StringPool {
  import opened Words

  /** A C string: a place in memory (the object) and its content. */
  class CString {
    const text: string

    constructor (text: string)
      ensures this.text == text
    {
      this.text := text;
    }
  }

  class Bucket {
    var next: Bucket?
    var str: CString?

    constructor (str: CString?)
      ensures this.str == str && next == null
    {
      this.str := str;
      next := null;
    }
  }

  /** djb2 over unsigned 32-bit words. */
  function HashFrom(h: nat, s: string): (r: nat)
    requires h < TWO_32
    ensures r < TWO_32
    decreases |s|
  {
    if s == "" then h else HashFrom((h * 33 + s[0] as int) % TWO_32, s[1..])
  }

  function Hash(s: string): nat { HashFrom(5381, s) }

  /** The hash character by character: 5381 for the empty string, and times 33 plus the next one, in 32 bits. */
  lemma {:induction false} HashGrows(s: string, c: char)
    ensures Hash("") == 5381
    ensures Hash(s + [c]) == (Hash(s) * 33 + c as int) % 0x1_0000_0000
  {
    HashFromGrows(5381, s, c);
  }

  lemma {:induction false} HashFromGrows(h: nat, s: string, c: char)
    requires h < TWO_32
    ensures HashFrom(h, s + [c]) == (HashFrom(h, s) * 33 + c as int) % 0x1_0000_0000
    decreases |s|
  {
    if s == "" {
      assert s + [c] == [c];
    } else {
      assert (s + [c])[1..] == s[1..] + [c];
      HashFromGrows((h * 33 + s[0] as int) % TWO_32, s[1..], c);
    }
  }

  method ComputeHash(s: string) returns (h: nat)
    ensures h == Hash(s)
  {
    h := 5381;
    var i := 0;
    while i < |s|
      invariant i <= |s| && h < TWO_32 && HashFrom(h, s[i..]) == Hash(s)
    {
      assert s[i..][1..] == s[i + 1..];
      h := (h * 33 + s[i] as int) % TWO_32;
      i := i + 1;
    }
  }

  function Slot(s: string, n: nat): (r: nat)
    requires n > 0
    ensures r < n
  {
    Hash(s) % n
  }

  /** The strings of each slot, in chain order, against the map they stand for: each string is in the
    * slot of its hash and only once, and it is the one the map names.
    */
  ghost predicate Stands(strings: seq<seq<CString>>, contents: map<string, CString>) {
    && |strings| > 0
    && (forall h, i :: 0 <= h < |strings| && 0 <= i < |strings[h]| ==> InPlace(strings, contents, h, i))
    && (forall s :: s in contents ==> contents[s].text == s && contents[s] in strings[Slot(s, |strings|)])
    && (forall h, i, j :: 0 <= h < |strings| && 0 <= i < j < |strings[h]| ==> strings[h][i].text != strings[h][j].text)
  }

  ghost predicate InPlace(strings: seq<seq<CString>>, contents: map<string, CString>, h: int, i: int)
    requires 0 <= h < |strings| && 0 <= i < |strings[h]|
  {
    var s := strings[h][i];
    Slot(s.text, |strings|) == h && s.text in contents && contents[s.text] == s
  }

  /** What a plain map from content to representative does. */
  ghost function Added(m: map<string, CString>, s: CString): map<string, CString> {
    if s.text in m then m else m[s.text := s]
  }

  /** The pool's own string for its content. */
  ghost predicate Interned(s: CString, contents: map<string, CString>) { s.text in contents && contents[s.text] == s }

  /** What was interned stays interned. */
  ghost predicate Grows(before: map<string, CString>, after: map<string, CString>) {
    forall s :: s in before ==> s in after && after[s] == before[s]
  }

  lemma {:induction false} GrowsTwice(a: map<string, CString>, b: map<string, CString>, c: map<string, CString>)
    ensures Grows(a, a) && (Grows(a, b) && Grows(b, c) ==> Grows(a, c))
  {
  }

  lemma {:induction false} StandsAdded(strings: seq<seq<CString>>, contents: map<string, CString>, str: CString)
    requires Stands(strings, contents) && str.text !in contents
    ensures var h := Slot(str.text, |strings|);
            Stands(strings[h := strings[h] + [str]], Added(contents, str))
  {
    var h := Slot(str.text, |strings|);
    var after, m := strings[h := strings[h] + [str]], Added(contents, str);
    forall g, i | 0 <= g < |after| && 0 <= i < |after[g]| ensures InPlace(after, m, g, i) {
      if g != h || i < |strings[h]| { assert InPlace(strings, contents, g, i); }
    }
    forall s | s in m ensures m[s].text == s && m[s] in after[Slot(s, |after|)] {
      if s != str.text { assert contents[s] in strings[Slot(s, |strings|)]; }
    }
    forall g, i, j | 0 <= g < |after| && 0 <= i < j < |after[g]| ensures after[g][i].text != after[g][j].text {
      if g == h && j == |strings[h]| { assert InPlace(strings, contents, h, i); }
    }
  }

  ghost predicate Has(strings: seq<CString>, text: string) { exists s :: s in strings && s.text == text }

  /** A content is in the map exactly when its string is in its slot. */
  lemma {:induction false} Located(strings: seq<seq<CString>>, contents: map<string, CString>, text: string)
    requires Stands(strings, contents)
    ensures text in contents ==> contents[text].text == text && contents[text] in strings[Slot(text, |strings|)]
    ensures forall s :: s in strings[Slot(text, |strings|)] && s.text == text ==>
              text in contents && contents[text] == s
  {
    var h := Slot(text, |strings|);
    forall s | s in strings[h] && s.text == text ensures text in contents && contents[text] == s {
      var i :| 0 <= i < |strings[h]| && strings[h][i] == s;
      assert InPlace(strings, contents, h, i);
    }
  }

  /** The map after a sequence of add_string calls. */
  ghost function AddedAll(m: map<string, CString>, adds: seq<CString>): map<string, CString> {
    if adds == [] then m else Added(AddedAll(m, adds[..|adds| - 1]), adds[|adds| - 1])
  }

  /** What the k-th of these calls returned. */
  ghost function Returned(m: map<string, CString>, adds: seq<CString>, k: nat): CString
    requires k < |adds|
  {
    AddedLast(m, adds[..k + 1]);
    AddedAll(m, adds[..k + 1])[adds[k].text]
  }

  lemma {:induction false} AddedLast(m: map<string, CString>, adds: seq<CString>)
    ensures adds != [] ==> adds[|adds| - 1].text in AddedAll(m, adds)
  {
  }

  ghost predicate Named(m: map<string, CString>) { forall s :: s in m ==> m[s].text == s }

  /** Later calls never change what a content is mapped to, and the map names strings by their content. */
  lemma {:induction false} AddingKeeps(m: map<string, CString>, adds: seq<CString>, k: nat)
    requires Named(m) && k <= |adds|
    ensures Named(AddedAll(m, adds))
    ensures forall s :: s in AddedAll(m, adds[..k]) ==>
              s in AddedAll(m, adds) && AddedAll(m, adds)[s] == AddedAll(m, adds[..k])[s]
    decreases |adds|
  {
    if k == |adds| {
      assert adds[..k] == adds;
      if adds != [] { AddingKeeps(m, adds[..k - 1], 0); }
    } else {
      var init := adds[..|adds| - 1];
      assert init[..k] == adds[..k];
      AddingKeeps(m, init, k);
    }
  }

  /** Interning: in any sequence of calls two returned strings are the same object exactly when the
    * contents are equal, and each is still the one the pool names in the end.
    */
  lemma {:induction false} Interning(m: map<string, CString>, adds: seq<CString>, i: nat, j: nat)
    requires Named(m) && i < |adds| && j < |adds|
    ensures Returned(m, adds, i) == Returned(m, adds, j) <==> adds[i].text == adds[j].text
    ensures var end := AddedAll(m, adds);
            adds[i].text in end && end[adds[i].text] == Returned(m, adds, i)
  {
    AddedLast(m, adds[..i + 1]);
    AddedLast(m, adds[..j + 1]);
    AddingKeeps(m, adds, i + 1);
    AddingKeeps(m, adds, j + 1);
  }

  /** The first string with a content is the one that stands for it. */
  lemma {:induction false} FirstStays(m: map<string, CString>, adds: seq<CString>, k: nat)
    requires Named(m) && k < |adds| && adds[k].text !in m
    requires forall i :: 0 <= i < k ==> adds[i].text != adds[k].text
    ensures Returned(m, adds, k) == adds[k]
  {
    var init := adds[..k];
    NotAdded(m, init, adds[k].text);
    assert adds[..k + 1][..k] == init;
  }

  lemma {:induction false} NotAdded(m: map<string, CString>, adds: seq<CString>, text: string)
    requires text !in m && forall i :: 0 <= i < |adds| ==> adds[i].text != text
    ensures text !in AddedAll(m, adds)
  {
    if adds != [] { NotAdded(m, adds[..|adds| - 1], text); }
  }

  class Pool {
    const table: array<Bucket>
    ghost var chains: seq<seq<Bucket>>            // the buckets of each slot, linked by next
    ghost var place: map<Bucket, (int, int)>      // slot and position of each bucket
    ghost var strings: seq<seq<CString>>          // the strings in them
    ghost var contents: map<string, CString>      // what the table stands for

    /** One slot: its first bucket is in the table, each leads to the next, and each holds its string; an
      * unused slot has one bucket without a string.
      */
    ghost predicate Chain(h: nat)
      reads `chains, `place, `strings, table, place.Keys
      requires h < table.Length == |chains| == |strings|
    {
      var c := chains[h];
      && |c| == (if strings[h] == [] then 1 else |strings[h]|)
      && c[0] == table[h]
      && forall i {:trigger c[i]} :: 0 <= i < |c| ==>
           && c[i] in place && place[c[i]] == (h, i)
           && c[i].next == (if i + 1 < |c| then c[i + 1] else null)
           && c[i].str == (if i < |strings[h]| then strings[h][i] else null)
    }

    ghost predicate Linked()
      reads `chains, `place, `strings, table, place.Keys
    {
      && 0 < table.Length == |chains| == |strings|
      && forall h :: 0 <= h < table.Length ==> Chain(h)
    }

    ghost predicate Valid()
      reads this, table, place.Keys
    {
      Linked() && Stands(strings, contents)
    }

    /** init_string_pool: every bucket zero. */
    constructor (n: nat)
      requires n > 0
      ensures Valid() && fresh(table) && fresh(place.Keys) && contents == map[]
    {
      var first := new Bucket(null);
      table := new Bucket[n](_ => first);
      contents, chains, place, strings := map[], [], map[], seq(n, _ => []);
      new;
      var h := 0;
      while h < n
        invariant h <= n == table.Length && fresh(table) && fresh(place.Keys) && contents == map[]
        invariant |chains| == h && |strings| == n && forall g :: 0 <= g < n ==> strings[g] == []
        invariant forall g :: 0 <= g < h ==> chains[g] == [table[g]] && table[g] in place && place[table[g]] == (g, 0)
        invariant forall g :: 0 <= g < h ==> table[g].next == null && table[g].str == null
        modifies this, table
      {
        var b := new Bucket(null);
        table[h] := b;
        chains := chains + [[b]];
        place := place[b := (h, 0)];
        h := h + 1;
      }
    }

    /** The loop of add_string: the bucket with this content, or the last one. */
    method Seek(h: nat, text: string) returns (b: Bucket, ghost i: nat)
      requires h < table.Length == |chains| == |strings| && Chain(h) && strings[h] != []
      ensures i < |strings[h]| == |chains[h]| && b == chains[h][i] && b.str == strings[h][i]
      ensures b.str.text == text || (i == |strings[h]| - 1 && !Has(strings[h], text))
    {
      b := table[h];
      i := 0;
      while b.str.text != text && b.next != null
        invariant i < |strings[h]| == |chains[h]| && b == chains[h][i]
        invariant forall j :: 0 <= j < i ==> strings[h][j].text != text
        decreases |strings[h]| - i
      {
        b := b.next;
        i := i + 1;
      }
    }

    /** The loop of find_string. */
    method Find(h: nat, text: string) returns (r: CString?)
      requires h < table.Length == |chains| == |strings| && Chain(h)
      ensures r != null ==> r in strings[h] && r.text == text
      ensures r == null ==> !Has(strings[h], text)
    {
      var b: Bucket? := table[h];
      if b.str == null {
        return null;
      }
      ghost var i := 0;
      while b != null
        invariant 0 <= i <= |strings[h]| == |chains[h]| && b == if i < |chains[h]| then chains[h][i] else null
        invariant forall j :: 0 <= j < i ==> strings[h][j].text != text
        decreases |strings[h]| - i
      {
        if b.str.text == text {
          return b.str;
        }
        b := b.next;
        i := i + 1;
      }
      return null;
    }

    /** find_string: the string that stands for this content, if there is one. */
    method FindString(text: string) returns (r: CString?)
      requires Valid()
      ensures r == if text in contents then contents[text] else null
    {
      var h := ComputeHash(text);
      r := Find(h % table.Length, text);
      Located(strings, contents, text);
    }

    /** add_string: the string that stands for this content, the given one if there is none yet. */
    method AddString(str: CString) returns (r: CString)
      requires Valid()
      modifies this, place.Keys
      ensures Valid() && fresh(place.Keys - old(place.Keys))
      ensures contents == Added(old(contents), str) && r == contents[str.text] && r.text == str.text
    {
      var hash := ComputeHash(str.text);
      Located(strings, contents, str.text);
      ghost var known;
      r, known := Insert(hash % table.Length, str);
      if !known {
        StandsAdded(old(strings), contents, str);
        contents := Added(contents, str);
      }
    }

    /** The slot's string with this content; if there is none, the given one joins the slot. */
    method Insert(h: nat, str: CString) returns (r: CString, ghost known: bool)
      requires Linked() && h < table.Length
      modifies this, place.Keys
      ensures Linked() && fresh(place.Keys - old(place.Keys)) && contents == old(contents)
      ensures known ==> r in strings[h] && r.text == str.text && strings == old(strings)
      ensures !known ==> r == str && strings == old(strings)[h := old(strings[h]) + [str]]
      ensures !known ==> !Has(old(strings[h]), str.text)
    {
      assert Chain(h);
      if table[h].str == null {
        Fill(h, str);
        return str, false;
      }
      var b, i := Seek(h, str.text);
      if b.str.text == str.text {
        return b.str, true;
      }
      Append(h, b, str);
      return str, false;
    }

    /** Fills the first bucket of an unused slot. */
    method Fill(h: nat, str: CString)
      requires Linked() && h < table.Length && strings[h] == []
      modifies this, place.Keys
      ensures Linked() && place == old(place) && contents == old(contents)
      ensures strings == old(strings)[h := old(strings[h]) + [str]]
    {
      assert Chain(h);
      table[h].str := str;
      strings := strings[h := strings[h] + [str]];
      forall g | 0 <= g < table.Length && g != h ensures Chain(g) {
        assert old(Chain(g)) && strings[g] == old(strings[g]);
      }
      assert Chain(h);
    }

    /** Hangs a new bucket behind the last one of a slot. */
    method Append(h: nat, b: Bucket, str: CString)
      requires Linked() && h < table.Length && strings[h] != []
      requires |chains[h]| == |strings[h]| && b == chains[h][|strings[h]| - 1]
      modifies this, place.Keys
      ensures Linked() && fresh(place.Keys - old(place.Keys)) && contents == old(contents)
      ensures strings == old(strings)[h := old(strings[h]) + [str]]
    {
      assert Chain(h);
      ghost var i := |strings[h]| - 1;
      var n := new Bucket(str);
      b.next := n;
      place := place[n := (h, i + 1)];
      chains := chains[h := chains[h] + [n]];
      strings := strings[h := strings[h] + [str]];
      Longer(h, n, str);
      forall g | 0 <= g < table.Length && g != h ensures Chain(g) {
        Other(g, h, n);
      }
    }

    /** The slot that got one more bucket. */
    twostate lemma {:induction false} Longer(new h: nat, new n: Bucket, new str: CString)
      requires old(table.Length == |chains| == |strings|) && h < table.Length
      requires old(Chain(h)) && old(strings[h]) != []
      requires |chains| == |strings| == table.Length && table[h] == old(table[h])
      requires chains[h] == old(chains[h]) + [n] && strings[h] == old(strings[h]) + [str]
      requires n !in old(place.Keys) && place == old(place)[n := (h, |old(strings[h])|)]
      requires n.next == null && n.str == str
      requires forall c: Bucket {:trigger place[c]} :: c in old(place.Keys) ==>
                 c.str == old(c.str) && c.next == if c == old(chains[h])[|old(strings[h])| - 1] then n else old(c.next)
      ensures Chain(h)
    {
      forall j {:trigger chains[h][j]} | 0 <= j < |chains[h]|
        ensures chains[h][j] in place && place[chains[h][j]] == (h, j)
        ensures chains[h][j].next == (if j + 1 < |chains[h]| then chains[h][j + 1] else null)
        ensures chains[h][j].str == strings[h][j]
      {
        if j < |old(chains[h])| { assert chains[h][j] == old(chains[h])[j]; }
      }
    }

    /** Any other slot. */
    twostate lemma {:induction false} Other(new g: nat, new h: nat, new n: Bucket)
      requires old(table.Length == |chains| == |strings|) && g < table.Length && h < table.Length && g != h
      requires old(Chain(g)) && old(Chain(h)) && old(strings[h]) != []
      requires |chains| == |strings| == table.Length && table[g] == old(table[g])
      requires chains[g] == old(chains[g]) && strings[g] == old(strings[g])
      requires n !in old(place.Keys) && place == old(place)[n := (h, |old(strings[h])|)]
      requires forall c: Bucket {:trigger place[c]} :: c in old(place.Keys) ==>
                 c.str == old(c.str) && c.next == if c == old(chains[h])[|old(strings[h])| - 1] then n else old(c.next)
      ensures Chain(g)
    {
      forall j {:trigger chains[g][j]} | 0 <= j < |chains[g]|
        ensures chains[g][j] in place && place[chains[g][j]] == (g, j)
        ensures chains[g][j].next == (if j + 1 < |chains[g]| then chains[g][j + 1] else null)
        ensures chains[g][j].str == (if j < |strings[g]| then strings[g][j] else null)
      {
        assert chains[g][j] == old(chains[g])[j];
        assert old(chains[h])[|old(strings[h])| - 1] in old(place.Keys);
      }
    }
  }
}
