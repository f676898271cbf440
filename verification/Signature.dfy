/** Counting the argument words of a method descriptor (src/signature.c), against the descriptor
  * grammar of section 4.3.3 of the JVMS. The count fixes where every called frame begins.
  */
module Signature {

  /** `Overrun`: the scan runs past the terminating zero of the string. */
  datatype Scanned = Count(n: int) | BadSignature | Overrun

  predicate IsOneWord(c: char) { c == 'B' || c == 'C' || c == 'F' || c == 'I' || c == 'S' || c == 'Z' }

  predicate IsTwoWords(c: char) { c == 'J' || c == 'D' }

  /** The scan of the rest of a signature, in its three modes. The count is an unsigned byte. */
  function Scan(rest: string, inClass: bool, inArray: bool, nargs: int): Scanned {
    if rest == "" then (if inClass || inArray then Overrun else BadSignature)
    else
      var c, tail := rest[0], rest[1..];
      if c == ')' then Count(nargs)
      else if inClass then Scan(tail, c != ';', inArray, nargs)
      else if inArray then Scan(tail, c == 'L', c == '[', nargs)
      else if IsOneWord(c) then Scan(tail, false, false, (nargs + 1) % 256)
      else if IsTwoWords(c) then Scan(tail, false, false, (nargs + 2) % 256)
      else if c == 'L' then Scan(tail, true, false, (nargs + 1) % 256)
      else if c == '[' then Scan(tail, false, true, (nargs + 1) % 256)
      else BadSignature
  }

  function Nargs(signature: string): Scanned {
    if signature == "" || signature[0] != '(' then BadSignature else Scan(signature[1..], false, false, 0)
  }

  /** calculate_nargs */
  method CalculateNargs(signature: string) returns (r: Scanned)
    ensures r == Nargs(signature)
  {
    if signature == "" || signature[0] != '(' {
      return BadSignature;
    }
    var nargs, inClass, inArray, i := 0, false, false, 1;
    while i < |signature| && signature[i] != ')'
      invariant 1 <= i <= |signature|
      invariant Scan(signature[i..], inClass, inArray, nargs) == Nargs(signature)
    {
      var c := signature[i];
      i := i + 1;
      if inClass {
        if c == ';' {
          inClass := false;
        }
      } else if inArray {
        if c != '[' {
          inArray := false;
          if c == 'L' {
            inClass := true;
          }
        }
      } else if IsOneWord(c) {
        nargs := (nargs + 1) % 256;
      } else if IsTwoWords(c) {
        nargs := (nargs + 2) % 256;
      } else if c == 'L' {
        nargs := (nargs + 1) % 256;
        inClass := true;
      } else if c == '[' {
        nargs := (nargs + 1) % 256;
        inArray := true;
      } else {
        return BadSignature;
      }
    }
    if i < |signature| {
      return Count(nargs);
    } else if inClass || inArray {
      return Overrun;
    } else {
      return BadSignature;
    }
  }

  // ---------------------------------------------------------------- the grammar

  datatype FieldType = Base(c: char) | Object(name: string) | Array(element: FieldType)

  /** The base types of section 4.3.2 of the JVMS. */
  predicate Legal(t: FieldType) {
    match t
    case Base(c) => c in "BCDFIJSZ"
    case Object(name) => ';' !in name
    case Array(e) => Legal(e)
  }

  function Text(t: FieldType): string {
    match t
    case Base(c) => [c]
    case Object(name) => "L" + name + ";"
    case Array(e) => "[" + Text(e)
  }

  function ParameterText(params: seq<FieldType>): string {
    if params == [] then "" else Text(params[0]) + ParameterText(params[1..])
  }

  function Descriptor(params: seq<FieldType>, result: string): string {
    "(" + ParameterText(params) + ")" + result
  }

  /** A long or double takes two words, everything else one (section 4.3.3). */
  function Slots(t: FieldType): nat { if t == Base('J') || t == Base('D') then 2 else 1 }

  function SlotSum(params: seq<FieldType>): nat {
    if params == [] then 0 else Slots(params[0]) + SlotSum(params[1..])
  }

  /** A closing parenthesis inside a class name, which the JVMS allows. */
  predicate HasParenthesis(t: FieldType) {
    match t case Base(_) => false case Object(name) => ')' in name case Array(e) => HasParenthesis(e)
  }

  /** The words of the parameters up to and with the first one that has such a name. */
  function SlotsSeen(params: seq<FieldType>): nat {
    if params == [] then 0
    else if HasParenthesis(params[0]) then Slots(params[0])
    else Slots(params[0]) + SlotsSeen(params[1..])
  }

  predicate OnlyLastHasParenthesis(params: seq<FieldType>) {
    forall i :: 0 <= i < |params| - 1 ==> !HasParenthesis(params[i])
  }

  // ---------------------------------------------------------------- what the scan finds

  lemma {:induction false} ScanName(name: string, rest: string, nargs: int)
    requires ';' !in name
    ensures Scan(name + ";" + rest, true, false, nargs) == if ')' in name then Count(nargs)
            else Scan(rest, false, false, nargs)
    decreases |name|
  {
    var s := name + ";" + rest;
    if name == "" {
      assert s == ";" + rest;
      assert s[1..] == rest;
    } else {
      assert s[1..] == name[1..] + ";" + rest;
      assert name == [name[0]] + name[1..];
      ScanName(name[1..], rest, nargs);
    }
  }

  /** After '[' the element type is skipped. */
  lemma {:induction false} ScanElement(t: FieldType, rest: string, nargs: int)
    requires Legal(t)
    ensures Scan(Text(t) + rest, false, true, nargs) == if HasParenthesis(t) then Count(nargs)
            else Scan(rest, false, false, nargs)
  {
    var s := Text(t) + rest;
    match t
    case Base(c) => assert s[1..] == rest;
    case Object(name) =>
      assert s[1..] == name + ";" + rest;
      ScanName(name, rest, nargs);
    case Array(e) =>
      assert s[1..] == Text(e) + rest;
      ScanElement(e, rest, nargs);
  }

  lemma {:induction false} ScanParameter(t: FieldType, rest: string, nargs: int)
    requires Legal(t)
    ensures var n := (nargs + Slots(t)) % 256;
            Scan(Text(t) + rest, false, false, nargs) == if HasParenthesis(t) then Count(n)
              else Scan(rest, false, false, n)
  {
    var s := Text(t) + rest;
    match t
    case Base(c) => assert s[1..] == rest;
    case Object(name) =>
      assert s[1..] == name + ";" + rest;
      ScanName(name, rest, (nargs + 1) % 256);
    case Array(e) =>
      assert s[1..] == Text(e) + rest;
      ScanElement(e, rest, (nargs + 1) % 256);
  }

  lemma {:induction false} AddModulo(a: int, b: int, c: int)
    ensures ((a + b) % 256 + c) % 256 == (a + (b + c)) % 256
  {
  }

  lemma {:induction false} ScanParameters(params: seq<FieldType>, rest: string, nargs: int)
    requires forall t :: t in params ==> Legal(t)
    requires rest != "" && rest[0] == ')' && 0 <= nargs < 256
    ensures Scan(ParameterText(params) + rest, false, false, nargs) == Count((nargs + SlotsSeen(params)) % 256)
    decreases |params|
  {
    hide Legal;
    if params == [] {
      assert ParameterText(params) + rest == rest;
    } else {
      var more := ParameterText(params[1..]) + rest;
      assert ParameterText(params) + rest == Text(params[0]) + more;
      ScanParameter(params[0], more, nargs);
      if !HasParenthesis(params[0]) {
        var n := (nargs + Slots(params[0])) % 256;
        ScanParameters(params[1..], rest, n);
        AddModulo(nargs, Slots(params[0]), SlotsSeen(params[1..]));
      }
    }
  }

  /** For every descriptor of the grammar, with whatever letters in its class names: the words of its
    * parameters, modulo 256, up to and with the first class name that holds a parenthesis.
    */
  lemma {:induction false} CountsDescriptor(params: seq<FieldType>, result: string)
    requires forall t :: t in params ==> Legal(t)
    ensures Nargs(Descriptor(params, result)) == Count(SlotsSeen(params) % 256)
  {
    var d := Descriptor(params, result);
    assert d[1..] == ParameterText(params) + (")" + result);
    ScanParameters(params, ")" + result, 0);
  }

  lemma {:induction false} SeenAll(params: seq<FieldType>)
    ensures SlotsSeen(params) <= SlotSum(params)
    ensures SlotsSeen(params) == SlotSum(params) <==> OnlyLastHasParenthesis(params)
    decreases |params|
  {
    if params != [] {
      SeenAll(params[1..]);
      if |params| > 1 {
        assert SlotSum(params[1..]) == Slots(params[1]) + SlotSum(params[1..][1..]);
        assert OnlyLastHasParenthesis(params) <==>
          !HasParenthesis(params[0]) && OnlyLastHasParenthesis(params[1..]) by {
          assert forall i :: 0 < i < |params| - 1 ==> params[i] == params[1..][i - 1];
          assert forall i :: 0 <= i < |params[1..]| - 1 ==> params[1..][i] == params[i + 1];
        }
      }
    }
  }

  /** Within the 255 words the JVMS allows, the count is that of section 4.3.3 exactly when no
    * parameter before the last has a parenthesis in its class name.
    */
  lemma {:induction false} NargsMeetsJvms(params: seq<FieldType>, result: string)
    requires (forall t :: t in params ==> Legal(t)) && SlotSum(params) <= 255
    ensures Nargs(Descriptor(params, result)) == Count(SlotSum(params)) <==> OnlyLastHasParenthesis(params)
  {
    CountsDescriptor(params, result);
    SeenAll(params);
  }

  // ---------------------------------------------------------------- what the scan refuses

  /** A class name that is not closed ends the scan behind the string, unless it holds a parenthesis. */
  lemma {:induction false} OpenName(name: string, inArray: bool, nargs: int)
    requires ';' !in name && ')' !in name
    ensures Scan(name, true, inArray, nargs) == Overrun
    decreases |name|
  {
    if name != "" {
      assert name == [name[0]] + name[1..];
      OpenName(name[1..], inArray, nargs);
    }
  }

  /** What may follow the parameters read so far: `tail` is the rest of the signature. Only a parenthesis
    * gives a count; any letter that starts no type, and the end of the string, are refused, and a class name
    * or an array type that is not finished runs past the end.
    */
  lemma {:induction false} RefusedDescriptor(params: seq<FieldType>, tail: string)
    requires forall t :: t in params ==> Legal(t) && !HasParenthesis(t)
    ensures tail == "" ==> Nargs("(" + ParameterText(params) + tail) == BadSignature
    ensures tail != "" && tail[0] !in ")BCDFIJSZL[" ==> Nargs("(" + ParameterText(params) + tail) == BadSignature
    ensures tail != "" && tail[0] == 'L' && ';' !in tail && ')' !in tail ==>
              Nargs("(" + ParameterText(params) + tail) == Overrun
    ensures tail == "[" ==> Nargs("(" + ParameterText(params) + tail) == Overrun
  {
    var d := "(" + ParameterText(params) + tail;
    assert d[1..] == ParameterText(params) + tail;
    ScanPrefix(params, tail, 0);
    var n := SlotSum(params) % 256;
    if tail != "" && tail[0] == 'L' && ';' !in tail && ')' !in tail {
      assert tail == [tail[0]] + tail[1..];
      OpenName(tail[1..], false, (n + 1) % 256);
    }
    if tail == "[" {
      assert Scan(tail, false, false, n) == Scan("", false, true, (n + 1) % 256);
    }
  }

  /** Behind well-formed parameters the scan goes on with their words counted. */
  lemma {:induction false} ScanPrefix(params: seq<FieldType>, tail: string, nargs: int)
    requires forall t :: t in params ==> Legal(t) && !HasParenthesis(t)
    requires 0 <= nargs < 256
    ensures Scan(ParameterText(params) + tail, false, false, nargs)
            == Scan(tail, false, false, (nargs + SlotSum(params)) % 256)
    decreases |params|
  {
    hide Legal, HasParenthesis, Scan, Text, Slots;
    if params == [] {
      assert ParameterText(params) + tail == tail;
    } else {
      var more := ParameterText(params[1..]) + tail;
      assert ParameterText(params) + tail == Text(params[0]) + more;
      ScanParameter(params[0], more, nargs);
      ScanPrefix(params[1..], tail, (nargs + Slots(params[0])) % 256);
      AddModulo(nargs, Slots(params[0]), SlotSum(params[1..]));
    }
  }

  /** The element of an array is not checked: any letter will do. */
  lemma {:induction false} AnyElement(params: seq<FieldType>, c: char, result: string)
    requires (forall t :: t in params ==> Legal(t) && !HasParenthesis(t)) && c !in "L[)"
    ensures Nargs("(" + ParameterText(params) + "[" + [c] + ")" + result) == Count((SlotSum(params) + 1) % 256)
  {
    var d, tail := "(" + ParameterText(params) + "[" + [c] + ")" + result, ['[', c, ')'] + result;
    assert d[1..] == ParameterText(params) + tail;
    ScanPrefix(params, tail, 0);
    var n := (SlotSum(params) % 256 + 1) % 256;
    assert tail[1..] == [c, ')'] + result && tail[1..][1..] == [')'] + result;
    assert Scan(tail[1..][1..], false, false, n) == Count(n);
    assert Scan(tail[1..], false, true, n) == Count(n);
  }

  /** A signature that does not start with a parenthesis is refused. */
  lemma {:induction false} RefusedStart(signature: string)
    requires signature == "" || signature[0] != '('
    ensures Nargs(signature) == BadSignature
  {
  }
}
