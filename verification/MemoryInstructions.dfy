/** Static fields and arrays by opcode number (src/core.c:480-756, src/core.c:1412-1583), in the terms of
  * InstructionSet; arrays byte by byte.
  */
module MemoryInstructions {
  import opened Words
  import opened Bytecode
  import opened FrameMachine
  import opened InstructionSet
  import Control = ControlInstructions
  import ArrayHeap

  // ---- Static fields ----

  /** The field signatures of two words and of one; all others are refused. */
  predicate TwoWordSignature(signature: string) { signature == "D" || signature == "J" }

  predicate OneWordSignature(signature: string) {
    (signature != "" && signature[0] == '[') || signature in {"B", "C", "F", "I", "S", "Z"}
  }

  lemma {:induction false} WordsOfField(signature: string)
    ensures FieldWords(signature) ==
            if TwoWordSignature(signature) then 2 else if OneWordSignature(signature) then 1 else 0
  {
  }

  /** The field that an instruction at pc refers to, of an initialised class. */
  predicate Accesses(p: Program, s: State, r: FieldRef)
    requires s.frames.Frame?
  {
    var k, n := p.ClassAt(s.frames.cls), Half(p, s);
    n in k.fields && k.fields[n] == r && r.cls in s.world.flagged
  }

  /** The two words of a field; zero before it is written. */
  function FieldOf(s: State, r: FieldRef): Pair {
    if (r.cls, r.field) in s.world.statics then s.world.statics[(r.cls, r.field)] else Pair(0, 0)
  }

  /** getstatic */
  lemma {:induction false} GetsStatic(p: Program, s: State, ch: Choice, r: FieldRef)
    requires s.frames.Frame? && Opcode(p, s, {178}) && Accesses(p, s, r)
    ensures var v, u := FieldOf(s, r), s.(world := s.world.(loaded := s.world.loaded + {r.cls}));
            Step(p, s, ch) ==
            if TwoWordSignature(r.signature) then Pushes(u, 3, [v.lo, v.hi])
            else if OneWordSignature(r.signature) then Pushes(u, 3, [v.lo])
            else Fails(u, FieldNotSupported)
  {
    hide Step, Decode, FieldWords;
    Control.Decoded(p, s);
    Control.StepOfReference(p, s, ch);
    WordsOfField(r.signature);
  }

  /** putstatic of one word: the low word of the field. */
  lemma {:induction false} PutsStatic(p: Program, s: State, ch: Choice, r: FieldRef, rest: seq<Word>, w: Word)
    requires s.frames.Frame? && Opcode(p, s, {179}) && Accesses(p, s, r) && s.frames.ops == rest + [w]
    requires OneWordSignature(r.signature)
    ensures var statics := s.world.statics[(r.cls, r.field) := Pair(w, FieldOf(s, r).hi)];
            Step(p, s, ch) == Goes(s.(world := s.world.(loaded := s.world.loaded + {r.cls}, statics := statics)), 3,
              s.frames.locals, rest)
  {
    hide Step, Decode, FieldWords;
    Control.Decoded(p, s);
    WordsOfField(r.signature);
    Split(rest, [w]);
    Control.StepOfReference(p, s, ch);
  }

  /** putstatic of two words. */
  lemma {:induction false} PutsStaticPair(p: Program, s: State, ch: Choice, r: FieldRef, rest: seq<Word>, v: Pair)
    requires s.frames.Frame? && Opcode(p, s, {179}) && Accesses(p, s, r) && s.frames.ops == rest + [v.lo, v.hi]
    requires TwoWordSignature(r.signature)
    ensures var statics := s.world.statics[(r.cls, r.field) := v];
            Step(p, s, ch) == Goes(s.(world := s.world.(loaded := s.world.loaded + {r.cls}, statics := statics)), 3,
              s.frames.locals, rest)
  {
    hide Step, Decode, FieldWords;
    Control.Decoded(p, s);
    WordsOfField(r.signature);
    Split(rest, [v.lo, v.hi]);
    Control.StepOfReference(p, s, ch);
  }

  /** putstatic of any other signature. */
  lemma {:induction false} RefusesField(p: Program, s: State, ch: Choice, r: FieldRef)
    requires s.frames.Frame? && Opcode(p, s, {179}) && Accesses(p, s, r)
    requires !OneWordSignature(r.signature) && !TwoWordSignature(r.signature)
    ensures Step(p, s, ch) == Fails(s.(world := s.world.(loaded := s.world.loaded + {r.cls})), FieldNotSupported)
  {
    hide Step, Decode, FieldWords;
    Control.Decoded(p, s);
    WordsOfField(r.signature);
    Control.StepOfReference(p, s, ch);
  }

  // ---- Arrays ----

  lemma {:induction false} StepOfArray(p: Program, s: State, ch: Choice, rest: seq<Word>, ws: seq<Word>)
    requires s.frames.Frame? && Live(s) && s.frames.ops == rest + ws
    requires IsArray(Decode(p.memory, s.frames.pc).i) && Needs(Decode(p.memory, s.frames.pc).i) == |ws|
    ensures Step(p, s, ch) == Arrays(s, Decode(p.memory, s.frames.pc), ch)
    ensures Drop(s.frames.ops, |ws|) == rest && forall k :: 0 <= k < |ws| ==> Top(s.frames.ops, k) == ws[|ws| - 1 - k]
  {
    hide Decode, Control.Jumps, Arrays, Reference, Straight;
    Split(rest, ws);
  }

  /** The bytes of an element of each newarray type, 0 for a code that is none. */
  function ElementSize(code: Byte): nat {
    if code == 7 || code == 11 then 8 else if code == 6 || code == 10 then 4 else if code == 9 then 2
    else if code == 4 || code == 5 || code == 8 then 1 else 0
  }

  /** newarray: the length comes from the operands, and every byte is zero. malloc fails, or gives an address that
    * is not in use.
    */
  lemma {:induction false} CreatesArray(p: Program, s: State, ch: Choice, rest: seq<Word>, length: Word)
    requires s.frames.Frame? && Opcode(p, s, {188}) && s.frames.ops == rest + [length]
    ensures var size, heap := ElementSize(Operand(p, s, 1)), s.world.heap;
            Step(p, s, ch) ==
            if size == 0 then Fails(s, InvalidArrayType)
            else if ch.address == 0 || ch.address in heap then Fails(s, OutOfMemory)
            else
              var a := ArrayHeap.Arr(length, seq(length * size, _ => 0));
              Goes(s.(world := s.world.(heap := heap[ch.address := a])), 2, s.frames.locals, rest + [ch.address])
  {
    hide Step;
    StepOfArray(p, s, ch, rest, [length]);
  }

  /** arraylength */
  lemma {:induction false} GivesLength(p: Program, s: State, ch: Choice, rest: seq<Word>, ref: Word)
    requires s.frames.Frame? && Opcode(p, s, {190}) && s.frames.ops == rest + [ref]
    ensures ref == 0 ==> Step(p, s, ch) == Fails(s, NullPointer)
    ensures ref != 0 && ref in s.world.heap ==>
              Step(p, s, ch) == Goes(s, 1, s.frames.locals, rest + [s.world.heap[ref].length])
  {
    hide Step;
    StepOfArray(p, s, ch, rest, [ref]);
  }

  /** The array at this address has the element at this index, which takes this many bytes. */
  predicate HasElement(s: State, ref: Word, index: Word, size: nat) {
    && ref != 0 && ref in s.world.heap && index < s.world.heap[ref].length
    && index * size + size <= |s.world.heap[ref].data|
  }

  /** Why an access fails: a null reference first, then the index, read as unsigned. */
  predicate Denied(s: State, ref: Word, index: Word) {
    ref == 0 || (ref in s.world.heap && index >= s.world.heap[ref].length)
  }

  function Denial(ref: Word): Error { if ref == 0 then NullPointer else OutOfBounds }

  function Low(i: int): Byte { i % 256 }

  /** Two bytes, and four, the least significant first. */
  function Word2(low: int, high: int): int { low + 0x100 * high }

  function Word4(b: seq<Byte>, at: nat): Word
    requires at + 4 <= |b|
  {
    Word2(b[at], b[at + 1]) + 0x1_0000 * Word2(b[at + 2], b[at + 3])
  }

  function Put4(b: seq<Byte>, at: nat, w: Word): seq<Byte>
    requires at + 4 <= |b|
  {
    b[at := Low(w)][at + 1 := Low(w / 256)][at + 2 := Low(w / 0x1_0000)][at + 3 := Low(w / 0x100_0000)]
  }

  lemma {:induction false} LoadIs(b: seq<Byte>, at: nat)
    ensures at + 1 <= |b| ==> ArrayHeap.Load(b, at, 1) == b[at]
    ensures at + 2 <= |b| ==> ArrayHeap.Load(b, at, 2) == Word2(b[at], b[at + 1])
    ensures at + 4 <= |b| ==> ArrayHeap.Load(b, at, 4) == Word4(b, at)
  {
    if at + 4 <= |b| {
      assert ArrayHeap.Load(b, at + 2, 2) == Word2(b[at + 2], b[at + 3]);
    }
  }

  lemma {:induction false} StoreIs(b: seq<Byte>, at: nat, w: Word)
    ensures at + 1 <= |b| ==> ArrayHeap.Store(b, at, 1, w) == b[at := Low(w)]
    ensures at + 2 <= |b| ==> ArrayHeap.Store(b, at, 2, w) == b[at := Low(w)][at + 1 := Low(w / 256)]
    ensures at + 4 <= |b| ==> ArrayHeap.Store(b, at, 4, w) == Put4(b, at, w)
  {
    assert w / 256 / 256 == w / 0x1_0000 && w / 256 / 256 / 256 == w / 0x100_0000;
    if at + 4 <= |b| {
      var c := b[at := Low(w)][at + 1 := Low(w / 256)];
      assert ArrayHeap.Store(c, at + 2, 2, w / 256 / 256) == Put4(b, at, w);
    }
  }

  /** The loads: int and float four bytes, byte and char one, short two; nothing extends a sign. */
  lemma {:induction false} LoadsElement(p: Program, s: State, ch: Choice, rest: seq<Word>, ref: Word, index: Word)
    requires s.frames.Frame? && s.frames.ops == rest + [ref, index]
    ensures var t, locals := Step(p, s, ch), s.frames.locals;
            && (Opcode(p, s, {46, 48}) && HasElement(s, ref, index, 4) ==>
                  t == Goes(s, 1, locals, rest + [Word4(s.world.heap[ref].data, 4 * index)]))
            && (Opcode(p, s, {51, 52}) && HasElement(s, ref, index, 1) ==>
                  t == Goes(s, 1, locals, rest + [s.world.heap[ref].data[index]]))
            && (Opcode(p, s, {53}) && HasElement(s, ref, index, 2) ==>
                  var b := s.world.heap[ref].data;
                  t == Goes(s, 1, locals, rest + [Word2(b[2 * index], b[2 * index + 1])]))
            && (Opcode(p, s, {47, 49}) && HasElement(s, ref, index, 8) ==>
                  var b := s.world.heap[ref].data;
                  t == Goes(s, 1, locals, rest + [Word4(b, 8 * index), Word4(b, 8 * index + 4)]))
            && (Opcode(p, s, {46, 47, 48, 49, 51, 52, 53}) && Denied(s, ref, index) ==> t == Fails(s, Denial(ref)))
  {
    hide Step, ArrayHeap.Load, Word4;
    if Opcode(p, s, {46, 47, 48, 49, 51, 52, 53}) {
      StepOfArray(p, s, ch, rest, [ref, index]);
      if ref in s.world.heap {
        var b := s.world.heap[ref].data;
        LoadIs(b, index);
        LoadIs(b, 2 * index);
        LoadIs(b, 4 * index);
        LoadIs(b, 8 * index);
        LoadIs(b, 8 * index + 4);
      }
    }
  }

  /** The heap with the bytes of one array changed. */
  function WithBytes(s: State, ref: Word, b: seq<Byte>): State
    requires ref in s.world.heap
  {
    s.(world := s.world.(heap := s.world.heap[ref := s.world.heap[ref].(data := b)]))
  }

  /** The stores of one word: its low bytes, as many as the element has. */
  lemma {:induction false} StoresElement(p: Program, s: State, ch: Choice, rest: seq<Word>, ref: Word, index: Word,
                                         w: Word)
    requires s.frames.Frame? && s.frames.ops == rest + [ref, index, w]
    ensures var t, locals := Step(p, s, ch), s.frames.locals;
            && (Opcode(p, s, {79, 81}) && HasElement(s, ref, index, 4) ==>
                  t == Goes(WithBytes(s, ref, Put4(s.world.heap[ref].data, 4 * index, w)), 1, locals, rest))
            && (Opcode(p, s, {84, 85}) && HasElement(s, ref, index, 1) ==>
                  t == Goes(WithBytes(s, ref, s.world.heap[ref].data[index := Low(w)]), 1, locals, rest))
            && (Opcode(p, s, {86}) && HasElement(s, ref, index, 2) ==>
                  var b := s.world.heap[ref].data[2 * index := Low(w)][2 * index + 1 := Low(w / 256)];
                  t == Goes(WithBytes(s, ref, b), 1, locals, rest))
            && (Opcode(p, s, {79, 81, 84, 85, 86}) && Denied(s, ref, index) ==> t == Fails(s, Denial(ref)))
  {
    hide Step, ArrayHeap.Store, Put4;
    if Opcode(p, s, {79, 81, 84, 85, 86}) {
      StepOfArray(p, s, ch, rest, [ref, index, w]);
      if ref in s.world.heap {
        var b := s.world.heap[ref].data;
        StoreIs(b, index, w);
        StoreIs(b, 2 * index, w);
        StoreIs(b, 4 * index, w);
      }
    }
  }

  /** lastore and dastore: the low word first. */
  lemma {:induction false} StoresPairElement(p: Program, s: State, ch: Choice, rest: seq<Word>, ref: Word, index: Word,
                                             v: Pair)
    requires s.frames.Frame? && s.frames.ops == rest + [ref, index, v.lo, v.hi] && Opcode(p, s, {80, 82})
    ensures HasElement(s, ref, index, 8) ==>
              var b := Put4(Put4(s.world.heap[ref].data, 8 * index, v.lo), 8 * index + 4, v.hi);
              Step(p, s, ch) == Goes(WithBytes(s, ref, b), 1, s.frames.locals, rest)
    ensures Denied(s, ref, index) ==> Step(p, s, ch) == Fails(s, Denial(ref))
  {
    hide Step, ArrayHeap.Store, Put4;
    StepOfArray(p, s, ch, rest, [ref, index, v.lo, v.hi]);
    if HasElement(s, ref, index, 8) {
      var b := s.world.heap[ref].data;
      StoreIs(b, 8 * index, v.lo);
      StoreIs(ArrayHeap.Store(b, 8 * index, 4, v.lo), 8 * index + 4, v.hi);
    }
  }
}
