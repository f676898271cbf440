/** A long or double on its way through the machine: it keeps its two words, in their order, wherever it is
  * put: constant pool, operand stacks, locals, static fields, arrays, arguments and results.
  */
module TwoWords {
  import opened Words
  import opened Bytecode
  import opened Wrappers
  import opened FrameMachine
  import opened Runs
  import opened Calls
  import opened ArrayRuns
  import ArrayHeap

  /** Where a two-word value can be. A frame is named by how many frames lie below it; an operand by how
    * many words lie above it.
    */
  datatype Seat =
    | PoolEntry(cls: Word, n: nat)
    | Operand(level: nat, k: nat)
    | Local(level: nat, n: nat)
    | Static(id: FieldId)
    | Element(ref: Word, index: Word)

  function FrameAt(fs: Frames, level: nat): Frames
    decreases fs
  {
    if fs.Bottom? || Depth(fs) <= level then fs else FrameAt(fs.below, level)
  }

  predicate OperandIs(ops: seq<Word>, k: nat, v: Pair) { k + 1 < |ops| && TopPair(ops, k) == v }

  predicate LocalIs(fs: Frames, n: nat, v: Pair) {
    fs.Frame? && n + 1 < |fs.locals| && Pair(fs.locals[n], fs.locals[n + 1]) == v
  }

  predicate Seated(p: Program, s: State, seat: Seat, v: Pair) {
    match seat
    case PoolEntry(c, n) => n in p.ClassAt(c).pairs && p.ClassAt(c).pairs[n] == v
    case Operand(level, k) => level <= Depth(s.frames) && OperandIs(FrameAt(s.frames, level).ops, k, v)
    case Local(level, n) => level <= Depth(s.frames) && LocalIs(FrameAt(s.frames, level), n, v)
    case Static(id) => StaticOf(s.world, id) == v
    case Element(ref, index) =>
      ref in s.world.heap && ArrayHeap.Holds(s.world.heap[ref], index, 8)
        && ArrayHeap.LoadPair(s.world.heap[ref], index) == v
  }

  /** The instructions that write a local at this index. */
  predicate Writes(i: Instr, n: nat) {
    match i
    case StoreLocal(m) => m == n
    case StorePair(m) => m == n || m + 1 == n
    case Increment(m, _) => m == n
    case _ => false
  }

  /** The static field that the next instruction reads or writes, once its class is initialised. */
  function Accessible(p: Program, s: State): Option<FieldRef>
    requires s.status == Running && s.frames.Frame? && Fit(p, s)
  {
    var k := p.ClassAt(s.frames.cls);
    var i := Decode(p.memory, s.frames.pc).i;
    if (i.GetStatic? || i.PutStatic?) && i.index in k.fields && k.fields[i.index].cls in s.world.flagged
    then Some(k.fields[i.index]) else None
  }

  /** That field, if it has two words. */
  function Field(p: Program, s: State): Option<FieldId>
    requires s.status == Running && s.frames.Frame? && Fit(p, s)
  {
    var r := Accessible(p, s);
    if r.Some? && FieldWords(r.value.signature) == 2 then Some((r.value.cls, r.value.field)) else None
  }

  /** The field that the next instruction writes. */
  function Written(p: Program, s: State): Option<FieldId>
    requires s.status == Running && s.frames.Frame? && Fit(p, s)
  {
    var r := Accessible(p, s);
    if Decode(p.memory, s.frames.pc).i.PutStatic? && r.Some? then Some((r.value.cls, r.value.field)) else None
  }

  /** The operand words that the next step takes off the top of its frame, and those it puts there. */
  function Taken(p: Program, s: State): nat
    requires s.status == Running && s.frames.Frame? && Fit(p, s)
  {
    var k := p.ClassAt(s.frames.cls);
    var i := Decode(p.memory, s.frames.pc).i;
    if !IsReference(i) then Needs(i)
    else if Triggered(p, s).Some? then (if RunsCode(Chosen(p, s)) then Chosen(p, s).target.nargs else 0)
    else match i
      case GetStatic(_) => 0
      case PutStatic(n) => if n in k.fields then FieldWords(k.fields[n].signature) else 0
      case Invoke(n) => if n in k.calls && (!k.calls[n].target.native || p.nativesPop) then k.calls[n].target.nargs
        else 0
  }

  function Given(p: Program, s: State): nat
    requires s.status == Running && s.frames.Frame? && Fit(p, s)
  {
    var k := p.ClassAt(s.frames.cls);
    var i := Decode(p.memory, s.frames.pc).i;
    if !IsReference(i) then Leaves(i)
    else if Triggered(p, s).None? && i.GetStatic? && i.index in k.fields then FieldWords(k.fields[i.index].signature)
      else 0
  }

  /** Where the dup instructions that take a two-word operand leave it: below and on top. */
  predicate Copied(how: Shuffle, k: nat, j: nat) {
    match how
    case DupX2 => k == 1 && j == 1
    case Dup2 => k == 0 && (j == 0 || j == 2)
    case Dup2X1 => k == 0 && (j == 0 || j == 3)
    case Dup2X2 => (k == 0 && (j == 0 || j == 4)) || (k == 2 && j == 2)
    case _ => false
  }

  /** The store does not touch the bytes of the long or double element at this index. */
  predicate StoresApart(i: Instr, ops: seq<Word>, index: Word)
    requires Needs(i) <= |ops|
  {
    match i
    case ArrayStore(w) => index * 8 + 8 <= Top(ops, 1) * w || Top(ops, 1) * w + w <= index * 8
    case ArrayStorePair => index != Top(ops, 2)
    case _ => true
  }

  /** The ways a value goes in one step: where it was before and where it is after. */
  ghost predicate Travels(p: Program, s: State, a: Seat, b: Seat)
    requires s.status == Running && s.frames.Frame? && Fit(p, s)
  {
    var i := Decode(p.memory, s.frames.pc).i;
    var top := Depth(s.frames);
    var ops := s.frames.ops;
    match (a, b)
    case (PoolEntry(c, n), Operand(l, k)) => i == LdcPair(n) && s.frames.cls == c && l == top && k == 0
    case (Operand(l, k), Local(m, n)) =>
      (l == m == top && k == 0 && i == StorePair(n))
      || (l == top && m == top + 1 && Called(p, s).Some? && k + 2 + n == Called(p, s).value.target.nargs)
    case (Local(l, n), Operand(m, k)) => l == m == top && k == 0 && i == LoadPair(n)
    case (Operand(l, k), Operand(m, j)) =>
      (l == m == top && !i.Return? && Taken(p, s) <= k && j == k - Taken(p, s) + Given(p, s))
      || (l == m == top && i.Move? && Copied(i.how, k, j))
      || (l == top && m + 1 == top && i.Return? && k + 2 <= i.words && j == k)
      || (l == m < top && j == k + if i.Return? && l + 1 == top then i.words else 0)
    case (Local(l, n), Local(m, j)) =>
      l == m && n == j && (l < top || (l == top && !i.Return? && !Writes(i, n) && !Writes(i, n + 1)))
    case (Operand(l, k), Static(id)) => l == top && k == 0 && i.PutStatic? && Field(p, s) == Some(id)
    case (Static(id), Operand(l, k)) => l == top && k == 0 && i.GetStatic? && Field(p, s) == Some(id)
    case (Static(id), Static(other)) => id == other && Written(p, s) != Some(id)
    case (Operand(l, k), Element(ref, index)) => l == top && k == 0 && i.ArrayStorePair? && ref == Top(ops, 3)
      && index == Top(ops, 2)
    case (Element(ref, index), Operand(l, k)) => l == top && k == 0 && i.ArrayLoadPair? && ref == Top(ops, 1)
      && index == Top(ops, 0)
    case (Element(ref, index), Element(other, at)) =>
      ref == other && index == at && (Stored(p, s) == Some(ref) ==> StoresApart(i, ops, index))
    case (PoolEntry(_, _), PoolEntry(_, _)) => a == b
    case _ => false
  }

  lemma {:induction false} FrameAtTop(fs: Frames)
    ensures FrameAt(fs, Depth(fs)) == fs
  {
  }

  /** Own-frame steps leave the frames below alone. */
  lemma {:induction false} FrameAtBelow(fs: Frames, gs: Frames, level: nat)
    requires fs.Frame? && gs.Frame? && fs.below == gs.below && level < Depth(fs)
    ensures FrameAt(fs, level) == FrameAt(gs, level)
  {
  }

  lemma {:induction false} MoveCarries(how: Shuffle, ops: seq<Word>, v: Pair)
    requires Needs(Move(how)) <= |ops|
    ensures forall d, j :: Copied(how, d, j) && OperandIs(ops, d, v) ==> OperandIs(Moved(how, ops), j, v)
  {
  }

  /** The operand words below those an instruction takes stay where they are. */
  lemma {:induction false} StraightKeeps(k: Class, i: Instr, locals: seq<Word>, ops: seq<Word>, d: nat)
    requires IsStraight(i) && Fits(i, |locals|, |ops|) && Straight(k, i, locals, ops).Effect?
    requires Needs(i) <= d < |ops|
    ensures var e := Straight(k, i, locals, ops);
            d - Needs(i) + Leaves(i) < |e.ops| && Top(e.ops, d - Needs(i) + Leaves(i)) == Top(ops, d)
  {
    hide IntOp, LongOp, LongShift, Narrow, Compare, Widen, ToPair;
  }

  lemma {:induction false} StraightCarries(k: Class, i: Instr, locals: seq<Word>, ops: seq<Word>, v: Pair)
    requires IsStraight(i) && Fits(i, |locals|, |ops|) && Straight(k, i, locals, ops).Effect?
    ensures var e := Straight(k, i, locals, ops);
            && (i.Move? ==> e.ops == Moved(i.how, ops))
            && (i.LdcPair? && k.pairs[i.index] == v ==> OperandIs(e.ops, 0, v))
            && (i.LoadPair? && Pair(locals[i.n], locals[i.n + 1]) == v ==> OperandIs(e.ops, 0, v))
            && (i.StorePair? && OperandIs(ops, 0, v) ==> Pair(e.locals[i.n], e.locals[i.n + 1]) == v)
            && forall n :: 0 <= n < |locals| && !Writes(i, n) ==> e.locals[n] == locals[n]
  {
    hide IntOp, LongOp, LongShift, Narrow, Compare, Widen, ToPair, Moved;
  }

  // ---- What a step is, by the kind of its instruction ----

  lemma {:induction false} StepOfReturn(p: Program, s: State, ch: Choice)
    requires s.status == Running && s.frames.Frame? && Fit(p, s) && Decode(p.memory, s.frames.pc).i.Return?
    ensures var n := Decode(p.memory, s.frames.pc).i.words;
            n <= |s.frames.ops| && Step(p, s, ch) == s.(frames := Leave(s.frames, n))
  {
    hide Decode, Arrays, Reference, Straight, JumpTo;
  }

  lemma {:induction false} StepOfArray(p: Program, s: State, ch: Choice)
    requires s.status == Running && s.frames.Frame? && Fit(p, s) && IsArray(Decode(p.memory, s.frames.pc).i)
    ensures var f := Decode(p.memory, s.frames.pc);
            Needs(f.i) <= |s.frames.ops| && Step(p, s, ch) == Arrays(s, f, ch)
  {
    hide Decode, Arrays, Reference, Straight, JumpTo;
  }

  lemma {:induction false} StepOfStraight(p: Program, s: State, ch: Choice)
    requires s.status == Running && s.frames.Frame? && Fit(p, s) && IsStraight(Decode(p.memory, s.frames.pc).i)
    requires Step(p, s, ch).status == Running
    ensures var i, fs, t := Decode(p.memory, s.frames.pc).i, s.frames, Step(p, s, ch);
            && Fits(i, |fs.locals|, |fs.ops|) && t.world == s.world && t.frames.Frame? && t.frames.below == fs.below
            && Straight(p.ClassAt(fs.cls), i, fs.locals, fs.ops) == Effect(t.frames.locals, t.frames.ops)
  {
    hide Decode, Arrays, Reference, Straight, JumpTo;
  }

  lemma {:induction false} StepOfJump(p: Program, s: State, ch: Choice)
    requires s.status == Running && s.frames.Frame? && Fit(p, s) && IsJump(Decode(p.memory, s.frames.pc).i)
    ensures var i, fs, t := Decode(p.memory, s.frames.pc).i, s.frames, Step(p, s, ch);
            && t.world == s.world && t.frames.Frame? && t.frames.below == fs.below && t.frames.locals == fs.locals
            && Needs(i) <= |fs.ops| && t.frames.ops == Drop(fs.ops, Needs(i))
  {
    hide Decode, Arrays, Reference, Straight, JumpTo;
  }

  /** An instruction of its own frame takes and gives its operands, and calls nothing. */
  lemma {:induction false} OwnTakes(p: Program, s: State)
    requires s.status == Running && s.frames.Frame? && Fit(p, s) && !IsReference(Decode(p.memory, s.frames.pc).i)
    ensures var i := Decode(p.memory, s.frames.pc).i;
            Taken(p, s) == Needs(i) && Given(p, s) == Leaves(i) && Called(p, s).None?
  {
    hide Decode, Needs, Leaves;
  }

  lemma {:induction false} StraightStepCarries(p: Program, s: State, ch: Choice, a: Seat, b: Seat, v: Pair)
    requires s.status == Running && s.frames.Frame? && Fit(p, s) && IsStraight(Decode(p.memory, s.frames.pc).i)
    requires Travels(p, s, a, b) && Seated(p, s, a, v) && Step(p, s, ch).status == Running
    ensures Seated(p, Step(p, s, ch), b, v)
  {
    hide Decode, Straight, Moved, Step, ArrayHeap.Holds, ArrayHeap.LoadPair, Fit, Taken, Given, Called, Triggered,
      Accessible, Stored, Field, Written;
    OwnTakes(p, s);
    var i, fs, t := Decode(p.memory, s.frames.pc).i, s.frames, Step(p, s, ch);
    var k := p.ClassAt(fs.cls);
    FrameAtTop(fs);
    FrameAtTop(t.frames);
    StepOfStraight(p, s, ch);
    StraightCarries(k, i, fs.locals, fs.ops, v);
    if i.Move? { MoveCarries(i.how, fs.ops, v); }
    if a.Operand? && a.level == Depth(fs) && Needs(i) <= a.k {
      StraightKeeps(k, i, fs.locals, fs.ops, a.k);
      StraightKeeps(k, i, fs.locals, fs.ops, a.k + 1);
    }
    if (a.Operand? || a.Local?) && a.level < Depth(fs) {
      FrameAtBelow(fs, t.frames, a.level);
    }
  }

  lemma {:induction false} JumpCarries(p: Program, s: State, ch: Choice, a: Seat, b: Seat, v: Pair)
    requires s.status == Running && s.frames.Frame? && Fit(p, s) && IsJump(Decode(p.memory, s.frames.pc).i)
    requires Travels(p, s, a, b) && Seated(p, s, a, v)
    ensures Seated(p, Step(p, s, ch), b, v)
  {
    hide Decode, Step, ArrayHeap.Holds, ArrayHeap.LoadPair;
    var fs, t := s.frames, Step(p, s, ch);
    FrameAtTop(fs);
    FrameAtTop(t.frames);
    StepOfJump(p, s, ch);
    if (a.Operand? || a.Local?) && a.level < Depth(fs) {
      FrameAtBelow(fs, t.frames, a.level);
    }
  }

  lemma {:induction false} ReturnCarries(p: Program, s: State, ch: Choice, a: Seat, b: Seat, v: Pair)
    requires s.status == Running && s.frames.Frame? && Fit(p, s) && Decode(p.memory, s.frames.pc).i.Return?
    requires Travels(p, s, a, b) && Seated(p, s, a, v)
    ensures Seated(p, Step(p, s, ch), b, v)
  {
    hide Decode, Step, ArrayHeap.Holds, ArrayHeap.LoadPair;
    StepOfReturn(p, s, ch);
    var i, t := Decode(p.memory, s.frames.pc).i, Step(p, s, ch);
    var fs := s.frames;
    DepthOfPush(fs.below, fs.ops[|fs.ops| - i.words..]);
    FrameAtTop(fs);
    FrameAtTop(fs.below);
    FrameAtTop(t.frames);
    if (a.Operand? || a.Local?) && a.level + 1 < Depth(fs) {
      FrameAtBelow(fs.below, t.frames, a.level);
    }
  }

  /** An array instruction puts a tail in the place of the operands it takes, and changes no field. */
  ghost predicate Replaces(s: State, f: Fetched, t: State, tail: seq<Word>)
    requires s.frames.Frame? && Needs(f.i) <= |s.frames.ops|
  {
    && t.frames.Frame? && t.frames.below == s.frames.below && t.frames.locals == s.frames.locals
    && t.world.statics == s.world.statics
    && |tail| == Leaves(f.i) && t.frames.ops == Drop(s.frames.ops, Needs(f.i)) + tail
  }

  lemma {:induction false} LoadShape(s: State, f: Fetched, ch: Choice)
    requires s.frames.Frame? && Needs(f.i) <= |s.frames.ops|
             && (f.i.ArrayLoad? || f.i.ArrayLoadPair? || f.i.ArrayLength?)
    requires s.status == Running && Arrays(s, f, ch).status == Running
    ensures var ops := Arrays(s, f, ch).frames.ops;
            |ops| >= Leaves(f.i) && Replaces(s, f, Arrays(s, f, ch), ops[|ops| - Leaves(f.i)..])
  {
    hide FindElement, ArrayHeap.LoadWord, ArrayHeap.LoadPair, ArrayHeap.Holds;
  }

  lemma {:induction false} StoreShape(s: State, f: Fetched, ch: Choice)
    requires s.frames.Frame? && Needs(f.i) <= |s.frames.ops| && (f.i.ArrayStore? || f.i.ArrayStorePair?)
    requires s.status == Running && Arrays(s, f, ch).status == Running
    ensures Replaces(s, f, Arrays(s, f, ch), [])
  {
    hide FindElement, ArrayHeap.StoreWord, ArrayHeap.StorePair, ArrayHeap.Holds;
  }

  lemma {:induction false} NewShape(s: State, f: Fetched, ch: Choice)
    requires s.frames.Frame? && Needs(f.i) <= |s.frames.ops| && f.i.NewArray?
    requires s.status == Running && Arrays(s, f, ch).status == Running
    ensures var ops := Arrays(s, f, ch).frames.ops;
            |ops| >= 1 && Replaces(s, f, Arrays(s, f, ch), ops[|ops| - 1..])
  {
    hide ArrayHeap.ElementOf, Malloc, ArrayHeap.NewArray;
  }

  lemma {:induction false} ArrayShape(p: Program, s: State, ch: Choice) returns (tail: seq<Word>)
    requires s.status == Running && s.frames.Frame? && Fit(p, s) && IsArray(Decode(p.memory, s.frames.pc).i)
    requires Step(p, s, ch).status == Running
    ensures Needs(Decode(p.memory, s.frames.pc).i) <= |s.frames.ops|
    ensures Replaces(s, Decode(p.memory, s.frames.pc), Step(p, s, ch), tail)
  {
    hide Decode, Step, Arrays, Replaces;
    StepOfArray(p, s, ch);
    var f, ops := Decode(p.memory, s.frames.pc), Step(p, s, ch).frames.ops;
    if f.i.NewArray? {
      NewShape(s, f, ch);
      tail := ops[|ops| - 1..];
    } else if f.i.ArrayStore? || f.i.ArrayStorePair? {
      StoreShape(s, f, ch);
      tail := [];
    } else {
      LoadShape(s, f, ch);
      tail := ops[|ops| - Leaves(f.i)..];
    }
  }

  lemma {:induction false} KeptUnder(ops: seq<Word>, n: nat, tail: seq<Word>, k: nat, v: Pair)
    requires n <= k && OperandIs(ops, k, v)
    ensures OperandIs(Drop(ops, n) + tail, k - n + |tail|, v)
  {
  }

  lemma {:induction false} ArrayKeeps(p: Program, s: State, ch: Choice, a: Seat, b: Seat, v: Pair)
    requires s.status == Running && s.frames.Frame? && Fit(p, s) && IsArray(Decode(p.memory, s.frames.pc).i)
    requires Travels(p, s, a, b) && Seated(p, s, a, v) && Step(p, s, ch).status == Running
    requires !a.Element? && !b.Element?
    ensures Seated(p, Step(p, s, ch), b, v)
  {
    hide Decode, Step, Fit, Needs, Leaves;
    var t := Step(p, s, ch);
    var tail := ArrayShape(p, s, ch);
    if a.Operand? && a.level == Depth(s.frames) {
      KeptUnder(s.frames.ops, Taken(p, s), tail, a.k, v);
    }
    FrameAtTop(s.frames);
    FrameAtTop(t.frames);
    if (a.Operand? || a.Local?) && a.level < Depth(s.frames) {
      FrameAtBelow(s.frames, t.frames, a.level);
    }
  }

  lemma {:induction false} ArrayLoadCarries(p: Program, s: State, ch: Choice, a: Seat, b: Seat, v: Pair)
    requires s.status == Running && s.frames.Frame? && Fit(p, s) && IsArray(Decode(p.memory, s.frames.pc).i)
    requires Travels(p, s, a, b) && Seated(p, s, a, v) && Step(p, s, ch).status == Running
    requires a.Element? && b.Operand?
    ensures Seated(p, Step(p, s, ch), b, v)
  {
    hide Decode, ArrayHeap.LoadWord, ArrayHeap.StoreWord, ArrayHeap.LoadPair, ArrayHeap.StorePair, ArrayHeap.NewArray,
      ArrayHeap.Holds;
    FrameAtTop(Step(p, s, ch).frames);
  }

  lemma {:induction false} ArrayStoreCarries(p: Program, s: State, ch: Choice, a: Seat, b: Seat, v: Pair)
    requires s.status == Running && s.frames.Frame? && Fit(p, s) && IsArray(Decode(p.memory, s.frames.pc).i)
    requires Travels(p, s, a, b) && Seated(p, s, a, v) && Step(p, s, ch).status == Running
    requires b.Element? && !a.Element?
    ensures Seated(p, Step(p, s, ch), b, v)
  {
    hide Decode, ArrayHeap.LoadWord, ArrayHeap.StoreWord, ArrayHeap.LoadPair, ArrayHeap.StorePair, ArrayHeap.NewArray,
      ArrayHeap.Holds;
    var i, ops, heap := Decode(p.memory, s.frames.pc).i, s.frames.ops, s.world.heap;
    FrameAtTop(s.frames);
    if i.ArrayStorePair? {
      var arr, index := heap[Top(ops, 3)], Top(ops, 2);
      StoredPairHolds(arr, index, TopPair(ops, 0));
      ArrayHeap.PairElements(arr, index, index, TopPair(ops, 0));
    }
  }

  /** A value in an array stays there unless a store touches its bytes. */
  lemma {:induction false} ElementStays(p: Program, s: State, ch: Choice, a: Seat, b: Seat, v: Pair)
    requires s.status == Running && s.frames.Frame? && Fit(p, s) && a.Element? && b.Element?
    requires Travels(p, s, a, b) && Seated(p, s, a, v) && Step(p, s, ch).status == Running
    ensures Seated(p, Step(p, s, ch), b, v)
  {
    hide Decode, Fit, Straight, JumpTo, Reference, ArrayHeap.LoadPair, ArrayHeap.StorePair, ArrayHeap.StoreWord;
    StepKeepsArrays(p, s, ch, a.ref);
    if Stored(p, s) == Some(a.ref) {
      var i, ops, arr := Decode(p.memory, s.frames.pc).i, s.frames.ops, s.world.heap[a.ref];
      if i.ArrayStorePair? {
        ArrayHeap.PairElements(arr, Top(ops, 2), a.index, TopPair(ops, 0));
      } else {
        PairBesideWord(arr, Top(ops, 1), i.width, Top(ops, 0), a.index);
      }
    }
  }

  lemma {:induction false} PairBesideWord(arr: ArrayHeap.Arr, i: Word, width: nat, w: Word, index: Word)
    requires ArrayHeap.Holds(arr, i, width) && ArrayHeap.Holds(arr, index, 8)
    requires index * 8 + 8 <= i * width || i * width + width <= index * 8
    ensures ArrayHeap.Holds(ArrayHeap.StoreWord(arr, i, width, w), index, 8)
    ensures ArrayHeap.LoadPair(ArrayHeap.StoreWord(arr, i, width, w), index) == ArrayHeap.LoadPair(arr, index)
  {
    hide ArrayHeap.Store, ArrayHeap.PairAt;
    PairBesideBytes(arr.data, i * width, width, w, index * 8);
  }

  lemma {:induction false} PairBesideBytes(data: seq<Byte>, at: nat, width: nat, w: nat, b: nat)
    requires at + width <= |data| && b + 8 <= |data| && (b + 8 <= at || at + width <= b)
    ensures ArrayHeap.PairAt(ArrayHeap.Store(data, at, width, w), b) == ArrayHeap.PairAt(data, b)
  {
    var stored := ArrayHeap.Store(data, at, width, w);
    ArrayHeap.StoreFrame(data, at, width, w);
    ArrayHeap.LoadDepends(data, stored, b, 4);
    ArrayHeap.LoadDepends(data, stored, b + 4, 4);
  }

  lemma {:induction false} ArrayCarries(p: Program, s: State, ch: Choice, a: Seat, b: Seat, v: Pair)
    requires s.status == Running && s.frames.Frame? && Fit(p, s) && IsArray(Decode(p.memory, s.frames.pc).i)
    requires Travels(p, s, a, b) && Seated(p, s, a, v) && Step(p, s, ch).status == Running
    ensures Seated(p, Step(p, s, ch), b, v)
  {
    if a.Element? && b.Element? {
      ElementStays(p, s, ch, a, b, v);
    } else if b.Element? {
      ArrayStoreCarries(p, s, ch, a, b, v);
    } else if a.Element? {
      ArrayLoadCarries(p, s, ch, a, b, v);
    } else {
      ArrayKeeps(p, s, ch, a, b, v);
    }
  }

  /** A store keeps the bounds of an array. */
  lemma {:induction false} StoredPairHolds(arr: ArrayHeap.Arr, index: Word, p: Pair)
    requires ArrayHeap.Holds(arr, index, 8)
    ensures forall j: Word :: ArrayHeap.Holds(ArrayHeap.StorePair(arr, index, p), j, 8) <==> ArrayHeap.Holds(arr, j, 8)
  {
  }

  // ---- References ----

  /** What a trigger leaves of the frame that it interrupts. */
  lemma {:induction false} TriggerResult(p: Program, s: State, ch: Choice) returns (kept: Frames)
    requires s.status == Running && s.frames.Frame? && Fit(p, s) && Triggered(p, s).Some?
    requires Step(p, s, ch).status == Running
    ensures var t := Step(p, s, ch);
            && t.world.statics == s.world.statics && t.world.heap == s.world.heap
            && Taken(p, s) <= |s.frames.ops| && Given(p, s) == 0
            && kept.Frame? && kept.below == s.frames.below && kept.locals == s.frames.locals
            && kept.ops == Drop(s.frames.ops, Taken(p, s))
            && t.frames.Frame? && (t.frames == kept || t.frames.below == kept)
    ensures IsReference(Decode(p.memory, s.frames.pc).i) && Called(p, s).None? && Accessible(p, s).None?
  {
    hide Decode, FieldWords, Straight, Arrays, JumpTo, StaticConstructor, Needs, Leaves;
    var t := Step(p, s, ch);
    assert LoadClass(s, Triggered(p, s).value).world.loaded == s.world.loaded + {Triggered(p, s).value};
    if RunsCode(Chosen(p, s)) {
      TriggerEnters(p, s, ch);
      kept := t.frames.below;
    } else {
      kept := t.frames;
      assert Drop(s.frames.ops, 0) == s.frames.ops;
    }
  }

  lemma {:induction false} TriggerCarries(p: Program, s: State, ch: Choice, a: Seat, b: Seat, v: Pair)
    requires s.status == Running && s.frames.Frame? && Fit(p, s) && Triggered(p, s).Some?
    requires Travels(p, s, a, b) && Seated(p, s, a, v) && Step(p, s, ch).status == Running
    ensures Seated(p, Step(p, s, ch), b, v)
  {
    hide Decode, Step, Fit, Taken, Given, Called, Accessible, Triggered, ArrayHeap.Holds, ArrayHeap.LoadPair, Needs;
    var t := Step(p, s, ch);
    var kept := TriggerResult(p, s, ch);
    FrameAtTop(s.frames);
    FrameAtTop(t.frames);
    FrameAtTop(kept);
    if (a.Operand? || a.Local?) && a.level < Depth(s.frames) {
      FrameAtBelow(s.frames, kept, a.level);
    }
  }

  /** What reading or writing a field does to operands and fields. */
  lemma {:induction false} FieldResult(p: Program, s: State, ch: Choice) returns (tail: seq<Word>)
    requires s.status == Running && s.frames.Frame? && Fit(p, s) && Accessible(p, s).Some?
    requires Step(p, s, ch).status == Running
    ensures var t, r := Step(p, s, ch), Accessible(p, s).value;
            && t.frames.Frame? && t.frames.below == s.frames.below && t.frames.locals == s.frames.locals
            && t.world.heap == s.world.heap && Taken(p, s) <= |s.frames.ops|
            && |tail| == Given(p, s) && t.frames.ops == Drop(s.frames.ops, Taken(p, s)) + tail
            && (forall id :: Written(p, s) != Some(id) ==> StaticOf(t.world, id) == StaticOf(s.world, id))
            && (Field(p, s).Some? ==>
                  if Written(p, s).Some? then Taken(p, s) == 2
                    && StaticOf(t.world, Field(p, s).value) == TopPair(s.frames.ops, 0)
                  else tail == Words2(StaticOf(s.world, Field(p, s).value)))
  {
    hide Decode, StaticConstructor, Needs, Leaves;
    var r := Accessible(p, s).value;
    assert LoadClass(s, r.cls).world.flagged == s.world.flagged;
    var ops := Step(p, s, ch).frames.ops;
    tail := ops[|ops| - Given(p, s)..];
  }

  lemma {:induction false} FieldCarries(p: Program, s: State, ch: Choice, a: Seat, b: Seat, v: Pair)
    requires s.status == Running && s.frames.Frame? && Fit(p, s) && Accessible(p, s).Some?
    requires Travels(p, s, a, b) && Seated(p, s, a, v) && Step(p, s, ch).status == Running
    ensures Seated(p, Step(p, s, ch), b, v)
  {
    hide Decode, Step, Fit, Taken, Given, ArrayHeap.Holds, ArrayHeap.LoadPair, Needs, Leaves, FieldWords;
    var t := Step(p, s, ch);
    var tail := FieldResult(p, s, ch);
    FrameAtTop(s.frames);
    FrameAtTop(t.frames);
    if (a.Operand? || a.Local?) && a.level < Depth(s.frames) {
      FrameAtBelow(s.frames, t.frames, a.level);
    }
    if a.Operand? && a.level == Depth(s.frames) && Taken(p, s) <= a.k {
      KeptUnder(s.frames.ops, Taken(p, s), tail, a.k, v);
    }
  }

  /** What a call leaves of the frame that makes it. */
  lemma {:induction false} CallResult(p: Program, s: State, ch: Choice) returns (kept: Frames)
    requires s.status == Running && s.frames.Frame? && Fit(p, s) && Decode(p.memory, s.frames.pc).i.Invoke?
    requires Triggered(p, s).None? && Step(p, s, ch).status == Running
    ensures var t := Step(p, s, ch);
            && t.world.statics == s.world.statics && t.world.heap == s.world.heap
            && Taken(p, s) <= |s.frames.ops|
            && kept.Frame? && kept.below == s.frames.below && kept.locals == s.frames.locals
            && kept.ops == Drop(s.frames.ops, Taken(p, s))
            && t.frames.Frame? && (t.frames == kept || t.frames.below == kept)
            && (Called(p, s).Some? ==>
                  var n := Called(p, s).value.target.nargs;
                  && t.frames.below == kept && Taken(p, s) == n <= |t.frames.locals|
                  && forall i :: 0 <= i < n ==> t.frames.locals[i] == s.frames.ops[|s.frames.ops| - n + i])
  {
    hide Decode, FieldWords, StaticConstructor, Needs;
    var i, t := Decode(p.memory, s.frames.pc).i, Step(p, s, ch);
    var k := p.ClassAt(s.frames.cls);
    assert i.index in k.calls && k.calls[i.index].cls in s.world.flagged;
    var r := k.calls[i.index];
    assert LoadClass(s, r.cls).world.flagged == s.world.flagged;
    kept := if r.target.native then t.frames else t.frames.below;
  }

  lemma {:induction false} CallCarries(p: Program, s: State, ch: Choice, a: Seat, b: Seat, v: Pair)
    requires s.status == Running && s.frames.Frame? && Fit(p, s) && Decode(p.memory, s.frames.pc).i.Invoke?
    requires Triggered(p, s).None?
    requires Travels(p, s, a, b) && Seated(p, s, a, v) && Step(p, s, ch).status == Running
    ensures Seated(p, Step(p, s, ch), b, v)
  {
    hide Decode, Step, Fit, Taken, Called, Triggered, ArrayHeap.Holds, ArrayHeap.LoadPair, Needs, Leaves;
    var t := Step(p, s, ch);
    var kept := CallResult(p, s, ch);
    FrameAtTop(s.frames);
    FrameAtTop(t.frames);
    FrameAtTop(kept);
    if (a.Operand? || a.Local?) && a.level < Depth(s.frames) {
      FrameAtBelow(s.frames, kept, a.level);
    }
  }

  /** One step takes a two-word value where Travels says. */
  lemma {:induction false} StepCarries(p: Program, s: State, ch: Choice, a: Seat, b: Seat, v: Pair)
    requires s.status == Running && s.frames.Frame? && Fit(p, s)
    requires Travels(p, s, a, b) && Seated(p, s, a, v) && Step(p, s, ch).status == Running
    ensures Seated(p, Step(p, s, ch), b, v)
  {
    hide Decode, Travels, Seated, Fit;
    var i := Decode(p.memory, s.frames.pc).i;
    if a.Element? && b.Element? {
      ElementStays(p, s, ch, a, b, v);
    } else if IsStraight(i) {
      StraightStepCarries(p, s, ch, a, b, v);
    } else if IsJump(i) {
      JumpCarries(p, s, ch, a, b, v);
    } else if i.Return? {
      ReturnCarries(p, s, ch, a, b, v);
    } else if IsArray(i) {
      ArrayCarries(p, s, ch, a, b, v);
    } else if Triggered(p, s).Some? {
      TriggerCarries(p, s, ch, a, b, v);
    } else if i.Invoke? {
      CallCarries(p, s, ch, a, b, v);
    } else {
      FieldCarries(p, s, ch, a, b, v);
    }
  }

  /** An itinerary: where a value is before each step of a run and at its end. */
  ghost predicate Itinerary(p: Program, s: State, chs: seq<Choice>, seats: seq<Seat>) {
    && |seats| == |chs| + 1
    && forall k :: 0 <= k < |chs| ==> Leg(p, Run(p, s, chs[..k]), seats[k], seats[k + 1])
  }

  ghost predicate Leg(p: Program, s: State, a: Seat, b: Seat) {
    s.status == Running && s.frames.Frame? && Fit(p, s) && Travels(p, s, a, b)
  }

  /** A 64-bit value keeps its bits along every itinerary: from the constant pool over operand stacks,
    * locals, static fields, arrays, arguments and results, through any calls and initialisations.
    */
  lemma {:induction false} TwoWordsAreConserved(p: Program, s: State, chs: seq<Choice>, seats: seq<Seat>, v: Pair)
    requires Itinerary(p, s, chs, seats) && Seated(p, s, seats[0], v) && Run(p, s, chs).status == Running
    ensures Seated(p, Run(p, s, chs), seats[|chs|], v)
    decreases |chs|
  {
    hide Step, Seated, Travels, Fit;
    if chs != [] {
      var n := |chs| - 1;
      var t := Run(p, s, chs[..n]);
      assert Leg(p, t, seats[n], seats[n + 1]);
      forall k | 0 <= k < n ensures Leg(p, Run(p, s, chs[..n][..k]), seats[..n + 1][k], seats[..n + 1][k + 1]) {
        assert chs[..n][..k] == chs[..k];
      }
      TwoWordsAreConserved(p, s, chs[..n], seats[..n + 1], v);
      StepCarries(p, t, chs[n], seats[n], seats[n + 1], v);
    }
  }
}
