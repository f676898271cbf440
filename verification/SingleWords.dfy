/** A word on its way through the machine, as TwoWords has it for longs and doubles: it stays what it is wherever
  * it is put.
  */
module SingleWords {
  import opened Words
  import opened Bytecode
  import opened Wrappers
  import opened FrameMachine
  import opened Runs
  import opened Calls
  import opened ArrayRuns
  import opened InstructionSet
  import Control = ControlInstructions
  import Memory = MemoryInstructions
  import TwoWords
  import ArrayHeap

  /** Where a word can be. A field of one word is the low word of its pair; an element is one of four bytes. */
  datatype Seat =
    | PoolEntry(cls: Word, n: nat)
    | Operand(level: nat, k: nat)
    | Local(level: nat, n: nat)
    | Static(id: FieldId)
    | Element(ref: Word, index: Word)

  predicate OperandIs(fs: Frames, k: nat, w: Word) { k < |fs.ops| && Top(fs.ops, k) == w }

  predicate LocalIs(fs: Frames, n: nat, w: Word) { fs.Frame? && n < |fs.locals| && fs.locals[n] == w }

  predicate ElementIs(w: World, ref: Word, index: Word, v: Word) {
    ref in w.heap && 4 * index + 4 <= |w.heap[ref].data| && Memory.Word4(w.heap[ref].data, 4 * index) == v
  }

  predicate Seated(p: Program, s: State, seat: Seat, w: Word) {
    match seat
    case PoolEntry(c, n) => n in p.ClassAt(c).words && p.ClassAt(c).words[n] == w
    case Operand(level, k) => level <= Depth(s.frames) && OperandIs(TwoWords.FrameAt(s.frames, level), k, w)
    case Local(level, n) => level <= Depth(s.frames) && LocalIs(TwoWords.FrameAt(s.frames, level), n, w)
    case Static(id) => StaticOf(s.world, id).lo == w
    case Element(ref, index) => ElementIs(s.world, ref, index, w)
  }

  /** The field of one word that the next instruction reads or writes. */
  function Field(p: Program, s: State): Option<FieldId>
    requires s.status == Running && s.frames.Frame? && Fit(p, s)
  {
    var r := TwoWords.Accessible(p, s);
    if r.Some? && FieldWords(r.value.signature) == 1 then Some((r.value.cls, r.value.field)) else None
  }

  /** Where dup and swap leave an operand. */
  predicate Copied(how: Shuffle, k: nat, j: nat) {
    match how
    case Dup => k == 0 && j <= 1
    case DupX1 => (k == 0 && (j == 0 || j == 2)) || (k == 1 && j == 1)
    case DupX2 => (k == 0 && (j == 0 || j == 3)) || (1 <= k <= 2 && j == k)
    case Dup2 => k <= 1 && (j == k || j == k + 2)
    case Dup2X1 => (k <= 1 && (j == k || j == k + 3)) || (k == 2 && j == 2)
    case Dup2X2 => (k <= 1 && (j == k || j == k + 4)) || (2 <= k <= 3 && j == k)
    case Swap => k <= 1 && j == 1 - k
    case _ => false
  }

  /** The store does not touch these four bytes. */
  predicate StoresApart(i: Instr, ops: seq<Word>, index: Word)
    requires Needs(i) <= |ops|
  {
    match i
    case ArrayStore(w) => 4 * index + 4 <= Top(ops, 1) * w || Top(ops, 1) * w + w <= 4 * index
    case ArrayStorePair => 4 * index + 4 <= 8 * Top(ops, 2) || 8 * Top(ops, 2) + 8 <= 4 * index
    case _ => true
  }

  /** The ways a word goes in one step. */
  ghost predicate Travels(p: Program, s: State, a: Seat, b: Seat)
    requires s.status == Running && s.frames.Frame? && Fit(p, s)
  {
    var i := Decode(p.memory, s.frames.pc).i;
    var top := Depth(s.frames);
    var ops := s.frames.ops;
    match (a, b)
    case (PoolEntry(c, n), Operand(l, k)) => i == Ldc(n) && s.frames.cls == c && l == top && k == 0
    case (Operand(l, k), Local(m, n)) =>
      (l == m == top && k == 0 && i == StoreLocal(n))
      || (l == top && m == top + 1 && Called(p, s).Some? && k + 1 + n == Called(p, s).value.target.nargs)
    case (Local(l, n), Operand(m, k)) => l == m == top && k == 0 && i == Load(n)
    case (Operand(l, k), Operand(m, j)) =>
      (l == m == top && !i.Return? && TwoWords.Taken(p, s) <= k && j == k - TwoWords.Taken(p, s) + TwoWords.Given(p, s))
      || (l == m == top && i.Move? && Copied(i.how, k, j))
      || (l == top && m + 1 == top && i.Return? && k < i.words && j == k)
      || (l == m < top && j == k + if i.Return? && l + 1 == top then i.words else 0)
    case (Local(l, n), Local(m, j)) =>
      l == m && n == j && (l < top || (l == top && !i.Return? && !TwoWords.Writes(i, n)))
    case (Operand(l, k), Static(id)) => l == top && k == 0 && i.PutStatic? && Field(p, s) == Some(id)
    case (Static(id), Operand(l, k)) => l == top && k == 0 && i.GetStatic? && Field(p, s) == Some(id)
    case (Static(id), Static(other)) => id == other && TwoWords.Written(p, s) != Some(id)
    case (Operand(l, k), Element(ref, index)) => l == top && k == 0 && i == ArrayStore(4) && ref == Top(ops, 2)
      && index == Top(ops, 1)
    case (Element(ref, index), Operand(l, k)) => l == top && k == 0 && i == ArrayLoad(4) && ref == Top(ops, 1)
      && index == Top(ops, 0)
    case (Element(ref, index), Element(other, at)) =>
      ref == other && index == at && (Stored(p, s) == Some(ref) ==> StoresApart(i, ops, index))
    case (PoolEntry(_, _), PoolEntry(_, _)) => a == b
    case _ => false
  }

  // ---- One step ----

  lemma {:induction false} MoveCarries(how: Shuffle, ops: seq<Word>, k: nat, j: nat)
    requires Needs(Move(how)) <= |ops| && Copied(how, k, j)
    ensures j < |Moved(how, ops)| && k < |ops| && Top(Moved(how, ops), j) == Top(ops, k)
  {
  }

  lemma {:induction false} StraightCarries(k: Class, i: Instr, locals: seq<Word>, ops: seq<Word>)
    requires IsStraight(i) && Fits(i, |locals|, |ops|) && Straight(k, i, locals, ops).Effect?
    ensures var e := Straight(k, i, locals, ops);
            && (i.Move? ==> e.ops == Moved(i.how, ops))
            && (i.Ldc? ==> i.index in k.words && e.ops == ops + [k.words[i.index]])
            && (i.Load? ==> e.ops == ops + [locals[i.n]])
            && (i.StoreLocal? ==> e.locals[i.n] == Top(ops, 0))
            && forall n :: 0 <= n < |locals| && !TwoWords.Writes(i, n) ==> e.locals[n] == locals[n]
  {
    hide IntOp, LongOp, LongShift, Narrow, Compare, Widen, ToPair, Moved;
  }

  lemma {:induction false} StraightStepCarries(p: Program, s: State, ch: Choice, a: Seat, b: Seat, w: Word)
    requires s.status == Running && s.frames.Frame? && Fit(p, s) && IsStraight(Decode(p.memory, s.frames.pc).i)
    requires Travels(p, s, a, b) && Seated(p, s, a, w) && Step(p, s, ch).status == Running
    ensures Seated(p, Step(p, s, ch), b, w)
  {
    hide Decode, Straight, Moved, Step, Memory.Word4, Fit, TwoWords.Taken, TwoWords.Given, Called, Triggered,
      TwoWords.Accessible, Stored, Field, TwoWords.Written;
    TwoWords.OwnTakes(p, s);
    var i, fs, t := Decode(p.memory, s.frames.pc).i, s.frames, Step(p, s, ch);
    var k := p.ClassAt(fs.cls);
    TwoWords.FrameAtTop(fs);
    TwoWords.FrameAtTop(t.frames);
    TwoWords.StepOfStraight(p, s, ch);
    StraightCarries(k, i, fs.locals, fs.ops);
    if a.Operand? && a.level == Depth(fs) && b.Operand? {
      if i.Move? && Copied(i.how, a.k, b.k) {
        MoveCarries(i.how, fs.ops, a.k, b.k);
      } else {
        TwoWords.StraightKeeps(k, i, fs.locals, fs.ops, a.k);
      }
    }
    if (a.Operand? || a.Local?) && a.level < Depth(fs) {
      TwoWords.FrameAtBelow(fs, t.frames, a.level);
    }
  }

  lemma {:induction false} JumpCarries(p: Program, s: State, ch: Choice, a: Seat, b: Seat, w: Word)
    requires s.status == Running && s.frames.Frame? && Fit(p, s) && IsJump(Decode(p.memory, s.frames.pc).i)
    requires Travels(p, s, a, b) && Seated(p, s, a, w)
    ensures Seated(p, Step(p, s, ch), b, w)
  {
    hide Decode, Step, Memory.Word4;
    var fs, t := s.frames, Step(p, s, ch);
    TwoWords.FrameAtTop(fs);
    TwoWords.FrameAtTop(t.frames);
    TwoWords.StepOfJump(p, s, ch);
    if (a.Operand? || a.Local?) && a.level < Depth(fs) {
      TwoWords.FrameAtBelow(fs, t.frames, a.level);
    }
  }

  lemma {:induction false} ReturnCarries(p: Program, s: State, ch: Choice, a: Seat, b: Seat, w: Word)
    requires s.status == Running && s.frames.Frame? && Fit(p, s) && Decode(p.memory, s.frames.pc).i.Return?
    requires Travels(p, s, a, b) && Seated(p, s, a, w)
    ensures Seated(p, Step(p, s, ch), b, w)
  {
    hide Decode, Step, Memory.Word4;
    TwoWords.StepOfReturn(p, s, ch);
    var i, t := Decode(p.memory, s.frames.pc).i, Step(p, s, ch);
    var fs := s.frames;
    DepthOfPush(fs.below, fs.ops[|fs.ops| - i.words..]);
    TwoWords.FrameAtTop(fs);
    TwoWords.FrameAtTop(fs.below);
    TwoWords.FrameAtTop(t.frames);
    if (a.Operand? || a.Local?) && a.level + 1 < Depth(fs) {
      TwoWords.FrameAtBelow(fs.below, t.frames, a.level);
    }
  }

  lemma {:induction false} KeptUnder(ops: seq<Word>, n: nat, tail: seq<Word>, k: nat)
    requires n <= k < |ops|
    ensures k - n + |tail| < |Drop(ops, n) + tail| && Top(Drop(ops, n) + tail, k - n + |tail|) == Top(ops, k)
  {
  }

  lemma {:induction false} ArrayKeeps(p: Program, s: State, ch: Choice, a: Seat, b: Seat, w: Word)
    requires s.status == Running && s.frames.Frame? && Fit(p, s) && IsArray(Decode(p.memory, s.frames.pc).i)
    requires Travels(p, s, a, b) && Seated(p, s, a, w) && Step(p, s, ch).status == Running
    requires !a.Element? && !b.Element?
    ensures Seated(p, Step(p, s, ch), b, w)
  {
    hide Decode, Step, Fit, Needs, Leaves;
    var t := Step(p, s, ch);
    var tail := TwoWords.ArrayShape(p, s, ch);
    if a.Operand? && a.level == Depth(s.frames) {
      KeptUnder(s.frames.ops, TwoWords.Taken(p, s), tail, a.k);
    }
    TwoWords.FrameAtTop(s.frames);
    TwoWords.FrameAtTop(t.frames);
    if (a.Operand? || a.Local?) && a.level < Depth(s.frames) {
      TwoWords.FrameAtBelow(s.frames, t.frames, a.level);
    }
  }

  lemma {:induction false} ArrayLoadCarries(p: Program, s: State, ch: Choice, a: Seat, b: Seat, w: Word)
    requires s.status == Running && s.frames.Frame? && Fit(p, s) && IsArray(Decode(p.memory, s.frames.pc).i)
    requires Travels(p, s, a, b) && Seated(p, s, a, w) && Step(p, s, ch).status == Running
    requires a.Element? && b.Operand?
    ensures Seated(p, Step(p, s, ch), b, w)
  {
    hide Decode, ArrayHeap.Load, Memory.Word4, Step;
    TwoWords.StepOfArray(p, s, ch);
    TwoWords.FrameAtTop(Step(p, s, ch).frames);
    Memory.LoadIs(s.world.heap[a.ref].data, 4 * a.index);
  }

  lemma {:induction false} ArrayStoreCarries(p: Program, s: State, ch: Choice, a: Seat, b: Seat, w: Word)
    requires s.status == Running && s.frames.Frame? && Fit(p, s) && IsArray(Decode(p.memory, s.frames.pc).i)
    requires Travels(p, s, a, b) && Seated(p, s, a, w) && Step(p, s, ch).status == Running
    requires b.Element? && !a.Element?
    ensures Seated(p, Step(p, s, ch), b, w)
  {
    hide Decode, ArrayHeap.Store, ArrayHeap.Load, Memory.Word4, Step;
    TwoWords.StepOfArray(p, s, ch);
    TwoWords.FrameAtTop(s.frames);
    var data := s.world.heap[b.ref].data;
    ArrayHeap.LoadAfterStore(data, 4 * b.index, 4, w);
    ArrayHeap.LoadBound(data, 4 * b.index, 4);
    Memory.LoadIs(ArrayHeap.Store(data, 4 * b.index, 4, w), 4 * b.index);
  }

  /** Four bytes beside those that a store changes. */
  lemma {:induction false} WordBeside(data: seq<Byte>, at: nat, width: nat, v: nat, b: nat)
    requires at + width <= |data| && b + 4 <= |data| && (b + 4 <= at || at + width <= b)
    ensures Memory.Word4(ArrayHeap.Store(data, at, width, v), b) == Memory.Word4(data, b)
  {
    ArrayHeap.StoreFrame(data, at, width, v);
  }

  lemma {:induction false} ElementStays(p: Program, s: State, ch: Choice, a: Seat, b: Seat, w: Word)
    requires s.status == Running && s.frames.Frame? && Fit(p, s) && a.Element? && b.Element?
    requires Travels(p, s, a, b) && Seated(p, s, a, w) && Step(p, s, ch).status == Running
    ensures Seated(p, Step(p, s, ch), b, w)
  {
    hide Decode, Fit, Straight, JumpTo, Reference, Memory.Word4, ArrayHeap.Store;
    StepKeepsArrays(p, s, ch, a.ref);
    if Stored(p, s) == Some(a.ref) {
      var i, ops, data := Decode(p.memory, s.frames.pc).i, s.frames.ops, s.world.heap[a.ref].data;
      if i.ArrayStorePair? {
        var at := Top(ops, 2) * 8;
        WordBeside(data, at, 4, Top(ops, 1), 4 * a.index);
        WordBeside(ArrayHeap.Store(data, at, 4, Top(ops, 1)), at + 4, 4, Top(ops, 0), 4 * a.index);
      } else {
        WordBeside(data, Top(ops, 1) * i.width, i.width, Top(ops, 0), 4 * a.index);
      }
    }
  }

  lemma {:induction false} ArrayCarries(p: Program, s: State, ch: Choice, a: Seat, b: Seat, w: Word)
    requires s.status == Running && s.frames.Frame? && Fit(p, s) && IsArray(Decode(p.memory, s.frames.pc).i)
    requires Travels(p, s, a, b) && Seated(p, s, a, w) && Step(p, s, ch).status == Running
    ensures Seated(p, Step(p, s, ch), b, w)
  {
    hide Step, Seated, Fit;
    if a.Element? && b.Element? {
      ElementStays(p, s, ch, a, b, w);
    } else if b.Element? {
      ArrayStoreCarries(p, s, ch, a, b, w);
    } else if a.Element? {
      ArrayLoadCarries(p, s, ch, a, b, w);
    } else {
      ArrayKeeps(p, s, ch, a, b, w);
    }
  }

  lemma {:induction false} TriggerCarries(p: Program, s: State, ch: Choice, a: Seat, b: Seat, w: Word)
    requires s.status == Running && s.frames.Frame? && Fit(p, s) && Triggered(p, s).Some?
    requires Travels(p, s, a, b) && Seated(p, s, a, w) && Step(p, s, ch).status == Running
    ensures Seated(p, Step(p, s, ch), b, w)
  {
    hide Decode, Step, Fit, TwoWords.Taken, TwoWords.Given, Called, TwoWords.Accessible, Triggered, Memory.Word4, Needs;
    var t := Step(p, s, ch);
    var kept := TwoWords.TriggerResult(p, s, ch);
    TwoWords.FrameAtTop(s.frames);
    TwoWords.FrameAtTop(t.frames);
    TwoWords.FrameAtTop(kept);
    if (a.Operand? || a.Local?) && a.level < Depth(s.frames) {
      TwoWords.FrameAtBelow(s.frames, kept, a.level);
    }
  }

  /** What reading or writing a field of one word does. */
  lemma {:induction false} FieldResult(p: Program, s: State, ch: Choice)
    requires s.status == Running && s.frames.Frame? && Fit(p, s) && Field(p, s).Some?
    requires Step(p, s, ch).status == Running
    ensures var t, i, id := Step(p, s, ch), Decode(p.memory, s.frames.pc).i, Field(p, s).value;
            && t.frames.Frame?
            && (i.GetStatic? ==> t.frames.ops == s.frames.ops + [StaticOf(s.world, id).lo])
            && (i.PutStatic? ==> |s.frames.ops| >= 1 && StaticOf(t.world, id).lo == Top(s.frames.ops, 0))
            && Depth(t.frames) == Depth(s.frames)
  {
    hide Decode, StaticConstructor, Needs, Leaves, Straight, Arrays, JumpTo;
    var r := TwoWords.Accessible(p, s).value;
    assert LoadClass(s, r.cls).world.flagged == s.world.flagged;
  }

  lemma {:induction false} FieldCarries(p: Program, s: State, ch: Choice, a: Seat, b: Seat, w: Word)
    requires s.status == Running && s.frames.Frame? && Fit(p, s) && TwoWords.Accessible(p, s).Some?
    requires Travels(p, s, a, b) && Seated(p, s, a, w) && Step(p, s, ch).status == Running
    ensures Seated(p, Step(p, s, ch), b, w)
  {
    hide Decode, Step, Fit, TwoWords.Taken, TwoWords.Given, Memory.Word4, Needs, Leaves, FieldWords;
    var t := Step(p, s, ch);
    var tail := TwoWords.FieldResult(p, s, ch);
    TwoWords.FrameAtTop(s.frames);
    TwoWords.FrameAtTop(t.frames);
    if Field(p, s).Some? { FieldResult(p, s, ch); }
    if (a.Operand? || a.Local?) && a.level < Depth(s.frames) {
      TwoWords.FrameAtBelow(s.frames, t.frames, a.level);
    }
    if a.Operand? && a.level == Depth(s.frames) && TwoWords.Taken(p, s) <= a.k {
      KeptUnder(s.frames.ops, TwoWords.Taken(p, s), tail, a.k);
    }
  }

  lemma {:induction false} CallCarries(p: Program, s: State, ch: Choice, a: Seat, b: Seat, w: Word)
    requires s.status == Running && s.frames.Frame? && Fit(p, s) && Decode(p.memory, s.frames.pc).i.Invoke?
    requires Triggered(p, s).None?
    requires Travels(p, s, a, b) && Seated(p, s, a, w) && Step(p, s, ch).status == Running
    ensures Seated(p, Step(p, s, ch), b, w)
  {
    hide Decode, Step, Fit, TwoWords.Taken, Called, Triggered, Memory.Word4, Needs, Leaves;
    var t := Step(p, s, ch);
    var kept := TwoWords.CallResult(p, s, ch);
    TwoWords.FrameAtTop(s.frames);
    TwoWords.FrameAtTop(t.frames);
    TwoWords.FrameAtTop(kept);
    if (a.Operand? || a.Local?) && a.level < Depth(s.frames) {
      TwoWords.FrameAtBelow(s.frames, kept, a.level);
    }
  }

  /** One step takes a word where Travels says. */
  lemma {:induction false} StepCarries(p: Program, s: State, ch: Choice, a: Seat, b: Seat, w: Word)
    requires s.status == Running && s.frames.Frame? && Fit(p, s)
    requires Travels(p, s, a, b) && Seated(p, s, a, w) && Step(p, s, ch).status == Running
    ensures Seated(p, Step(p, s, ch), b, w)
  {
    hide Decode, Travels, Seated, Fit;
    var i := Decode(p.memory, s.frames.pc).i;
    if a.Element? && b.Element? {
      ElementStays(p, s, ch, a, b, w);
    } else if IsStraight(i) {
      StraightStepCarries(p, s, ch, a, b, w);
    } else if IsJump(i) {
      JumpCarries(p, s, ch, a, b, w);
    } else if i.Return? {
      ReturnCarries(p, s, ch, a, b, w);
    } else if IsArray(i) {
      ArrayCarries(p, s, ch, a, b, w);
    } else if Triggered(p, s).Some? {
      TriggerCarries(p, s, ch, a, b, w);
    } else if i.Invoke? {
      CallCarries(p, s, ch, a, b, w);
    } else {
      FieldCarries(p, s, ch, a, b, w);
    }
  }

  // ---- Runs ----

  /** An itinerary: where a word is before each step of a run and at its end. */
  ghost predicate Itinerary(p: Program, s: State, chs: seq<Choice>, seats: seq<Seat>) {
    && |seats| == |chs| + 1
    && forall k :: 0 <= k < |chs| ==> Leg(p, Run(p, s, chs[..k]), seats[k], seats[k + 1])
  }

  ghost predicate Leg(p: Program, s: State, a: Seat, b: Seat) {
    s.status == Running && s.frames.Frame? && Fit(p, s) && Travels(p, s, a, b)
  }

  /** A word stays what it is along every itinerary: from the constant pool over operands, locals, arguments,
    * results, static fields and arrays, through any calls and initialisations.
    */
  lemma {:induction false} WordsAreConserved(p: Program, s: State, chs: seq<Choice>, seats: seq<Seat>, w: Word)
    requires Itinerary(p, s, chs, seats) && Seated(p, s, seats[0], w) && Run(p, s, chs).status == Running
    ensures Seated(p, Run(p, s, chs), seats[|chs|], w)
    decreases |chs|
  {
    hide Step, Seated, Travels, Fit;
    if chs != [] {
      var n := |chs| - 1;
      var t := Run(p, s, chs[..n]);
      assert Leg(p, t, seats[n], seats[n + 1]);
      forall k | 0 <= k < n ensures Leg(p, Run(p, s, chs[..n][..k]), seats[..n + 1][k], seats[..n + 1][k + 1]) {
        assert chs[..n][..k] == chs[..k];
      }
      WordsAreConserved(p, s, chs[..n], seats[..n + 1], w);
      StepCarries(p, t, chs[n], seats[n], seats[n + 1], w);
    }
  }

  // ---- Static fields over a run ----

  /** The next instruction is a putstatic that writes this field. */
  predicate Puts(p: Program, s: State, id: FieldId) {
    s.frames.Frame? && Opcode(p, s, {179}) &&
    var k, n := p.ClassAt(s.frames.cls), Half(p, s);
    n in k.fields && (k.fields[n].cls, k.fields[n].field) == id && id.0 in s.world.flagged
  }

  lemma {:induction false} PutOpcode(m: int -> Byte, pc: int)
    ensures Decode(m, pc).i.PutStatic? <==> m(pc) == 179
  {
  }

  /** Only putstatic changes a field. */
  lemma {:induction false} FieldStays(p: Program, s: State, ch: Choice, id: FieldId)
    requires !Puts(p, s, id)
    ensures StaticOf(Step(p, s, ch).world, id) == StaticOf(s.world, id)
  {
    hide Decode, Straight, Arrays, JumpTo, StaticConstructor;
    if s.status == Running && s.frames.Frame? && Fit(p, s) {
      var f := Decode(p.memory, s.frames.pc);
      PutOpcode(p.memory, s.frames.pc);
      if IsReference(f.i) {
        if f.i.PutStatic? { Control.Decoded(p, s); }
      } else {
        OwnFrameKeepsFlags(p, s, f, ch);
      }
    }
  }

  lemma {:induction false} FieldStaysThrough(p: Program, s: State, chs: seq<Choice>, id: FieldId)
    requires forall k :: 0 <= k < |chs| ==> !Puts(p, Run(p, s, chs[..k]), id)
    ensures StaticOf(Run(p, s, chs).world, id) == StaticOf(s.world, id)
    decreases |chs|
  {
    hide Step, Puts;
    if chs != [] {
      var n := |chs| - 1;
      assert forall k :: 0 <= k < n ==> chs[..n][..k] == chs[..k];
      FieldStaysThrough(p, s, chs[..n], id);
      FieldStays(p, Run(p, s, chs[..n]), chs[n], id);
    }
  }

  /** What putstatic wrote is what a getstatic of the field pushes, however long after, if no other putstatic to
    * the field came between.
    */
  lemma {:induction false} PutThenGet(p: Program, s: State, ch: Choice, chs: seq<Choice>, again: Choice,
                                      r: FieldRef, q: FieldRef, rest: seq<Word>, w: Word)
    requires s.frames.Frame? && Opcode(p, s, {179}) && Memory.Accesses(p, s, r) && s.frames.ops == rest + [w]
    requires Memory.OneWordSignature(r.signature) && Memory.OneWordSignature(q.signature)
    requires (q.cls, q.field) == (r.cls, r.field)
    requires forall k :: 0 <= k < |chs| ==> !Puts(p, Run(p, Step(p, s, ch), chs[..k]), (r.cls, r.field))
    requires var u := Run(p, Step(p, s, ch), chs);
             u.frames.Frame? && Opcode(p, u, {178}) && Memory.Accesses(p, u, q)
    ensures var u := Run(p, Step(p, s, ch), chs);
            var t := Step(p, u, again);
            t.frames == u.frames.(pc := u.frames.pc + 3, ops := u.frames.ops + [w]) && t.status == Running
  {
    hide Step, Puts;
    Memory.PutsStatic(p, s, ch, r, rest, w);
    FieldStaysThrough(p, Step(p, s, ch), chs, (r.cls, r.field));
    Memory.GetsStatic(p, Run(p, Step(p, s, ch), chs), again, q);
  }

  /** A field that was never written reads as zero. */
  lemma {:induction false} FreshField(p: Program, c: Word, main: Code, chs: seq<Choice>, again: Choice, q: FieldRef)
    requires forall k :: 0 <= k < |chs| ==> !Puts(p, Run(p, Start(c, main), chs[..k]), (q.cls, q.field))
    requires var u := Run(p, Start(c, main), chs);
             u.frames.Frame? && Opcode(p, u, {178}) && Memory.Accesses(p, u, q)
    ensures var u := Run(p, Start(c, main), chs);
            var t := Step(p, u, again);
            && (Memory.OneWordSignature(q.signature) ==> t.frames.Frame? && t.frames.ops == u.frames.ops + [0])
            && (Memory.TwoWordSignature(q.signature) ==> t.frames.Frame? && t.frames.ops == u.frames.ops + [0, 0])
  {
    hide Step, Puts;
    FieldStaysThrough(p, Start(c, main), chs, (q.cls, q.field));
    Memory.GetsStatic(p, Run(p, Start(c, main), chs), again, q);
  }

  /** Before anything has run: one frame, at the first instruction of main, with every local zero and no operands;
    * only the main class is loaded, and flagged; no field is written, no array made, nothing printed.
    */
  lemma {:induction false} StartsFresh(p: Program, c: Word, main: Code, n: nat, id: FieldId)
    ensures var s := Start(c, main);
            && s.status == Running && Depth(s.frames) == 1 && s.frames.cls == c && s.frames.pc == main.entry
            && |s.frames.locals| == main.maxLocals && s.frames.ops == []
            && (n < main.maxLocals ==> Seated(p, s, Local(1, n), 0)) && Seated(p, s, Static(id), 0)
            && s.world.loaded == s.world.flagged == {c} && s.world.heap == map[] && s.world.printed == []
  {
    TwoWords.FrameAtTop(Start(c, main).frames);
  }
}
