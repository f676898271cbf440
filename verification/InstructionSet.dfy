/** The instruction set by opcode number: what a step of the frame machine does for the byte at pc, in terms of the
  * bytes of the code and the words of the frame. The opcodes are those of the table at src/core.c:221-274.
  */
module InstructionSet {
  import opened Words
  import opened Switches
  import opened Bytecode
  import opened FrameMachine
  import opened Arithmetic

  // ---- The vocabulary of the statements ----

  /** It is running at an address that the machine can save. */
  predicate Live(s: State)
    requires s.frames.Frame?
  {
    s.status == Running && 0 <= s.frames.pc < 0xFFFF_FFFD
  }

  /** The next instruction has one of these opcodes. */
  predicate Opcode(p: Program, s: State, opcodes: set<int>)
    requires s.frames.Frame?
  {
    Live(s) && p.memory(s.frames.pc) in opcodes
  }

  /** The k-th byte behind the opcode, the two bytes behind it as an index, and as a signed number. */
  function Operand(p: Program, s: State, k: nat): Byte
    requires s.frames.Frame?
  {
    p.memory(s.frames.pc + k)
  }

  function Half(p: Program, s: State): nat
    requires s.frames.Frame?
  {
    256 * Operand(p, s, 1) + Operand(p, s, 2)
  }

  function Offset(p: Program, s: State): int
    requires s.frames.Frame?
  {
    if Half(p, s) < 32768 then Half(p, s) else Half(p, s) - 65536
  }

  /** A byte and a word as signed numbers. */
  function I1(b: Byte): int { if b < 128 then b else b - 256 }

  function I4(w: Word): int { if w < 0x8000_0000 then w else w - 0x1_0000_0000 }

  /** The top frame goes on n bytes further with these locals and operands. */
  function Goes(s: State, n: int, locals: seq<Word>, ops: seq<Word>): State
    requires s.frames.Frame?
  {
    var fs := s.frames;
    s.(frames := Frame(fs.cls, fs.pc + n, locals, ops, fs.below))
  }

  function Pushes(s: State, n: int, ws: seq<Word>): State
    requires s.frames.Frame?
  {
    Goes(s, n, s.frames.locals, s.frames.ops + ws)
  }

  function Fails(s: State, e: Error): State { s.(status := Failed(e)) }

  lemma {:induction false} ReadsHalf(p: Program, s: State)
    requires s.frames.Frame?
    ensures Index(p.memory, s.frames.pc + 1) == Half(p, s) && TwoBytes(p.memory, s.frames.pc + 1) == Offset(p, s)
  {
    assert BigEndian(p.memory, s.frames.pc + 1, 1) == Operand(p, s, 1);
  }

  /** Operands counted from the top. */
  lemma {:induction false} Split(rest: seq<Word>, ws: seq<Word>)
    ensures Drop(rest + ws, |ws|) == rest && forall k :: 0 <= k < |ws| ==> Top(rest + ws, k) == ws[|ws| - 1 - k]
  {
  }

  lemma {:induction false} StepIs(p: Program, s: State, ch: Choice, i: Instr, n: int, locals: seq<Word>, ops: seq<Word>)
    requires s.frames.Frame? && Live(s)
    requires Decode(p.memory, s.frames.pc) == Fetched(i, s.frames.pc + n)
    requires IsStraight(i) && Fits(i, |s.frames.locals|, |s.frames.ops|)
    requires Straight(p.ClassAt(s.frames.cls), i, s.frames.locals, s.frames.ops) == Effect(locals, ops)
    ensures Step(p, s, ch) == Goes(s, n, locals, ops)
  {
    hide Decode, Straight, Arrays, Reference, JumpTo;
  }

  lemma {:induction false} Accesses(p: Program, s: State, ch: Choice, i: Instr, n: int)
    requires s.frames.Frame? && Live(s)
    requires Decode(p.memory, s.frames.pc) == Fetched(i, s.frames.pc + n)
    requires IsAccess(i) && Fits(i, |s.frames.locals|, |s.frames.ops|)
    ensures var e := Accessed(i, s.frames.locals, s.frames.ops); Step(p, s, ch) == Goes(s, n, e.locals, e.ops)
  {
    hide Decode, Accessed, Computed;
    var e := Accessed(i, s.frames.locals, s.frames.ops);
    StepIs(p, s, ch, i, n, e.locals, e.ops);
  }

  /** An instruction that computes: its operands are taken off, its result words put on. */
  lemma {:induction false} Computes(p: Program, s: State, ch: Choice, rest: seq<Word>, ws: seq<Word>, i: Instr)
    requires s.frames.Frame? && Live(s)
    requires s.frames.ops == rest + ws && Decode(p.memory, s.frames.pc) == Fetched(i, s.frames.pc + 1)
    requires IsComputation(i) && Needs(i) == |ws|
    ensures Step(p, s, ch) == match Computed(i, s.frames.locals, s.frames.ops)
                              case Effect(locals, ops) => Goes(s, 1, locals, ops)
                              case Fault(e) => Fails(s, e)
    ensures Drop(s.frames.ops, |ws|) == rest && forall k :: 0 <= k < |ws| ==> Top(s.frames.ops, k) == ws[|ws| - 1 - k]
  {
    hide Decode, Accessed, Computed, Arrays, Reference, JumpTo;
    Split(rest, ws);
  }

  lemma {:induction false} Rearranges(p: Program, s: State, ch: Choice, how: Shuffle)
    requires s.frames.Frame? && Live(s)
    requires Decode(p.memory, s.frames.pc) == Fetched(Move(how), s.frames.pc + 1)
    requires Needs(Move(how)) <= |s.frames.ops|
    ensures Step(p, s, ch) == Goes(s, 1, s.frames.locals, Moved(how, s.frames.ops))
  {
    hide Decode, Moved, Computed, Accessed;
    StepIs(p, s, ch, Move(how), 1, s.frames.locals, Moved(how, s.frames.ops));
  }

  // ---- Constants and locals ----

  /** nop and the constants: the words pushed are the two's complement and IEEE 754 bit patterns. */
  lemma {:induction false} Constants(p: Program, s: State, ch: Choice)
    requires s.frames.Frame?
    ensures var t := Step(p, s, ch);
            && (Opcode(p, s, {0}) ==> t == Goes(s, 1, s.frames.locals, s.frames.ops))
            && (Opcode(p, s, {2}) ==> t == Pushes(s, 1, [0xFFFF_FFFF]))
            && (Opcode(p, s, {3}) ==> t == Pushes(s, 1, [0]))
            && (Opcode(p, s, {4}) ==> t == Pushes(s, 1, [1]))
            && (Opcode(p, s, {5}) ==> t == Pushes(s, 1, [2]))
            && (Opcode(p, s, {6}) ==> t == Pushes(s, 1, [3]))
            && (Opcode(p, s, {7}) ==> t == Pushes(s, 1, [4]))
            && (Opcode(p, s, {8}) ==> t == Pushes(s, 1, [5]))
            && (Opcode(p, s, {9}) ==> t == Pushes(s, 1, [0, 0]))
            && (Opcode(p, s, {10}) ==> t == Pushes(s, 1, [1, 0]))
            && (Opcode(p, s, {11}) ==> t == Pushes(s, 1, [0]))
            && (Opcode(p, s, {12}) ==> t == Pushes(s, 1, [0x3F80_0000]))
            && (Opcode(p, s, {13}) ==> t == Pushes(s, 1, [0x4000_0000]))
            && (Opcode(p, s, {14}) ==> t == Pushes(s, 1, [0, 0]))
            && (Opcode(p, s, {15}) ==> t == Pushes(s, 1, [0, 0x3FF0_0000]))
            && (Opcode(p, s, {16}) ==> t == Pushes(s, 2, [I1(Operand(p, s, 1)) % 0x1_0000_0000]))
            && (Opcode(p, s, {17}) ==> t == Pushes(s, 3, [Offset(p, s) % 0x1_0000_0000]))
  {
    hide Arrays, Reference, JumpTo, Computed, Accessed, Moved, BigEndian;
    ReadsHalf(p, s);
  }

  /** ldc1, ldc2 and ldc2w. */
  lemma {:induction false} PoolConstants(p: Program, s: State, ch: Choice)
    requires s.frames.Frame?
    ensures var t, k, n, wide := Step(p, s, ch), p.ClassAt(s.frames.cls), Operand(p, s, 1), Half(p, s);
            && (Opcode(p, s, {18}) ==>
                  t == if n in k.words then Pushes(s, 2, [k.words[n]]) else Fails(s, Unresolved))
            && (Opcode(p, s, {19}) ==>
                  t == if wide in k.words then Pushes(s, 3, [k.words[wide]]) else Fails(s, Unresolved))
            && (Opcode(p, s, {20}) ==>
                  t == if wide in k.pairs then Pushes(s, 3, [k.pairs[wide].lo, k.pairs[wide].hi])
                    else Fails(s, Unresolved))
  {
    hide Arrays, Reference, JumpTo, Computed, Accessed, Moved, BigEndian;
    ReadsHalf(p, s);
  }

  /** The loads of one word: int, float and reference. */
  lemma {:induction false} Loads(p: Program, s: State, ch: Choice)
    requires s.frames.Frame?
    ensures var t, locals, n := Step(p, s, ch), s.frames.locals, Operand(p, s, 1);
            && (Opcode(p, s, {21, 23, 25}) && n < |locals| ==> t == Pushes(s, 2, [locals[n]]))
            && (Opcode(p, s, {26, 34, 42}) && 0 < |locals| ==> t == Pushes(s, 1, [locals[0]]))
            && (Opcode(p, s, {27, 35, 43}) && 1 < |locals| ==> t == Pushes(s, 1, [locals[1]]))
            && (Opcode(p, s, {28, 36, 44}) && 2 < |locals| ==> t == Pushes(s, 1, [locals[2]]))
            && (Opcode(p, s, {29, 37, 45}) && 3 < |locals| ==> t == Pushes(s, 1, [locals[3]]))
  {
    hide Step, Straight, Computed, Moved, BigEndian;
    var f := Decode(p.memory, s.frames.pc);
    if Live(s) && f.i.Load? && Fits(f.i, |s.frames.locals|, |s.frames.ops|) {
      Accesses(p, s, ch, f.i, f.next - s.frames.pc);
    }
  }

  /** The loads of two words: long and double. */
  lemma {:induction false} LoadsPair(p: Program, s: State, ch: Choice)
    requires s.frames.Frame?
    ensures var t, locals, n := Step(p, s, ch), s.frames.locals, Operand(p, s, 1);
            && (Opcode(p, s, {22, 24}) && n + 1 < |locals| ==> t == Pushes(s, 2, [locals[n], locals[n + 1]]))
            && (Opcode(p, s, {30, 38}) && 1 < |locals| ==> t == Pushes(s, 1, [locals[0], locals[1]]))
            && (Opcode(p, s, {31, 39}) && 2 < |locals| ==> t == Pushes(s, 1, [locals[1], locals[2]]))
            && (Opcode(p, s, {32, 40}) && 3 < |locals| ==> t == Pushes(s, 1, [locals[2], locals[3]]))
            && (Opcode(p, s, {33, 41}) && 4 < |locals| ==> t == Pushes(s, 1, [locals[3], locals[4]]))
  {
    hide Step, Straight, Computed, Moved, BigEndian;
    var f := Decode(p.memory, s.frames.pc);
    if Live(s) && f.i.LoadPair? && Fits(f.i, |s.frames.locals|, |s.frames.ops|) {
      Accesses(p, s, ch, f.i, f.next - s.frames.pc);
    }
  }

  /** The stores of one word. */
  lemma {:induction false} Stores(p: Program, s: State, ch: Choice, rest: seq<Word>, w: Word)
    requires s.frames.Frame? && s.frames.ops == rest + [w]
    ensures var t, locals, n := Step(p, s, ch), s.frames.locals, Operand(p, s, 1);
            && (Opcode(p, s, {54, 56, 58}) && n < |locals| ==> t == Goes(s, 2, locals[n := w], rest))
            && (Opcode(p, s, {59, 67, 75}) && 0 < |locals| ==> t == Goes(s, 1, locals[0 := w], rest))
            && (Opcode(p, s, {60, 68, 76}) && 1 < |locals| ==> t == Goes(s, 1, locals[1 := w], rest))
            && (Opcode(p, s, {61, 69, 77}) && 2 < |locals| ==> t == Goes(s, 1, locals[2 := w], rest))
            && (Opcode(p, s, {62, 70, 78}) && 3 < |locals| ==> t == Goes(s, 1, locals[3 := w], rest))
  {
    hide Step, Straight, Computed, Moved, BigEndian;
    Split(rest, [w]);
    var f := Decode(p.memory, s.frames.pc);
    if Live(s) && f.i.StoreLocal? && Fits(f.i, |s.frames.locals|, |s.frames.ops|) {
      Accesses(p, s, ch, f.i, f.next - s.frames.pc);
    }
  }

  /** The stores of two words. */
  lemma {:induction false} StoresPair(p: Program, s: State, ch: Choice, rest: seq<Word>, lo: Word, hi: Word)
    requires s.frames.Frame? && s.frames.ops == rest + [lo, hi]
    ensures var t, locals, n := Step(p, s, ch), s.frames.locals, Operand(p, s, 1);
            && (Opcode(p, s, {55, 57}) && n + 1 < |locals| ==> t == Goes(s, 2, locals[n := lo][n + 1 := hi], rest))
            && (Opcode(p, s, {63, 71}) && 1 < |locals| ==> t == Goes(s, 1, locals[0 := lo][1 := hi], rest))
            && (Opcode(p, s, {64, 72}) && 2 < |locals| ==> t == Goes(s, 1, locals[1 := lo][2 := hi], rest))
            && (Opcode(p, s, {65, 73}) && 3 < |locals| ==> t == Goes(s, 1, locals[2 := lo][3 := hi], rest))
            && (Opcode(p, s, {66, 74}) && 4 < |locals| ==> t == Goes(s, 1, locals[3 := lo][4 := hi], rest))
  {
    hide Step, Straight, Computed, Moved, BigEndian;
    Split(rest, [lo, hi]);
    var f := Decode(p.memory, s.frames.pc);
    if Live(s) && f.i.StorePair? && Fits(f.i, |s.frames.locals|, |s.frames.ops|) {
      Accesses(p, s, ch, f.i, f.next - s.frames.pc);
    }
  }

  /** iinc */
  lemma {:induction false} Increments(p: Program, s: State, ch: Choice)
    requires s.frames.Frame?
    ensures var t, locals, n := Step(p, s, ch), s.frames.locals, Operand(p, s, 1);
            Opcode(p, s, {132}) && n < |locals| ==>
              t == Goes(s, 3, locals[n := (locals[n] + I1(Operand(p, s, 2))) % 0x1_0000_0000], s.frames.ops)
  {
    hide Arrays, Reference, JumpTo, Computed, Moved, BigEndian;
    var locals, n := s.frames.locals, Operand(p, s, 1);
    if n < |locals| {
      var delta := I1(Operand(p, s, 2));
      SameModulo(Signed(locals[n]) + delta, locals[n] + delta, -Minus(locals[n]), 0x1_0000_0000);
    }
  }

  // ---- Operands ----

  lemma {:induction false} MovedOne(rest: seq<Word>, a: Word)
    ensures Moved(Pop, rest + [a]) == rest && Moved(Dup, rest + [a]) == rest + [a, a]
  {
    assert rest + [a] + [a] == rest + [a, a];
  }

  lemma {:induction false} MovedTwo(rest: seq<Word>, a: Word, b: Word)
    ensures var ops := rest + [a, b];
            && Moved(Pop2, ops) == rest && Moved(DupX1, ops) == rest + [b, a, b]
            && Moved(Dup2, ops) == rest + [a, b, a, b] && Moved(Swap, ops) == rest + [b, a]
  {
    Split(rest, [a, b]);
    assert rest + [a, b] + [a, b] == rest + [a, b, a, b];
  }

  lemma {:induction false} MovedThree(rest: seq<Word>, a: Word, b: Word, c: Word)
    ensures var ops := rest + [a, b, c];
            Moved(DupX2, ops) == rest + [c, a, b, c] && Moved(Dup2X1, ops) == rest + [b, c, a, b, c]
  {
    Split(rest, [a, b, c]);
  }

  lemma {:induction false} MovedFour(rest: seq<Word>, a: Word, b: Word, c: Word, d: Word)
    ensures Moved(Dup2X2, rest + [a, b, c, d]) == rest + [c, d, a, b, c, d]
  {
    Split(rest, [a, b, c, d]);
  }

  /** pop and dup. */
  lemma {:induction false} MovesOne(p: Program, s: State, ch: Choice, rest: seq<Word>, a: Word)
    requires s.frames.Frame? && s.frames.ops == rest + [a]
    ensures var t, locals := Step(p, s, ch), s.frames.locals;
            && (Opcode(p, s, {87}) ==> t == Goes(s, 1, locals, rest))
            && (Opcode(p, s, {89}) ==> t == Goes(s, 1, locals, rest + [a, a]))
  {
    hide Step, Moved, Straight, Computed, Accessed, BigEndian;
    MovedOne(rest, a);
    var f := Decode(p.memory, s.frames.pc);
    if Live(s) && f.i.Move? && Needs(f.i) <= |s.frames.ops| {
      Rearranges(p, s, ch, f.i.how);
    }
  }

  /** pop2, dup_x1, dup2 and swap; b was pushed last. */
  lemma {:induction false} MovesTwo(p: Program, s: State, ch: Choice, rest: seq<Word>, a: Word, b: Word)
    requires s.frames.Frame? && s.frames.ops == rest + [a, b]
    ensures var t, locals := Step(p, s, ch), s.frames.locals;
            && (Opcode(p, s, {88}) ==> t == Goes(s, 1, locals, rest))
            && (Opcode(p, s, {90}) ==> t == Goes(s, 1, locals, rest + [b, a, b]))
            && (Opcode(p, s, {92}) ==> t == Goes(s, 1, locals, rest + [a, b, a, b]))
            && (Opcode(p, s, {95}) ==> t == Goes(s, 1, locals, rest + [b, a]))
  {
    hide Step, Moved, Straight, Computed, Accessed, BigEndian;
    MovedTwo(rest, a, b);
    var f := Decode(p.memory, s.frames.pc);
    if Live(s) && f.i.Move? && Needs(f.i) <= |s.frames.ops| {
      Rearranges(p, s, ch, f.i.how);
    }
  }

  /** dup_x2 and dup2_x1. */
  lemma {:induction false} MovesThree(p: Program, s: State, ch: Choice, rest: seq<Word>, a: Word, b: Word, c: Word)
    requires s.frames.Frame? && s.frames.ops == rest + [a, b, c]
    ensures var t, locals := Step(p, s, ch), s.frames.locals;
            && (Opcode(p, s, {91}) ==> t == Goes(s, 1, locals, rest + [c, a, b, c]))
            && (Opcode(p, s, {93}) ==> t == Goes(s, 1, locals, rest + [b, c, a, b, c]))
  {
    hide Step, Moved, Straight, Computed, Accessed, BigEndian;
    MovedThree(rest, a, b, c);
    var f := Decode(p.memory, s.frames.pc);
    if Live(s) && f.i.Move? && Needs(f.i) <= |s.frames.ops| {
      Rearranges(p, s, ch, f.i.how);
    }
  }

  /** dup2_x2 */
  lemma {:induction false} MovesFour(p: Program, s: State, ch: Choice, rest: seq<Word>, a: Word, b: Word, c: Word,
                                     d: Word)
    requires s.frames.Frame? && s.frames.ops == rest + [a, b, c, d]
    ensures Opcode(p, s, {94}) ==> Step(p, s, ch) == Goes(s, 1, s.frames.locals, rest + [c, d, a, b, c, d])
  {
    hide Step, Moved, Straight, Computed, Accessed, BigEndian;
    MovedFour(rest, a, b, c, d);
    var f := Decode(p.memory, s.frames.pc);
    if Live(s) && f.i.Move? && Needs(f.i) <= |s.frames.ops| {
      Rearranges(p, s, ch, f.i.how);
    }
  }

  // ---- Arithmetic ----

  /** iadd, isub and imul: the left operand lies deeper. */
  lemma {:induction false} IntArithmetic(p: Program, s: State, ch: Choice, rest: seq<Word>, a: Word, b: Word)
    requires s.frames.Frame? && s.frames.ops == rest + [a, b]
    ensures var t, locals := Step(p, s, ch), s.frames.locals;
            && (Opcode(p, s, {96}) ==> t == Goes(s, 1, locals, rest + [(a + b) % 0x1_0000_0000]))
            && (Opcode(p, s, {100}) ==> t == Goes(s, 1, locals, rest + [(a - b) % 0x1_0000_0000]))
            && (Opcode(p, s, {104}) ==> t == Goes(s, 1, locals, rest + [(a * b) % 0x1_0000_0000]))
  {
    hide IntOp;
    IntSum(a, b);
    IntDifference(a, b);
    IntProduct(a, b);
    BinaryInt(p, s, ch, rest, a, b);
  }

  lemma {:induction false} BinaryInt(p: Program, s: State, ch: Choice, rest: seq<Word>, a: Word, b: Word)
    requires s.frames.Frame? && s.frames.ops == rest + [a, b]
    ensures var t := Step(p, s, ch);
            && (Opcode(p, s, {96}) ==> t == Results(s, rest, IntOp(Add, a, b)))
            && (Opcode(p, s, {100}) ==> t == Results(s, rest, IntOp(Sub, a, b)))
            && (Opcode(p, s, {104}) ==> t == Results(s, rest, IntOp(Mul, a, b)))
            && (Opcode(p, s, {108}) ==> t == Results(s, rest, IntOp(Div, a, b)))
            && (Opcode(p, s, {112}) ==> t == Results(s, rest, IntOp(Rem, a, b)))
            && (Opcode(p, s, {120}) ==> t == Results(s, rest, IntOp(Shl, a, b)))
            && (Opcode(p, s, {122}) ==> t == Results(s, rest, IntOp(Shr, a, b)))
            && (Opcode(p, s, {124}) ==> t == Results(s, rest, IntOp(Ushr, a, b)))
            && (Opcode(p, s, {126}) ==> t == Results(s, rest, IntOp(And, a, b)))
            && (Opcode(p, s, {128}) ==> t == Results(s, rest, IntOp(Or, a, b)))
            && (Opcode(p, s, {130}) ==> t == Results(s, rest, IntOp(Xor, a, b)))
  {
    hide Step, Accessed, Moved, BigEndian, IntOp;
    var f, ws := Decode(p.memory, s.frames.pc), [a, b];
    if Live(s) && IsComputation(f.i) && Needs(f.i) == |ws| {
      Computes(p, s, ch, rest, ws, f.i);
    }
  }

  /** The word goes on the operands, a trap stops the program. */
  function Results(s: State, rest: seq<Word>, r: Checked<Word>): State
    requires s.frames.Frame?
  {
    match r case Value(w) => Goes(s, 1, s.frames.locals, rest + [w]) case Trapped(e) => Fails(s, Error.Arithmetic(e))
  }

  function ResultsPair(s: State, rest: seq<Word>, r: Checked<Pair>): State
    requires s.frames.Frame?
  {
    match r
    case Value(v) => Goes(s, 1, s.frames.locals, rest + [v.lo, v.hi])
    case Trapped(e) => Fails(s, Error.Arithmetic(e))
  }

  /** The quotient rounded towards zero: what remains is smaller than the divisor, with the dividend's sign. */
  predicate IsQuotient(x: int, y: int, q: int) {
    && (if y > 0 then -y < x - q * y < y else y < x - q * y < -y)
    && (x >= 0 ==> x - q * y >= 0) && (x <= 0 ==> x - q * y <= 0)
  }

  lemma {:induction false} IntDivided(a: Word, b: Word)
    ensures var x, y := I4(a), I4(b);
            if b == 0 then IntOp(Div, a, b) == IntOp(Rem, a, b) == Trapped(DivisionByZero)
            else if a == 0x8000_0000 && b == 0xFFFF_FFFF then
              IntOp(Div, a, b) == IntOp(Rem, a, b) == Trapped(HardwareTrap)
            else
              && IntOp(Div, a, b) == Value(TruncDiv(x, y) % 0x1_0000_0000)
              && IntOp(Rem, a, b) == Value((x - TruncDiv(x, y) * y) % 0x1_0000_0000)
  {
    hide TruncDiv;
  }

  lemma {:induction false} LongDivided(a: Pair, b: Pair)
    ensures var x, y := Signed64(a), Signed64(b);
            if y == 0 then LongOp(Div, a, b) == LongOp(Rem, a, b) == Trapped(DivisionByZero)
            else if x == -0x8000_0000_0000_0000 && y == -1 then
              LongOp(Div, a, b) == LongOp(Rem, a, b) == Trapped(HardwareTrap)
            else
              && LongOp(Div, a, b) == Value(ToPair(TruncDiv(x, y)))
              && LongOp(Rem, a, b) == Value(ToPair(x - TruncDiv(x, y) * y))
  {
    hide TruncDiv, ToPair, Signed64;
  }

  /** idiv and irem. */
  lemma {:induction false} IntDivision(p: Program, s: State, ch: Choice, rest: seq<Word>, a: Word, b: Word)
    returns (q: int)
    requires s.frames.Frame? && s.frames.ops == rest + [a, b]
    ensures var t, locals := Step(p, s, ch), s.frames.locals;
            if b == 0 then Opcode(p, s, {108, 112}) ==> t == Fails(s, Error.Arithmetic(DivisionByZero))
            else if a == 0x8000_0000 && b == 0xFFFF_FFFF then
              Opcode(p, s, {108, 112}) ==> t == Fails(s, Error.Arithmetic(HardwareTrap))
            else
              && IsQuotient(I4(a), I4(b), q)
              && (Opcode(p, s, {108}) ==> t == Goes(s, 1, locals, rest + [q % 0x1_0000_0000]))
              && (Opcode(p, s, {112}) ==> t == Goes(s, 1, locals, rest + [(I4(a) - q * I4(b)) % 0x1_0000_0000]))
  {
    hide TruncDiv, Step, IntOp, Decode;
    BinaryInt(p, s, ch, rest, a, b);
    IntDivided(a, b);
    q := if b == 0 then 0 else TruncDiv(I4(a), I4(b));
    if b != 0 { QuotientTruncates(I4(a), I4(b)); }
  }

  lemma {:induction false} BinaryLong(p: Program, s: State, ch: Choice, rest: seq<Word>, a: Pair, b: Pair)
    requires s.frames.Frame? && s.frames.ops == rest + [a.lo, a.hi, b.lo, b.hi]
    ensures var t := Step(p, s, ch);
            && (Opcode(p, s, {97}) ==> t == ResultsPair(s, rest, LongOp(Add, a, b)))
            && (Opcode(p, s, {101}) ==> t == ResultsPair(s, rest, LongOp(Sub, a, b)))
            && (Opcode(p, s, {105}) ==> t == ResultsPair(s, rest, LongOp(Mul, a, b)))
            && (Opcode(p, s, {109}) ==> t == ResultsPair(s, rest, LongOp(Div, a, b)))
            && (Opcode(p, s, {113}) ==> t == ResultsPair(s, rest, LongOp(Rem, a, b)))
            && (Opcode(p, s, {127}) ==> t == ResultsPair(s, rest, LongOp(And, a, b)))
            && (Opcode(p, s, {129}) ==> t == ResultsPair(s, rest, LongOp(Or, a, b)))
            && (Opcode(p, s, {131}) ==> t == ResultsPair(s, rest, LongOp(Xor, a, b)))
            && (Opcode(p, s, {148}) ==> t == Goes(s, 1, s.frames.locals, rest + [Compare(a, b)]))
  {
    hide Step, Accessed, Moved, BigEndian, LongOp, Compare;
    var f, ws := Decode(p.memory, s.frames.pc), [a.lo, a.hi, b.lo, b.hi];
    if Live(s) && IsComputation(f.i) && Needs(f.i) == |ws| {
      Computes(p, s, ch, rest, ws, f.i);
    }
  }

  /** ldiv and lrem. */
  lemma {:induction false} LongDivision(p: Program, s: State, ch: Choice, rest: seq<Word>, a: Pair, b: Pair)
    returns (q: int)
    requires s.frames.Frame? && s.frames.ops == rest + [a.lo, a.hi, b.lo, b.hi]
    ensures var t, x, y := Step(p, s, ch), Signed64(a), Signed64(b);
            if y == 0 then Opcode(p, s, {109, 113}) ==> t == Fails(s, Error.Arithmetic(DivisionByZero))
            else if x == -0x8000_0000_0000_0000 && y == -1 then
              Opcode(p, s, {109, 113}) ==> t == Fails(s, Error.Arithmetic(HardwareTrap))
            else
              && IsQuotient(x, y, q)
              && (Opcode(p, s, {109}) ==> t == ResultsPair(s, rest, Value(ToPair(q))))
              && (Opcode(p, s, {113}) ==> t == ResultsPair(s, rest, Value(ToPair(x - q * y))))
  {
    hide TruncDiv, ToPair, Signed64, Step, LongOp, Decode;
    BinaryLong(p, s, ch, rest, a, b);
    LongDivided(a, b);
    q := if Signed64(b) == 0 then 0 else TruncDiv(Signed64(a), Signed64(b));
    if Signed64(b) != 0 { QuotientTruncates(Signed64(a), Signed64(b)); }
  }

  /** lshl, lshr and lushr: the distance is one word on top. */
  lemma {:induction false} LongShifts(p: Program, s: State, ch: Choice, rest: seq<Word>, a: Pair, d: Word)
    requires s.frames.Frame? && s.frames.ops == rest + [a.lo, a.hi, d]
    ensures var t := Step(p, s, ch);
            && (Opcode(p, s, {121}) ==> t == ResultsPair(s, rest, Value(LongShift(Shl, a, d))))
            && (Opcode(p, s, {123}) ==> t == ResultsPair(s, rest, Value(LongShift(Shr, a, d))))
            && (Opcode(p, s, {125}) ==> t == ResultsPair(s, rest, Value(LongShift(Ushr, a, d))))
  {
    hide Step, Accessed, Moved, BigEndian, LongShift;
    var f, ws := Decode(p.memory, s.frames.pc), [a.lo, a.hi, d];
    if Live(s) && IsComputation(f.i) && Needs(f.i) == |ws| {
      Computes(p, s, ch, rest, ws, f.i);
    }
  }

  /** ineg, i2l and the narrowing instructions. */
  lemma {:induction false} UnaryInt(p: Program, s: State, ch: Choice, rest: seq<Word>, a: Word)
    requires s.frames.Frame? && s.frames.ops == rest + [a]
    ensures var t, locals, byte, half := Step(p, s, ch), s.frames.locals, a % 256, a % 65536;
            && (Opcode(p, s, {116}) ==> t == Goes(s, 1, locals, rest + [(0 - a) % 0x1_0000_0000]))
            && (Opcode(p, s, {133}) ==>
                  t == Goes(s, 1, locals, rest + [a, if a < 0x8000_0000 then 0 else 0xFFFF_FFFF]))
            && (Opcode(p, s, {145}) ==>
                  t == Goes(s, 1, locals, rest + [if byte < 128 then byte else byte + 0xFFFF_FF00]))
            && (Opcode(p, s, {146}) ==> t == Goes(s, 1, locals, rest + [half]))
            && (Opcode(p, s, {147}) ==>
                  t == Goes(s, 1, locals, rest + [if half < 32768 then half else 0xFFFF_0000 + half]))
  {
    hide Step, Accessed, Moved, BigEndian, Widen, Narrow;
    var f, ws := Decode(p.memory, s.frames.pc), [a];
    if Live(s) && IsComputation(f.i) && Needs(f.i) == |ws| {
      Computes(p, s, ch, rest, ws, f.i);
    }
    SameModulo(-Signed(a), 0 - a, Minus(a), 0x1_0000_0000);
    WidenIs(a);
    NarrowIs(a);
  }

  lemma {:induction false} WidenIs(a: Word)
    ensures Widen(a) == Pair(a, if a < 0x8000_0000 then 0 else 0xFFFF_FFFF)
  {
    if a >= 0x8000_0000 { SameModulo(a - 0x1_0000_0000, a + 0xFFFF_FFFF_0000_0000, -1, 0x1_0000_0000_0000_0000); }
  }

  lemma {:induction false} NarrowIs(a: Word)
    ensures Narrow(ToByte, a) == if a % 256 < 128 then a % 256 else 0xFFFF_FF00 + a % 256
    ensures Narrow(ToChar, a) == a % 65536
    ensures Narrow(ToShort, a) == if a % 65536 < 32768 then a % 65536 else 0xFFFF_0000 + a % 65536
  {
  }

  /** lneg and l2i. */
  lemma {:induction false} UnaryLong(p: Program, s: State, ch: Choice, rest: seq<Word>, a: Pair) returns (v: Pair)
    requires s.frames.Frame? && s.frames.ops == rest + [a.lo, a.hi]
    ensures LongOp(Add, a, v) == Value(Pair(0, 0))
    ensures var t := Step(p, s, ch);
            && (Opcode(p, s, {117}) ==> t == ResultsPair(s, rest, Value(v)))
            && (Opcode(p, s, {136}) ==> t == Results(s, rest, Value(a.lo)))
  {
    hide Step, Accessed, Moved, BigEndian, ToPair, LongOp, Signed64;
    var f, ws := Decode(p.memory, s.frames.pc), [a.lo, a.hi];
    if Live(s) && IsComputation(f.i) && Needs(f.i) == |ws| {
      Computes(p, s, ch, rest, ws, f.i);
    }
    v := ToPair(-Signed64(a));
    NegationCancels(a);
  }

  lemma {:induction false} NegationCancels(a: Pair)
    ensures LongOp(Add, a, ToPair(-Signed64(a))) == Value(Pair(0, 0))
  {
    var v := ToPair(-Signed64(a));
    ToPairCongruent(-Signed64(a));
    assert (Signed64(v) + Signed64(a)) % TWO_64 == 0;
    assert ToPair(Signed64(a) + Signed64(v)) == Pair(0, 0);
  }
}
