/** Programs as the interpreter finds them in memory, and the instruction at an address.
  * Opcode numbers and operand layouts follow the table of src/core.c:221-274.
  */
module Bytecode {
  import opened Words
  import opened Switches
  import opened Wrappers

  /** The shortcut to a method's Code attribute: frame sizes and the address of its bytecode. */
  datatype Code = Code(maxStack: nat, maxLocals: nat, entry: int)

  /** `nargs` is what calculate_nargs found; `results` the words of the descriptor's return type.
    * `printed` says that call_native knows this native method.
    */
  datatype Method = Method(name: string, signature: string, nargs: nat, results: nat, native: bool, printed: bool,
    code: Option<Code>)

  datatype FieldRef = FieldRef(cls: Word, field: nat, signature: string)

  datatype MethodRef = MethodRef(cls: Word, target: Method)

  /** A class file, with the lookups its constant pool stands for. `mentionsClinit` says whether the
    * string "<clinit>" is among its constants and so enters the string pool when it is loaded.
    */
  datatype Class = Class(
    methods: seq<Method>, mentionsClinit: bool,
    words: map<nat, Word>, pairs: map<nat, Pair>,
    fields: map<nat, FieldRef>, calls: map<nat, MethodRef>)

  /** All the classes that can be loaded, by address. `exitPc` is the address of the byte that stops
    * the interpreter (src/core.c:208-211). `nativesPop` is false for the code as it is written; the
    * JVMS wants it true.
    */
  datatype Program = Program(memory: Memory, exitPc: int, classes: map<Word, Class>, nativesPop: bool)
  {
    function ClassAt(c: Word): Class {
      if c in classes then classes[c] else Class([], false, map[], map[], map[], map[])
    }
  }

  datatype Shuffle = Pop | Pop2 | Dup | DupX1 | DupX2 | Dup2 | Dup2X1 | Dup2X2 | Swap

  datatype Test = Eq | Ne | Lt | Ge | Gt | Le

  predicate Passes(t: Test, i: int) {
    match t
    case Eq => i == 0 case Ne => i != 0 case Lt => i < 0
    case Ge => i >= 0 case Gt => i > 0 case Le => i <= 0
  }

  datatype Instr =
    | Nop
    | Push(w: Word) | PushPair(p: Pair) | Ldc(index: nat) | LdcPair(index: nat)
    | Load(n: nat) | LoadPair(n: nat) | StoreLocal(n: nat) | StorePair(n: nat) | Increment(n: nat, delta: int)
    | Move(how: Shuffle)
    | IntBinary(op: Op) | IntNegate | LongBinary(op: Op) | ShiftLong(op: Op) | LongNegate
    | IntToLong | LongToInt | Cut(part: Width) | CompareLong
    | If(test: Test, target: int) | IfCompare(test: Test, target: int) | Goto(target: int)
    | TableJump | LookupJump
    | Return(words: nat)
    | GetStatic(index: nat) | PutStatic(index: nat) | Invoke(index: nat)
    | NewArray(kind: Byte) | ArrayLength
    | ArrayLoad(width: nat) | ArrayLoadPair | ArrayStore(width: nat) | ArrayStorePair
    | Exit | Unsupported | Floating

  /** An instruction and the address of the one behind it. */
  datatype Fetched = Fetched(i: Instr, next: int)

  function Index(m: Memory, a: int): nat { BigEndian(m, a, 2) }

  function LocalIndex(op: Byte, base: int): (n: nat)
    requires base <= op < base + 20
  {
    (op - base) % 4
  }

  /** Loads and stores share one layout: five with an operand byte, then twenty with the index in
    * the opcode, in the order int, long, float, double, reference.
    */
  predicate IsPairType(k: int) { k == 1 || k == 3 }

  function LoadOf(pair: bool, n: nat): Instr { if pair then LoadPair(n) else Load(n) }

  function StoreOf(pair: bool, n: nat): Instr { if pair then StorePair(n) else StoreLocal(n) }

  function Decode(m: Memory, pc: int): Fetched {
    var op := m(pc);
    if op < 46 then DecodeConstOrLoad(m, pc, op)
    else if op < 96 then DecodeMemory(m, pc, op)
    else if op < 149 then DecodeArithmetic(m, pc, op)
    else DecodeControl(m, pc, op)
  }

  function DecodeConstOrLoad(m: Memory, pc: int, op: Byte): Fetched
    requires op < 46
  {
    if op == 0 then Fetched(Nop, pc + 1)
    else if op == 1 then Fetched(Unsupported, pc + 1)
    else if op <= 8 then Fetched(Push(Wrap(op - 3)), pc + 1)
    else if op <= 10 then Fetched(PushPair(Pair(op - 9, 0)), pc + 1)
    else if op <= 13 then Fetched(Push(FloatConst(op)), pc + 1)
    else if op <= 15 then Fetched(PushPair(DoubleConst(op)), pc + 1)
    else if op == 16 then Fetched(Push(Wrap(SignedByte(m(pc + 1)))), pc + 2)
    else if op == 17 then Fetched(Push(Wrap(TwoBytes(m, pc + 1))), pc + 3)
    else if op == 18 then Fetched(Ldc(m(pc + 1)), pc + 2)
    else if op == 19 then Fetched(Ldc(Index(m, pc + 1)), pc + 3)
    else if op == 20 then Fetched(LdcPair(Index(m, pc + 1)), pc + 3)
    else if op < 26 then
      Fetched(LoadOf(IsPairType(op - 21), m(pc + 1)), pc + 2)
    else
      Fetched(LoadOf(IsPairType((op - 26) / 4), LocalIndex(op, 26)), pc + 1)
  }

  /** The bit patterns of 0.0f, 1.0f, 2.0f and of 0.0, 1.0. */
  function FloatConst(op: Byte): Word {
    if op == 11 then 0 else if op == 12 then 0x3F80_0000 else 0x4000_0000
  }

  function DoubleConst(op: Byte): Pair { if op == 14 then Pair(0, 0) else Pair(0, 0x3FF0_0000) }

  function DecodeMemory(m: Memory, pc: int, op: Byte): Fetched
    requires 46 <= op < 96
  {
    if op == 50 || op == 83 then Fetched(Unsupported, pc + 1)
    else if op < 54 then
      Fetched(if IsPairType(op - 46) then ArrayLoadPair else ArrayLoad(WidthOf(op - 46)), pc + 1)
    else if op < 59 then
      Fetched(StoreOf(IsPairType(op - 54), m(pc + 1)), pc + 2)
    else if op < 79 then
      Fetched(StoreOf(IsPairType((op - 59) / 4), LocalIndex(op, 59)), pc + 1)
    else if op < 87 then
      Fetched(if IsPairType(op - 79) then ArrayStorePair else ArrayStore(WidthOf(op - 79)), pc + 1)
    else Fetched(Move([Pop, Pop2, Dup, DupX1, DupX2, Dup2, Dup2X1, Dup2X2, Swap][op - 87]), pc + 1)
  }

  /** Bytes per element for the int, float, byte, char and short instructions (the char ones
    * treat an element as one byte).
    */
  function WidthOf(k: int): nat { if k == 5 || k == 6 then 1 else if k == 7 then 2 else 4 }

  function DecodeArithmetic(m: Memory, pc: int, op: Byte): Fetched
    requires 96 <= op < 149
  {
    if op < 116 then
      var o := [Add, Sub, Mul, Div, Rem][(op - 96) / 4];
      Fetched(if op % 4 == 0 then IntBinary(o) else if op % 4 == 1 then LongBinary(o) else Floating, pc + 1)
    else if op == 116 then Fetched(IntNegate, pc + 1)
    else if op == 117 then Fetched(LongNegate, pc + 1)
    else if op < 120 then Fetched(Floating, pc + 1)
    else if op < 126 then
      var o := [Shl, Shr, Ushr][(op - 120) / 2];
      Fetched(if op % 2 == 0 then IntBinary(o) else ShiftLong(o), pc + 1)
    else if op < 132 then
      var o := [And, Or, Xor][(op - 126) / 2];
      Fetched(if op % 2 == 0 then IntBinary(o) else LongBinary(o), pc + 1)
    else if op == 132 then Fetched(Increment(m(pc + 1), SignedByte(m(pc + 2))), pc + 3)
    else if op == 133 then Fetched(IntToLong, pc + 1)
    else if op == 136 then Fetched(LongToInt, pc + 1)
    else if op < 145 then Fetched(Floating, pc + 1)
    else if op < 148 then Fetched(Cut([ToByte, ToChar, ToShort][op - 145]), pc + 1)
    else Fetched(CompareLong, pc + 1)
  }

  function DecodeControl(m: Memory, pc: int, op: Byte): Fetched
    requires 149 <= op
  {
    if op < 153 then Fetched(Floating, pc + 1)
    else if op < 159 then Fetched(If(TestOf(op - 153), pc + 1 + TwoBytes(m, pc + 1) - 1), pc + 3)
    else if op < 165 then Fetched(IfCompare(TestOf(op - 159), pc + 1 + TwoBytes(m, pc + 1) - 1), pc + 3)
    else if op == 167 then Fetched(Goto(pc + 1 + TwoBytes(m, pc + 1) - 1), pc + 3)
    else if op == 170 then Fetched(TableJump, pc + 1)
    else if op == 171 then Fetched(LookupJump, pc + 1)
    else if op == 173 || op == 175 then Fetched(Return(2), pc + 1)
    else if op == 172 || op == 174 || op == 176 then Fetched(Return(1), pc + 1)
    else if op == 177 then Fetched(Return(0), pc + 1)
    else if op == 178 then Fetched(GetStatic(Index(m, pc + 1)), pc + 3)
    else if op == 179 then Fetched(PutStatic(Index(m, pc + 1)), pc + 3)
    else if op == 184 then Fetched(Invoke(Index(m, pc + 1)), pc + 3)
    else if op == 188 then Fetched(NewArray(m(pc + 1)), pc + 2)
    else if op == 190 then Fetched(ArrayLength, pc + 1)
    else if op == 254 then Fetched(Exit, pc + 1)
    else Fetched(Unsupported, pc + 1)
  }

  /** The switches have no operand bytes the decoder skips; the references have two; at most two words return. */
  lemma {:induction false} Lengths(m: Memory, pc: int)
    ensures var f := Decode(m, pc);
      && (f.i.TableJump? || f.i.LookupJump? ==> f.next == pc + 1)
      && (f.i.GetStatic? || f.i.PutStatic? || f.i.Invoke? ==> f.next == pc + 3)
      && (f.i.Return? ==> f.i.words <= 2)
  {
  }

  function TestOf(k: int): Test
    requires 0 <= k < 6
  {
    [Eq, Ne, Lt, Ge, Gt, Le][k]
  }

  /** The words a field of this signature takes, 0 for one that getstatic and putstatic refuse
    * (src/core.c:1430-1449).
    */
  function FieldWords(signature: string): nat {
    if signature == "D" || signature == "J" then 2
    else if |signature| >= 1 && signature[0] == '[' then 1
    else if signature in ["B", "C", "F", "I", "S", "Z"] then 1
    else 0
  }
}
