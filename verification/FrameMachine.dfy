/** The machine of section 2.6 of the JVMS: a list of frames, each with its own locals and operand
  * stack, and the state they share. Frames hold no saved registers and do not overlap.
  *
  * Step follows src/core.c case by case, also where that departs from the JVMS; what
  * departs is said, and characterised, in the modules Switches, ArrayHeap and Natives and by
  * StaticConstructor below.
  */
module FrameMachine {
  import opened Words
  import opened Switches
  import opened Bytecode
  import opened Wrappers
  import ArrayHeap

  /** `Bottom` is what main returns to: no method, only the words a main with results leaves. */
  datatype Frames =
    | Bottom(ops: seq<Word>)
    | Frame(cls: Word, pc: int, locals: seq<Word>, ops: seq<Word>, below: Frames)

  type FieldId = (Word, nat)

  /** A call of a native method with the words it was given. */
  datatype Printed = Printed(target: Method, args: seq<Word>)

  /** `flagged`: classes whose static_initialized is 1. `loaded`: classes in the ring. */
  datatype World = World(
    flagged: set<Word>, loaded: set<Word>, statics: map<FieldId, Pair>,
    heap: map<Word, ArrayHeap.Arr>, printed: seq<Printed>)

  datatype Error =
    | NullPointer | OutOfBounds | Arithmetic(trap: Trap) | NotSupported | Unresolved
    | FieldNotSupported | NativeNotSupported | InvalidArrayType | OutOfMemory
    | StrayPointer      // the code would follow a pointer it never set
    | IllFormed         // outside what verified bytecode does

  datatype Status = Running | Exited | Failed(error: Error)

  datatype State = State(frames: Frames, world: World, status: Status)

  /** What one step takes from outside: the address malloc would deliver (0 when it fails), and the words
    * that happen to lie where the locals of a new frame beyond its arguments go.
    */
  datatype Choice = Choice(address: Word, junk: int -> Word)

  // -------------------------------------------------------------- operand stacks

  function Top(ops: seq<Word>, k: nat): Word
    requires k < |ops|
  {
    ops[|ops| - 1 - k]
  }

  function Drop(ops: seq<Word>, n: nat): (r: seq<Word>)
    requires n <= |ops|
    ensures |r| == |ops| - n
  {
    ops[..|ops| - n]
  }

  function TopPair(ops: seq<Word>, k: nat): Pair
    requires k + 1 < |ops|
  {
    Pair(Top(ops, k + 1), Top(ops, k))
  }

  function Words2(p: Pair): seq<Word> { [p.lo, p.hi] }

  function PushOps(fs: Frames, ws: seq<Word>): Frames { fs.(ops := fs.ops + ws) }

  function Depth(fs: Frames): nat {
    match fs case Bottom(_) => 0 case Frame(_, _, _, _, below) => 1 + Depth(below)
  }

  // -------------------------------------------------------------- instructions on one frame

  /** Operand words an instruction reads, and those it leaves in their place. */
  function Needs(i: Instr): nat {
    match i
    case StoreLocal(_) => 1 case StorePair(_) => 2
    case Move(how) =>
      (match how
       case Pop => 1 case Pop2 => 2 case Dup => 1 case DupX1 => 2 case DupX2 => 3
       case Dup2 => 2 case Dup2X1 => 3 case Dup2X2 => 4 case Swap => 2)
    case IntBinary(_) => 2 case IntNegate => 1 case LongBinary(_) => 4 case ShiftLong(_) => 3 case LongNegate => 2
    case IntToLong => 1 case LongToInt => 2 case Cut(_) => 1 case CompareLong => 4
    case If(_, _) => 1 case IfCompare(_, _) => 2 case TableJump => 1 case LookupJump => 1
    case Return(n) => n
    case NewArray(_) => 1 case ArrayLength => 1
    case ArrayLoad(_) => 2 case ArrayLoadPair => 2 case ArrayStore(_) => 3 case ArrayStorePair => 4
    case _ => 0
  }

  function Leaves(i: Instr): nat {
    match i
    case Push(_) => 1 case PushPair(_) => 2 case Ldc(_) => 1 case LdcPair(_) => 2
    case Load(_) => 1 case LoadPair(_) => 2
    case Move(how) =>
      (match how
       case Pop => 0 case Pop2 => 0 case Dup => 2 case DupX1 => 3 case DupX2 => 4
       case Dup2 => 4 case Dup2X1 => 5 case Dup2X2 => 6 case Swap => 2)
    case IntBinary(_) => 1 case IntNegate => 1 case LongBinary(_) => 2 case ShiftLong(_) => 2 case LongNegate => 2
    case IntToLong => 2 case LongToInt => 1 case Cut(_) => 1 case CompareLong => 1
    case NewArray(_) => 1 case ArrayLength => 1 case ArrayLoad(_) => 1 case ArrayLoadPair => 2
    case _ => 0
  }

  /** Locals an instruction may touch lie below this index. */
  function LocalBound(i: Instr): nat {
    match i
    case Load(n) => n + 1 case StoreLocal(n) => n + 1 case Increment(n, _) => n + 1
    case LoadPair(n) => n + 2 case StorePair(n) => n + 2
    case _ => 0
  }

  predicate Fits(i: Instr, locals: nat, ops: nat) { Needs(i) <= ops && LocalBound(i) <= locals }

  /** Instructions that only touch their own frame and fall through. */
  predicate IsStraight(i: Instr) {
    i.Nop? || i.Push? || i.PushPair? || i.Ldc? || i.LdcPair? || i.Move? || IsAccess(i) || IsComputation(i)
  }

  predicate IsComputation(i: Instr) {
    i.IntBinary? || i.IntNegate? || i.LongBinary? || i.ShiftLong?
    || i.LongNegate? || i.IntToLong? || i.LongToInt? || i.Cut? || i.CompareLong?
  }

  datatype Effect = Effect(locals: seq<Word>, ops: seq<Word>) | Fault(error: Error)

  function Moved(how: Shuffle, ops: seq<Word>): (r: seq<Word>)
    requires Needs(Move(how)) <= |ops|
    ensures |r| == |ops| - Needs(Move(how)) + Leaves(Move(how))
  {
    match how
    case Pop => Drop(ops, 1)
    case Pop2 => Drop(ops, 2)
    case Dup => ops + [Top(ops, 0)]
    case DupX1 => Drop(ops, 2) + [Top(ops, 0), Top(ops, 1), Top(ops, 0)]
    case DupX2 => Drop(ops, 3) + [Top(ops, 0), Top(ops, 2), Top(ops, 1), Top(ops, 0)]
    case Dup2 => ops + [Top(ops, 1), Top(ops, 0)]
    case Dup2X1 => Drop(ops, 3) + [Top(ops, 1), Top(ops, 0), Top(ops, 2), Top(ops, 1), Top(ops, 0)]
    case Dup2X2 => Drop(ops, 4) + [Top(ops, 1), Top(ops, 0), Top(ops, 3), Top(ops, 2), Top(ops, 1), Top(ops, 0)]
    case Swap => Drop(ops, 2) + [Top(ops, 0), Top(ops, 1)]
  }

  function OfWord(r: Checked<Word>, locals: seq<Word>, rest: seq<Word>): Effect {
    match r case Value(w) => Effect(locals, rest + [w]) case Trapped(t) => Fault(Arithmetic(t))
  }

  function OfPair(r: Checked<Pair>, locals: seq<Word>, rest: seq<Word>): Effect {
    match r case Value(p) => Effect(locals, rest + Words2(p)) case Trapped(t) => Fault(Arithmetic(t))
  }

  function Straight(k: Class, i: Instr, locals: seq<Word>, ops: seq<Word>): (e: Effect)
    requires IsStraight(i) && Fits(i, |locals|, |ops|)
    ensures e.Effect? ==> |e.locals| == |locals| && |e.ops| == |ops| - Needs(i) + Leaves(i)
  {
    if IsComputation(i) then Computed(i, locals, ops)
    else if IsAccess(i) then Accessed(i, locals, ops)
    else match i
    case Nop => Effect(locals, ops)
    case Push(w) => Effect(locals, ops + [w])
    case PushPair(p) => Effect(locals, ops + Words2(p))
    case Ldc(n) => if n in k.words then Effect(locals, ops + [k.words[n]]) else Fault(Unresolved)
    case LdcPair(n) => if n in k.pairs then Effect(locals, ops + Words2(k.pairs[n])) else Fault(Unresolved)
    case Move(how) => Effect(locals, Moved(how, ops))
  }

  predicate IsAccess(i: Instr) { i.Load? || i.LoadPair? || i.StoreLocal? || i.StorePair? || i.Increment? }

  function Accessed(i: Instr, locals: seq<Word>, ops: seq<Word>): (e: Effect)
    requires IsAccess(i) && Fits(i, |locals|, |ops|)
    ensures e.Effect? && |e.locals| == |locals| && |e.ops| == |ops| - Needs(i) + Leaves(i)
  {
    match i
    case Load(n) => Effect(locals, ops + [locals[n]])
    case LoadPair(n) => Effect(locals, ops + [locals[n], locals[n + 1]])
    case StoreLocal(n) => Effect(locals[n := Top(ops, 0)], Drop(ops, 1))
    case StorePair(n) => Effect(locals[n := Top(ops, 1)][n + 1 := Top(ops, 0)], Drop(ops, 2))
    case Increment(n, delta) => Effect(locals[n := Wrap(Signed(locals[n]) + delta)], ops)
  }

  function Computed(i: Instr, locals: seq<Word>, ops: seq<Word>): (e: Effect)
    requires IsComputation(i) && Needs(i) <= |ops|
    ensures e.Effect? ==> e.locals == locals && |e.ops| == |ops| - Needs(i) + Leaves(i)
  {
    match i
    case IntBinary(op) => OfWord(IntOp(op, Top(ops, 1), Top(ops, 0)), locals, Drop(ops, 2))
    case IntNegate => Effect(locals, Drop(ops, 1) + [Wrap(-Signed(Top(ops, 0)))])
    case LongBinary(op) =>
      if IsShift(op) then Fault(IllFormed)
        else OfPair(LongOp(op, TopPair(ops, 2), TopPair(ops, 0)), locals, Drop(ops, 4))
    case ShiftLong(op) =>
      if IsShift(op) then Effect(locals, Drop(ops, 3) + Words2(LongShift(op, TopPair(ops, 1), Top(ops, 0))))
        else Fault(IllFormed)
    case LongNegate => Effect(locals, Drop(ops, 2) + Words2(ToPair(-Signed64(TopPair(ops, 0)))))
    case IntToLong => Effect(locals, Drop(ops, 1) + Words2(Widen(Top(ops, 0))))
    case LongToInt => Effect(locals, Drop(ops, 2) + [Top(ops, 1)])
    case Cut(w) => Effect(locals, Drop(ops, 1) + [Narrow(w, Top(ops, 0))])
    case CompareLong => Effect(locals, Drop(ops, 4) + [Compare(TopPair(ops, 2), TopPair(ops, 0))])
  }

  predicate IsJump(i: Instr) { i.If? || i.IfCompare? || i.Goto? || i.TableJump? || i.LookupJump? }

  /** Where a jump at pc goes on. */
  function JumpTo(m: Memory, pc: int, f: Fetched, ops: seq<Word>): int
    requires IsJump(f.i) && Needs(f.i) <= |ops|
  {
    match f.i
    case If(t, target) => if Passes(t, Signed(Top(ops, 0))) then target else f.next
    case IfCompare(t, target) => if Passes(t, Signed(Top(ops, 1)) - Signed(Top(ops, 0))) then target else f.next
    case Goto(target) => target
    case TableJump => TableTarget(m, pc + 1, Signed(Top(ops, 0)))
    case LookupJump => LookupTarget(m, pc + 1, Signed(Top(ops, 0)))
  }

  // -------------------------------------------------------------- calls

  const CLINIT := "<clinit>"

  /** find_string("<clinit>") finds something. */
  predicate ClinitInterned(p: Program, loaded: set<Word>) {
    exists c | c in loaded :: p.ClassAt(c).mentionsClinit
  }

  datatype Constructor = NoConstructor | Runs(target: Method) | Unset

  function FirstNamed(methods: seq<Method>, name: string, i: nat): (r: nat)
    requires i <= |methods|
    ensures i <= r <= |methods| && (r < |methods| ==> methods[r].name == name)
    ensures forall j :: i <= j < r ==> methods[j].name != name
    decreases |methods| - i
  {
    if i == |methods| || methods[i].name == name then i else FirstNamed(methods, name, i + 1)
  }

  /** The search of get_static_constructor (src/core.c:145-152): when no method matches, the loop leaves the
    * last method in `mi`, and with no methods `mi` is never set.
    */
  function LeftByLoop(methods: seq<Method>): Constructor {
    if methods == [] then Unset
    else
      var i := FirstNamed(methods, CLINIT, 0);
      Runs(methods[if i < |methods| then i else |methods| - 1])
  }

  /** get_static_constructor (src/core.c:132-153) */
  function StaticConstructor(p: Program, loaded: set<Word>, c: Word): Constructor {
    if ClinitInterned(p, loaded) then LeftByLoop(p.ClassAt(c).methods) else NoConstructor
  }

  /** The locals of a new frame: the caller's top nargs words, then whatever lies behind them. */
  function NewLocals(ops: seq<Word>, m: Method, size: nat, junk: int -> Word): (r: seq<Word>)
    requires m.nargs <= |ops| && m.nargs <= size
    ensures |r| == size
    ensures forall i :: 0 <= i < m.nargs ==> r[i] == ops[|ops| - m.nargs + i]
    ensures forall i :: m.nargs <= i < size ==> r[i] == junk(i - m.nargs)
  {
    seq(size, i requires 0 <= i < size => if i < m.nargs then ops[|ops| - m.nargs + i] else junk(i - m.nargs))
  }

  /** A new frame: it takes the caller's top nargs words as its first locals. */
  function Enter(f: Frames, m: Method, code: Code, cls: Word, resume: int, junk: int -> Word): Frames
    requires f.Frame? && m.nargs <= |f.ops| && m.nargs <= code.maxLocals
  {
    Frame(cls, code.entry, NewLocals(f.ops, m, code.maxLocals, junk), [], f.(pc := resume, ops := Drop(f.ops, m.nargs)))
  }

  predicate CanEnter(f: Frames, m: Method) {
    m.code.Some? ==> f.Frame? && m.nargs <= |f.ops| && m.nargs <= m.code.value.maxLocals
  }

  /** An address that survives being saved in a 32-bit word, also three bytes on. */
  predicate IsAddress(pc: int) { 0 <= pc && pc + 3 < TWO_32 }

  /** initialize_static (src/core.c:1593-1616) with the flag of class c set before. */
  function Initialize(p: Program, s: State, c: Word, ch: Choice): State
    requires s.frames.Frame? && InitializeFits(p, s, c)
  {
    var w := s.world.(flagged := s.world.flagged + {c});
    match StaticConstructor(p, w.loaded, c)
    case NoConstructor => s.(world := w)
    case Unset => s.(world := w, status := Failed(StrayPointer))
    case Runs(m) =>
      if m.code.None? then s.(world := w, status := Failed(StrayPointer))
      else s.(world := w, frames := Enter(s.frames, m, m.code.value, c, s.frames.pc, ch.junk))
  }

  predicate InitializeFits(p: Program, s: State, c: Word)
    requires s.frames.Frame?
  {
    var k := StaticConstructor(p, s.world.loaded, c);
    k.Runs? ==> CanEnter(s.frames, k.target)
  }

  function StaticOf(w: World, id: FieldId): Pair { if id in w.statics then w.statics[id] else Pair(0, 0) }

  /** The class a getstatic, putstatic or invokestatic refers to, when the reference resolves. */
  function Referred(k: Class, i: Instr): Option<Word> {
    match i
    case GetStatic(n) => if n in k.fields then Some(k.fields[n].cls) else None
    case PutStatic(n) => if n in k.fields then Some(k.fields[n].cls) else None
    case Invoke(n) => if n in k.calls then Some(k.calls[n].cls) else None
    case _ => None
  }

  predicate IsReference(i: Instr) { i.GetStatic? || i.PutStatic? || i.Invoke? }

  function LoadClass(s: State, c: Word): State { s.(world := s.world.(loaded := s.world.loaded + {c})) }

  /** getstatic, putstatic and invokestatic: resolve, perhaps initialise, then act. */
  function Reference(p: Program, s: State, f: Fetched, ch: Choice): State
    requires s.frames.Frame? && IsReference(f.i) && ReferenceFits(p, s, f.i)
  {
    var k := p.ClassAt(s.frames.cls);
    match Referred(k, f.i)
    case None => s.(status := Failed(Unresolved))
    case Some(c) =>
      var t := LoadClass(s, c);
      if c !in t.world.flagged then Initialize(p, t, c, ch)
      else match f.i
        case GetStatic(n) => Get(t, k.fields[n], f.next)
        case PutStatic(n) => Put(t, k.fields[n], f.next)
        case Invoke(n) => Call(p, t, k.calls[n], f.next, ch)
  }

  function Get(s: State, r: FieldRef, next: int): State
    requires s.frames.Frame?
  {
    var v := StaticOf(s.world, (r.cls, r.field));
    match FieldWords(r.signature)
    case 0 => s.(status := Failed(FieldNotSupported))
    case 1 => s.(frames := PushOps(s.frames, [v.lo]).(pc := next))
    case _ => s.(frames := PushOps(s.frames, Words2(v)).(pc := next))
  }

  function Put(s: State, r: FieldRef, next: int): State
    requires s.frames.Frame? && FieldWords(r.signature) <= |s.frames.ops|
  {
    var id := (r.cls, r.field);
    var ops := s.frames.ops;
    match FieldWords(r.signature)
    case 0 => s.(status := Failed(FieldNotSupported))
    case 1 => s.(frames := s.frames.(pc := next, ops := Drop(ops, 1)),
                 world := s.world.(statics := s.world.statics[id := Pair(Top(ops, 0), StaticOf(s.world, id).hi)]))
    case _ => s.(frames := s.frames.(pc := next, ops := Drop(ops, 2)),
                 world := s.world.(statics := s.world.statics[id := TopPair(ops, 0)]))
  }

  /** The call proper; a native method only reads its arguments. */
  function Call(p: Program, s: State, r: MethodRef, next: int, ch: Choice): State
    requires s.frames.Frame? && CallFits(s, r)
  {
    var m := r.target;
    var ops := s.frames.ops;
    if m.native then
      if !m.printed then s.(status := Failed(NativeNotSupported))
      else s.(frames := s.frames.(pc := next, ops := if p.nativesPop then Drop(ops, m.nargs) else ops),
              world := s.world.(printed := s.world.printed + [Printed(m, ops[|ops| - m.nargs..])]))
    else if m.code.None? then s.(status := Failed(StrayPointer))
    else s.(frames := Enter(s.frames, m, m.code.value, r.cls, next, ch.junk))
  }

  predicate CallFits(s: State, r: MethodRef)
    requires s.frames.Frame?
  {
    r.target.nargs <= |s.frames.ops| && (!r.target.native ==> CanEnter(s.frames, r.target))
  }

  predicate ReferenceFits(p: Program, s: State, i: Instr)
    requires s.frames.Frame? && IsReference(i)
  {
    var k := p.ClassAt(s.frames.cls);
    var c := Referred(k, i);
    c.None? ||
    if c.value !in s.world.flagged then InitializeFits(p, LoadClass(s, c.value), c.value)
    else match i
      case GetStatic(_) => true
      case PutStatic(n) => FieldWords(k.fields[n].signature) <= |s.frames.ops|
      case Invoke(n) => CallFits(s, k.calls[n])
  }

  /** A return hands its top words to the frame below. */
  function Leave(fs: Frames, n: nat): Frames
    requires fs.Frame? && n <= |fs.ops|
  {
    PushOps(fs.below, fs.ops[|fs.ops| - n..])
  }

  // -------------------------------------------------------------- arrays

  predicate IsArray(i: Instr) {
    i.NewArray? || i.ArrayLength? || i.ArrayLoad? || i.ArrayLoadPair? || i.ArrayStore? || i.ArrayStorePair?
  }

  function FindElement(w: World, ref: Word, index: Word, width: nat): (e: Option<Error>)
    ensures e.None? ==> ref in w.heap && ArrayHeap.Holds(w.heap[ref], index, width)
  {
    if ref == 0 then Some(NullPointer)
    else if ref !in w.heap then Some(StrayPointer)
    else if !ArrayHeap.InBounds(index, w.heap[ref].length) then Some(OutOfBounds)
    else if !ArrayHeap.Holds(w.heap[ref], index, width) then Some(StrayPointer)
    else None
  }

  /** malloc delivers 0 or an address that is not in use. */
  function Malloc(heap: map<Word, ArrayHeap.Arr>, address: Word): (r: Word)
    ensures r == 0 || r !in heap
  {
    if address in heap then 0 else address
  }

  function Arrays(s: State, f: Fetched, ch: Choice): State
    requires s.frames.Frame? && IsArray(f.i) && Needs(f.i) <= |s.frames.ops|
  {
    var ops := s.frames.ops;
    var heap := s.world.heap;
    match f.i
    case NewArray(kind) =>
      var t := ArrayHeap.ElementOf(kind);
      var address := Malloc(heap, ch.address);
      if t == [] then s.(status := Failed(InvalidArrayType))
      else if address == 0 then s.(status := Failed(OutOfMemory))
      else s.(frames := s.frames.(pc := f.next, ops := Drop(ops, 1) + [address]),
              world := s.world.(heap := heap[address := ArrayHeap.NewArray(Top(ops, 0), t[0])]))
    case ArrayLength =>
      var ref := Top(ops, 0);
      if ref == 0 then s.(status := Failed(NullPointer))
      else if ref !in heap then s.(status := Failed(StrayPointer))
      else s.(frames := s.frames.(pc := f.next, ops := Drop(ops, 1) + [heap[ref].length]))
    case ArrayLoad(width) =>
      (match FindElement(s.world, Top(ops, 1), Top(ops, 0), width)
       case Some(e) => s.(status := Failed(e))
       case None =>
         if width != 1 && width != 2 && width != 4 then s.(status := Failed(IllFormed))
         else s.(frames := s.frames.(pc := f.next,
                   ops := Drop(ops, 2) + [ArrayHeap.LoadWord(heap[Top(ops, 1)], Top(ops, 0), width)])))
    case ArrayLoadPair =>
      (match FindElement(s.world, Top(ops, 1), Top(ops, 0), 8)
       case Some(e) => s.(status := Failed(e))
       case None => s.(frames := s.frames.(pc := f.next,
                         ops := Drop(ops, 2) + Words2(ArrayHeap.LoadPair(heap[Top(ops, 1)], Top(ops, 0))))))
    case ArrayStore(width) =>
      (match FindElement(s.world, Top(ops, 2), Top(ops, 1), width)
       case Some(e) => s.(status := Failed(e))
       case None => s.(frames := s.frames.(pc := f.next, ops := Drop(ops, 3)),
                       world := s.world.(heap := heap[Top(ops, 2) :=
                         ArrayHeap.StoreWord(heap[Top(ops, 2)], Top(ops, 1), width, Top(ops, 0))])))
    case ArrayStorePair =>
      (match FindElement(s.world, Top(ops, 3), Top(ops, 2), 8)
       case Some(e) => s.(status := Failed(e))
       case None => s.(frames := s.frames.(pc := f.next, ops := Drop(ops, 4)),
                       world := s.world.(heap := heap[Top(ops, 3) :=
                         ArrayHeap.StorePair(heap[Top(ops, 3)], Top(ops, 2), TopPair(ops, 0))])))
  }

  // -------------------------------------------------------------- the step

  /** What the code takes for granted about the instruction at pc: it is one of those modelled, its
    * operands and locals are there, and a frame it opens has room for its arguments.
    */
  predicate Fit(p: Program, s: State) {
    s.status != Running || s.frames.Bottom? ||
    var f := Decode(p.memory, s.frames.pc);
    && IsAddress(s.frames.pc)
    && !f.i.Floating?
    && Fits(f.i, |s.frames.locals|, |s.frames.ops|)
    && (IsReference(f.i) ==> ReferenceFits(p, s, f.i))
  }

  function Execute(p: Program, s: State, f: Fetched, ch: Choice): State
    requires s.status == Running && s.frames.Frame? && Fit(p, s) && f == Decode(p.memory, s.frames.pc)
  {
    if IsStraight(f.i) then ExecuteStraight(p, s, f)
    else if IsJump(f.i) then
      s.(frames := s.frames.(pc := JumpTo(p.memory, s.frames.pc, f, s.frames.ops),
        ops := Drop(s.frames.ops, Needs(f.i))))
    else if IsReference(f.i) then Reference(p, s, f, ch)
    else if IsArray(f.i) then Arrays(s, f, ch)
    else if f.i.Return? then s.(frames := Leave(s.frames, f.i.words))
    else if f.i.Exit? then s.(status := Exited)
    else s.(status := Failed(NotSupported))
  }

  function ExecuteStraight(p: Program, s: State, f: Fetched): State
    requires s.frames.Frame? && IsStraight(f.i) && Fits(f.i, |s.frames.locals|, |s.frames.ops|)
  {
    match Straight(p.ClassAt(s.frames.cls), f.i, s.frames.locals, s.frames.ops)
    case Effect(locals, ops) => s.(frames := s.frames.(pc := f.next, locals := locals, ops := ops))
    case Fault(e) => s.(status := Failed(e))
  }

  /** One instruction. A stopped machine stays as it is. */
  function Step(p: Program, s: State, ch: Choice): State {
    if s.status != Running then s
    else if !Fit(p, s) then s.(status := Failed(IllFormed))
    else if s.frames.Bottom? then s.(status := Exited)
    else Execute(p, s, Decode(p.memory, s.frames.pc), ch)
  }

  /** What `run` sets up before it initialises the main class (src/core.c:201-290): zeroed locals over
    * nothing, and the flag of the main class.
    */
  function Start(c: Word, main: Code): State {
    State(Frame(c, main.entry, seq(main.maxLocals, _ => 0), [], Bottom([])), World({c}, {c}, map[], map[], []), Running)
  }

  /** The state after a run that took these choices. */
  function Run(p: Program, s: State, chs: seq<Choice>): State {
    if chs == [] then s else Step(p, Run(p, s, chs[..|chs| - 1]), chs[|chs| - 1])
  }

  /** Words of the one word array that these frames occupy. */
  function Size(fs: Frames): nat {
    match fs
    case Bottom(ops) => |ops|
    case Frame(_, _, locals, ops, below) => |locals| + 4 + |ops| + Size(below)
  }
}
