/** The interpreter `run` (src/core.c:173-1624) over its one word array. Saved registers lie in the
  * same cells as values, and nothing is checked. Every method is proved against the frame machine: what the
  * word array stands for afterwards is what FrameMachine makes of what it stood for before.
  */
module Interpreter {
  import opened Words
  import opened Switches
  import opened Bytecode
  import opened Wrappers
  import opened FrameMachine
  import opened StackLayout
  import opened StringPool
  import opened MethodSearch
  import ArrayHeap

  /** The names of every class's methods are the strings of the pool, and "<clinit>" is in the pool if a
    * class mentions it.
    */
  ghost predicate InternedNames(p: Program, strings: map<string, CString>, names: map<Word, seq<CString>>) {
    && Named(strings)
    && (forall c :: c in p.classes ==> c in names && NamesOf(p.classes[c].methods, names[c], strings))
    && (forall c :: c in p.classes && p.classes[c].mentionsClinit ==> CLINIT in strings)
  }

  class Machine {
    const p: Program
    const strings: map<string, CString>      // the string that the pool has for a content, once it has one
    const names: map<Word, seq<CString>>     // the names of each class's methods
    const base: int               // address of the word array
    const stack: array<Word>

    var pc: int
    var cp: Word                  // whose constant pool is in use
    var c: Word                   // current class
    var frame: int
    var optop: int
    var localc: int
    var world: World
    var status: Status
    ghost var frames: Frames      // what the word array stands for

    /** The state in which initialize_static is entered for the main class (src/core.c:201-292). */
    constructor (p: Program, strings: map<string, CString>, names: map<Word, seq<CString>>,
                 base: int, words: nat, c: Word, main: Code)
      requires InternedNames(p, strings, names)
      requires 0 <= base && base + 4 * words <= TWO_32 && main.maxLocals + 4 <= words
      requires IsAddress(p.exitPc) && p.memory(p.exitPc) == 254 && !p.nativesPop
      ensures this.p == p && this.base == base && stack.Length == words && fresh(stack)
      ensures Valid() && View() == Start(c, main) && pc == main.entry
    {
      this.p, this.strings, this.names, this.base := p, strings, names, base;
      stack := new Word[words](_ => 0);
      pc := main.entry;
      cp := c;
      this.c := c;
      frame := 0;
      localc := main.maxLocals;
      optop := main.maxLocals + 3;
      world := World({c}, {c}, map[], map[], []);
      status := Running;
      frames := Start(c, main).frames;
      new;
      stack[frame + localc + 2] := p.exitPc;
      stack[frame + localc + 3] := c;
      RepBuild(base, p.exitPc, stack[..], Registers(), Saved(base, stack[..], localc, -1), frames);
    }

    ghost function Registers(): Registers
      reads this
    {
      StackLayout.Registers(pc, c, frame, localc, optop)
    }

    ghost function View(): State
      reads this
    {
      State(frames, world, status)
    }

    ghost function Home(fs: Frames): int { if fs.Frame? then fs.pc else p.exitPc }

    /** The word array stands for `frames`; only pc may be on its way. */
    ghost predicate Shape()
      reads this, stack
    {
      && InternedNames(p, strings, names)
      && 0 <= base && base + 4 * stack.Length <= TWO_32
      && IsAddress(p.exitPc) && p.memory(p.exitPc) == 254 && !p.nativesPop
      && (frames.Frame? ==> cp == c)
      && Rep(base, p.exitPc, stack[..], Registers().(pc := Home(frames)), frames)
    }

    ghost predicate Valid()
      reads this, stack
    {
      Shape() && (status == Running ==> pc == Home(frames))
    }

    /** In the middle of an instruction of the top frame that finds its operands and locals. */
    ghost predicate Ready(needs: nat, bound: nat)
      reads this, stack
    {
      Shape() && status == Running && frames.Frame? && needs <= |frames.ops| && bound <= |frames.locals|
    }

    /** The instruction is over: pc stays, the top frame has these locals and operands. */
    twostate predicate Done(locals: seq<Word>, ops: seq<Word>)
      requires old(frames).Frame?
      reads this, stack
    {
      && Valid() && Kept()
      && View() == old(View()).(frames := old(frames).(pc := pc, locals := locals, ops := ops))
    }

    /** The words below the current frame are as they were. */
    twostate predicate Kept()
      reads this, stack
    {
      forall i :: 0 <= i < old(frame) && i < stack.Length ==> stack[i] == old(stack[i])
    }

    /** The registers of the top frame stay, the words below it stay, and so does all else. */
    twostate predicate InFrame()
      requires old(frames).Frame?
      reads this, stack
    {
      && old(Shape()) && c == old(c) && cp == old(cp) && frame == old(frame) && localc == old(localc)
      && world == old(world) && status == old(status)
    }

    /** Locals and operands of the top frame have been changed. */
    twostate lemma {:induction false} Settled(new locals: seq<Word>, new ops: seq<Word>)
      requires old(frames).Frame? && InFrame() && |locals| == localc
      requires frames == old(frames).(pc := pc, locals := locals, ops := ops)
      requires optop + 1 == frame + localc + 4 + |ops| <= stack.Length
      requires forall i :: 0 <= i < frame ==> stack[i] == old(stack[i])
      requires forall i :: frame + localc <= i < frame + localc + 4 ==> stack[i] == old(stack[i])
      requires forall i :: 0 <= i < |locals| ==> stack[frame + i] == locals[i]
      requires forall i :: 0 <= i < |ops| ==> stack[frame + localc + 4 + i] == ops[i]
      ensures Done(locals, ops)
    {
      RepTop(base, p.exitPc, old(stack[..]), stack[..], old(Registers()).(pc := old(frames).pc), Registers(),
        old(frames), frames);
    }

    /** The top n operands have been replaced by ws, and nothing below them was touched. */
    twostate lemma {:induction false} Replaced(new n: nat, new ws: seq<Word>)
      requires old(frames).Frame? && n <= |old(frames).ops| && InFrame()
      requires frames == old(frames).(pc := pc, ops := Drop(old(frames).ops, n) + ws)
      requires optop == old(optop) - n + |ws| && optop < stack.Length
      requires forall i :: 0 <= i <= old(optop) - n ==> stack[i] == old(stack[i])
      requires forall i :: 0 <= i < |ws| ==> stack[old(optop) - n + 1 + i] == ws[i]
      ensures Done(old(frames).locals, Drop(old(frames).ops, n) + ws)
    {
      var r := old(Registers()).(pc := old(frames).pc);
      var rest := old(frames).(ops := Drop(old(frames).ops, n));
      RepPop(base, p.exitPc, old(stack[..]), r, old(frames), n);
      RepPush(base, p.exitPc, old(stack[..]), stack[..], r.(optop := r.optop - n), rest, ws);
    }

    /** The words ws have been pushed. */
    twostate lemma {:induction false} Pushed(ws: seq<Word>)
      requires old(frames).Frame? && InFrame()
      requires frames == old(frames).(pc := pc, ops := old(frames).ops + ws)
      requires optop == old(optop) + |ws| && optop < stack.Length
      requires forall i :: 0 <= i <= old(optop) ==> stack[i] == old(stack[i])
      requires forall i :: 0 <= i < |ws| ==> stack[old(optop) + 1 + i] == ws[i]
      ensures Done(old(frames).locals, old(frames).ops + ws)
    {
      var r := old(Registers()).(pc := old(frames).pc);
      RepPush(base, p.exitPc, old(stack[..]), stack[..], r, old(frames), ws);
    }

    /** The operands as cells, counted from the top. */
    /** Where the parts of the top frame lie. */
    lemma {:induction false} Bounds()
      requires Shape() && frames.Frame?
      ensures 0 <= frame && localc == |frames.locals| && frame + localc + 3 + |frames.ops| == optop < stack.Length
    {
    }

    lemma {:induction false} Operands()
      requires Shape() && frames.Frame?
      ensures forall k :: 0 <= k < |frames.ops| ==> stack[optop - k] == Top(frames.ops, k)
    {
      forall k | 0 <= k < |frames.ops| ensures stack[optop - k] == Top(frames.ops, k) {
        RepOperand(base, p.exitPc, stack[..], Registers().(pc := frames.pc), frames, k);
      }
    }

    // ---------------------------------------------------------- constants, loads, stores

    method PushWord(w: Word)
      requires Ready(0, 0) && optop + 1 < stack.Length
      modifies this, stack
      ensures pc == old(pc) && Done(old(frames).locals, old(frames).ops + [w])
    {
      optop := optop + 1;
      stack[optop] := w;
      frames := frames.(pc := pc, ops := frames.ops + [w]);
      Pushed([w]);
    }

    method PushTwo(w: Pair)
      requires Ready(0, 0) && optop + 2 < stack.Length
      modifies this, stack
      ensures pc == old(pc) && Done(old(frames).locals, old(frames).ops + Words2(w))
    {
      optop := optop + 1;
      stack[optop], stack[optop + 1] := w.lo, w.hi;
      optop := optop + 1;
      frames := frames.(pc := pc, ops := frames.ops + Words2(w));
      Pushed(Words2(w));
    }

    method Store(n: nat)
      requires Ready(1, n + 1)
      modifies this, stack
      ensures pc == old(pc) && Done(old(frames).locals[n := Top(old(frames).ops, 0)], Drop(old(frames).ops, 1))
    {
      ghost var gs := frames.(pc := pc, locals := frames.locals[n := Top(frames.ops, 0)], ops := Drop(frames.ops, 1));
      stack[frame + n] := stack[optop];
      optop := optop - 1;
      frames := gs;
      Settled(gs.locals, gs.ops);
    }

    method StoreTwo(n: nat)
      requires Ready(2, n + 2)
      modifies this, stack
      ensures pc == old(pc)
      ensures Done(old(frames).locals[n := Top(old(frames).ops, 1)][n + 1 := Top(old(frames).ops, 0)],
              Drop(old(frames).ops, 2))
    {
      ghost var gs := frames.(pc := pc, locals := frames.locals[n := Top(frames.ops, 1)][n + 1 := Top(frames.ops, 0)],
                              ops := Drop(frames.ops, 2));
      stack[frame + n], stack[frame + n + 1] := stack[optop - 1], stack[optop];
      optop := optop - 2;
      frames := gs;
      Settled(gs.locals, gs.ops);
    }

    method AddToLocal(n: nat, delta: int)
      requires Ready(0, n + 1)
      modifies this, stack
      ensures pc == old(pc)
      ensures Done(old(frames).locals[n := Wrap(Signed(old(frames).locals[n]) + delta)], old(frames).ops)
    {
      ghost var gs := frames.(pc := pc, locals := frames.locals[n := Wrap(Signed(frames.locals[n]) + delta)]);
      stack[frame + n] := Wrap(Signed(stack[frame + n]) + delta);
      frames := gs;
      Settled(gs.locals, gs.ops);
    }

    // ---------------------------------------------------------- pop, dup and swap

    method PopWords(n: nat)
      requires Ready(n, 0)
      modifies this, stack
      ensures pc == old(pc) && Done(old(frames).locals, Drop(old(frames).ops, n))
    {
      optop := optop - n;
      ghost var gs := frames.(pc := pc, ops := Drop(frames.ops, n));
      frames := gs;
      Settled(gs.locals, gs.ops);
    }

    method DoDup()
      requires Ready(1, 0) && optop + 1 < stack.Length
      modifies this, stack
      ensures pc == old(pc) && Done(old(frames).locals, Moved(Dup, old(frames).ops))
    {
      ghost var ws := [Top(frames.ops, 0)];
      Operands();
      assert stack[optop] == Top(frames.ops, 0);
      stack[optop + 1] := stack[optop];
      optop := optop + 1;
      frames := frames.(pc := pc, ops := frames.ops + ws);
      Pushed(ws);
    }

    method CopyDupX1()
      requires 1 <= optop && optop + 1 < stack.Length
      modifies stack, `optop
      ensures optop == old(optop) + 1
      ensures stack[old(optop) - 1] == old(stack[optop])
      ensures stack[old(optop)] == old(stack[optop - 1])
      ensures stack[old(optop) + 1] == old(stack[optop])
      ensures forall i :: 0 <= i < old(optop) - 1 ==> stack[i] == old(stack[i])
    {
      stack[optop + 1] := stack[optop];
      stack[optop] := stack[optop - 1];
      stack[optop - 1] := stack[optop + 1];
      optop := optop + 1;
    }

    method DoDupX1()
      requires Ready(2, 0) && optop + 1 < stack.Length
      modifies this, stack
      ensures pc == old(pc) && Done(old(frames).locals, Moved(DupX1, old(frames).ops))
    {
      ghost var ws := [Top(frames.ops, 0), Top(frames.ops, 1), Top(frames.ops, 0)];
      Operands();
      assert stack[optop] == Top(frames.ops, 0) && stack[optop - 1] == Top(frames.ops, 1);
      CopyDupX1();
      frames := frames.(pc := pc, ops := Drop(frames.ops, 2) + ws);
      Replaced(2, ws);
    }

    method CopyDupX2()
      requires 2 <= optop && optop + 1 < stack.Length
      modifies stack, `optop
      ensures optop == old(optop) + 1
      ensures stack[old(optop) - 2] == old(stack[optop])
      ensures stack[old(optop) - 1] == old(stack[optop - 2])
      ensures stack[old(optop)] == old(stack[optop - 1])
      ensures stack[old(optop) + 1] == old(stack[optop])
      ensures forall i :: 0 <= i < old(optop) - 2 ==> stack[i] == old(stack[i])
    {
      stack[optop + 1] := stack[optop];
      stack[optop] := stack[optop - 1];
      stack[optop - 1] := stack[optop - 2];
      stack[optop - 2] := stack[optop + 1];
      optop := optop + 1;
    }

    method DoDupX2()
      requires Ready(3, 0) && optop + 1 < stack.Length
      modifies this, stack
      ensures pc == old(pc) && Done(old(frames).locals, Moved(DupX2, old(frames).ops))
    {
      ghost var ws := [Top(frames.ops, 0), Top(frames.ops, 2), Top(frames.ops, 1), Top(frames.ops, 0)];
      Operands();
      assert stack[optop] == Top(frames.ops, 0) && stack[optop - 1] == Top(frames.ops, 1)
        && stack[optop - 2] == Top(frames.ops, 2);
      CopyDupX2();
      frames := frames.(pc := pc, ops := Drop(frames.ops, 3) + ws);
      Replaced(3, ws);
    }

    method DoDup2()
      requires Ready(2, 0) && optop + 2 < stack.Length
      modifies this, stack
      ensures pc == old(pc) && Done(old(frames).locals, Moved(Dup2, old(frames).ops))
    {
      ghost var ws := [Top(frames.ops, 1), Top(frames.ops, 0)];
      Operands();
      assert stack[optop] == Top(frames.ops, 0) && stack[optop - 1] == Top(frames.ops, 1);
      stack[optop + 1] := stack[optop - 1];
      stack[optop + 2] := stack[optop];
      optop := optop + 2;
      frames := frames.(pc := pc, ops := frames.ops + ws);
      Pushed(ws);
    }

    method CopyDup2X1()
      requires 2 <= optop && optop + 2 < stack.Length
      modifies stack, `optop
      ensures optop == old(optop) + 2
      ensures stack[old(optop) - 2] == old(stack[optop - 1])
      ensures stack[old(optop) - 1] == old(stack[optop])
      ensures stack[old(optop)] == old(stack[optop - 2])
      ensures stack[old(optop) + 1] == old(stack[optop - 1])
      ensures stack[old(optop) + 2] == old(stack[optop])
      ensures forall i :: 0 <= i < old(optop) - 2 ==> stack[i] == old(stack[i])
    {
      stack[optop + 2] := stack[optop];
      stack[optop + 1] := stack[optop - 1];
      stack[optop] := stack[optop - 2];
      stack[optop - 1] := stack[optop + 2];
      stack[optop - 2] := stack[optop + 1];
      optop := optop + 2;
    }

    method DoDup2X1()
      requires Ready(3, 0) && optop + 2 < stack.Length
      modifies this, stack
      ensures pc == old(pc) && Done(old(frames).locals, Moved(Dup2X1, old(frames).ops))
    {
      ghost var ws := [Top(frames.ops, 1), Top(frames.ops, 0), Top(frames.ops, 2), Top(frames.ops, 1),
        Top(frames.ops, 0)];
      Operands();
      assert stack[optop] == Top(frames.ops, 0) && stack[optop - 1] == Top(frames.ops, 1)
        && stack[optop - 2] == Top(frames.ops, 2);
      CopyDup2X1();
      frames := frames.(pc := pc, ops := Drop(frames.ops, 3) + ws);
      Replaced(3, ws);
    }

    method CopyDup2X2()
      requires 3 <= optop && optop + 2 < stack.Length
      modifies stack, `optop
      ensures optop == old(optop) + 2
      ensures stack[old(optop) - 3] == old(stack[optop - 1])
      ensures stack[old(optop) - 2] == old(stack[optop])
      ensures stack[old(optop) - 1] == old(stack[optop - 3])
      ensures stack[old(optop)] == old(stack[optop - 2])
      ensures stack[old(optop) + 1] == old(stack[optop - 1])
      ensures stack[old(optop) + 2] == old(stack[optop])
      ensures forall i :: 0 <= i < old(optop) - 3 ==> stack[i] == old(stack[i])
    {
      stack[optop + 2] := stack[optop];
      stack[optop + 1] := stack[optop - 1];
      stack[optop] := stack[optop - 2];
      stack[optop - 1] := stack[optop - 3];
      stack[optop - 2] := stack[optop + 2];
      stack[optop - 3] := stack[optop + 1];
      optop := optop + 2;
    }

    method DoDup2X2()
      requires Ready(4, 0) && optop + 2 < stack.Length
      modifies this, stack
      ensures pc == old(pc) && Done(old(frames).locals, Moved(Dup2X2, old(frames).ops))
    {
      ghost var ws := [Top(frames.ops, 1), Top(frames.ops, 0), Top(frames.ops, 3), Top(frames.ops, 2),
        Top(frames.ops, 1), Top(frames.ops, 0)];
      Operands();
      assert stack[optop] == Top(frames.ops, 0) && stack[optop - 1] == Top(frames.ops, 1)
        && stack[optop - 2] == Top(frames.ops, 2) && stack[optop - 3] == Top(frames.ops, 3);
      CopyDup2X2();
      frames := frames.(pc := pc, ops := Drop(frames.ops, 4) + ws);
      Replaced(4, ws);
    }

    method DoSwap()
      requires Ready(2, 0)
      modifies this, stack
      ensures pc == old(pc) && Done(old(frames).locals, Moved(Swap, old(frames).ops))
    {
      ghost var ws := [Top(frames.ops, 0), Top(frames.ops, 1)];
      Operands();
      assert stack[optop] == Top(frames.ops, 0) && stack[optop - 1] == Top(frames.ops, 1);
      var tmp := stack[optop];
      stack[optop] := stack[optop - 1];
      stack[optop - 1] := tmp;
      frames := frames.(pc := pc, ops := Drop(frames.ops, 2) + ws);
      Replaced(2, ws);
    }

    // ---------------------------------------------------------- results

    /** n operands make place for one word; n operands make place for two. */
    method PutWord(n: nat, w: Word)
      requires 1 <= n && Ready(n, 0)
      modifies this, stack
      ensures pc == old(pc) && Done(old(frames).locals, Drop(old(frames).ops, n) + [w])
    {
      optop := optop - n + 1;
      stack[optop] := w;
      frames := frames.(pc := pc, ops := Drop(frames.ops, n) + [w]);
      Replaced(n, [w]);
    }

    method PutPair(n: nat, w: Pair)
      requires 1 <= n && Ready(n, 0) && optop - n + 2 < stack.Length
      modifies this, stack
      ensures pc == old(pc) && Done(old(frames).locals, Drop(old(frames).ops, n) + Words2(w))
    {
      optop := optop - n + 2;
      stack[optop - 1], stack[optop] := w.lo, w.hi;
      frames := frames.(pc := pc, ops := Drop(frames.ops, n) + Words2(w));
      Replaced(n, Words2(w));
    }

    /** ERROR and exit: nothing but the status changes. */
    method Fail(e: Error)
      requires Shape() && status == Running
      modifies `status
      ensures Valid() && View() == old(View()).(status := Failed(e)) && Kept()
    {
      status := Failed(e);
    }

    // ---------------------------------------------------------- returns and calls

    /** Fetches the saved registers, then copies the top n words to where the frame began. The result
      * may land on the cells the saved registers have just been read from.
      */
    method Unwind(n: nat)
      requires n <= 2 && 0 <= frame && 0 <= localc && frame + localc + 3 + n <= optop < stack.Length
      modifies stack, `frame, `pc, `c, `cp, `localc, `optop
      ensures cp == c && Registers() == Saved(base, old(stack[..]), old(frame + localc), old(frame) + n - 1)
      ensures n == 1 ==> stack[old(frame)] == old(stack[optop])
      ensures n == 2 ==> stack[old(frame)] == old(stack[optop - 1]) && stack[old(frame) + 1] == old(stack[optop])
      ensures forall i :: 0 <= i < old(frame) ==> stack[i] == old(stack[i])
    {
      var tmp := frame;
      frame := FromAddress(base, stack[tmp + localc + 1]);
      pc := stack[tmp + localc + 2];
      c := stack[tmp + localc + 3];
      cp := c;
      localc := stack[tmp + localc];
      if n == 1 {
        stack[tmp] := stack[optop];
        optop := tmp;
      } else if n == 2 {
        stack[tmp], stack[tmp + 1] := stack[optop - 1], stack[optop];
        optop := tmp + 1;
      } else {
        optop := tmp - 1;
      }
    }

    /** ireturn, freturn, areturn (n = 1), lreturn, dreturn (n = 2) and return (n = 0). */
    method ReturnWords(n: nat)
      requires n <= 2 && Ready(n, 0)
      modifies this, stack
      ensures Valid() && Kept() && View() == old(View()).(frames := Leave(old(frames), n))
    {
      hide InternedNames, Rep, Saved;
      Bounds();
      ghost var fs, r, mem := frames, Registers().(pc := frames.pc), stack[..];
      Operands();
      assert n >= 1 ==> stack[optop] == Top(fs.ops, 0);
      assert n == 2 ==> stack[optop - 1] == Top(fs.ops, 1);
      Unwind(n);
      frames := Leave(fs, n);
      Returned(mem, stack[..], r, fs, n);
    }

    lemma {:induction false} Returned(mem: seq<Word>, other: seq<Word>, r: Registers, fs: Frames, n: nat)
      requires Rep(base, p.exitPc, mem, r, fs) && fs.Frame? && n <= 2 && n <= |fs.ops|
      requires |other| == |mem| && Agree(mem, other, r.frame)
      requires n == 1 ==> other[r.frame] == Top(fs.ops, 0)
      requires n == 2 ==> other[r.frame] == Top(fs.ops, 1) && other[r.frame + 1] == Top(fs.ops, 0)
      ensures Rep(base, p.exitPc, other, Saved(base, mem, r.frame + r.localc, r.frame + n - 1), Leave(fs, n))
      ensures mem[r.frame + r.localc + 2] == Home(Leave(fs, n))
    {
      var saved, ws := Saved(base, mem, r.frame + r.localc, r.frame - 1), fs.ops[|fs.ops| - n..];
      RepUnder(base, p.exitPc, mem, r, fs);
      assert n >= 1 ==> ws[n - 1] == Top(fs.ops, 0);
      assert n == 2 ==> ws[0] == Top(fs.ops, 1);
      assert Leave(fs, n) == PushOps(fs.below, ws);
      PushedOnto(mem, other, saved, Saved(base, mem, r.frame + r.localc, r.frame + n - 1), fs.below, Leave(fs, n), ws);
    }

    lemma {:induction false} PushedOnto(mem: seq<Word>, other: seq<Word>, r: Registers, q: Registers, fs: Frames,
                                        gs: Frames, ws: seq<Word>)
      requires Rep(base, p.exitPc, mem, r, fs) && Agree(mem, other, r.optop + 1) && Lies(other, r.optop + 1, ws)
      requires q == StackLayout.Registers(r.pc, r.c, r.frame, r.localc, r.optop + |ws|) && gs == PushOps(fs, ws)
      ensures Rep(base, p.exitPc, other, q, gs)
    {
      RepPush(base, p.exitPc, mem, other, r, fs, ws);
    }

    /** Stores the registers above the locals of the frame to come, and sets them for it. */
    method SaveAndSet(room: nat, entry: int, cls: Word, tmp: int, locals: nat)
      requires 0 <= optop + 1 && optop + room + 4 < stack.Length
      requires 0 <= localc < TWO_32 && 0 <= pc < TWO_32 && 0 <= ToAddress(base, frame) < TWO_32
      modifies stack, `frame, `pc, `c, `cp, `localc, `optop
      ensures cp == c && Registers() == StackLayout.Registers(entry, cls, tmp, locals, old(optop) + room + 4)
      ensures SavedAt(stack[..], optop - 3, old(Registers()))
      ensures forall i :: 0 <= i < optop - 3 ==> stack[i] == old(stack[i])
    {
      optop := optop + room;
      stack[optop + 1] := localc;
      stack[optop + 2] := ToAddress(base, frame);
      stack[optop + 3] := pc;
      stack[optop + 4] := c;
      optop := optop + 4;
      pc := entry;
      c := cls;
      cp := c;
      frame := tmp;
      localc := locals;
    }

    /** The part that invokestatic and initialize_static share: a new frame over the arguments. */
    method EnterFrame(m: Method, code: Code, cls: Word) returns (ghost junk: int -> Word)
      requires Shape() && status == Running && frames.Frame? && 0 <= pc < TWO_32
      requires m.nargs <= |frames.ops| && m.nargs <= code.maxLocals
      requires optop + code.maxLocals - m.nargs + 4 < stack.Length
      modifies this, stack
      ensures Valid() && Kept()
      ensures View() == old(View()).(frames := Enter(old(frames), m, code, cls, old(pc), junk))
    {
      hide InternedNames;
      ghost var fs, r, mem, resume := frames, Registers().(pc := frames.pc), stack[..], pc;
      junk := JunkAt(mem, optop + 1);
      SaveAndSet(code.maxLocals - m.nargs, code.entry, cls, optop + 1 - m.nargs, code.maxLocals);
      frames := Enter(fs, m, code, cls, resume, junk);
      Entered(mem, stack[..], r, fs, m, code, cls, resume);
    }

    ghost function JunkAt(mem: seq<Word>, at: int): int -> Word {
      i => if 0 <= at + i < |mem| then mem[at + i] else 0
    }

    /** The caller's registers as the new frame saves them, and the new frame's own. */
    ghost function Caller(r: Registers, m: Method, resume: int): Registers {
      StackLayout.Registers(resume, r.c, r.frame, r.localc, r.optop - m.nargs)
    }

    ghost function Callee(r: Registers, m: Method, code: Code, cls: Word): Registers {
      StackLayout.Registers(code.entry, cls, r.optop - m.nargs + 1, code.maxLocals,
        r.optop - m.nargs + code.maxLocals + 4)
    }

    lemma {:induction false} Entered(mem: seq<Word>, other: seq<Word>, r: Registers, fs: Frames, m: Method, code: Code,
                                     cls: Word, resume: int)
      requires Rep(base, p.exitPc, mem, r, fs) && fs.Frame? && m.nargs <= |fs.ops| && m.nargs <= code.maxLocals
      requires Callee(r, m, code, cls).optop < |other| == |mem|
      requires Agree(mem, other, r.optop - m.nargs + 1 + code.maxLocals)
      requires SavedAt(other, r.optop - m.nargs + 1 + code.maxLocals, Caller(r, m, resume))
      ensures Rep(base, p.exitPc, other, Callee(r, m, code, cls),
                  Enter(fs, m, code, cls, resume, JunkAt(mem, r.optop + 1)))
    {
      var gs := Enter(fs, m, code, cls, resume, JunkAt(mem, r.optop + 1));
      CallerKept(mem, other, r, fs, m, resume);
      LocalsLie(mem, other, r, fs, m, code);
      SavedIs(other, r.optop - m.nargs + 1 + code.maxLocals, Caller(r, m, resume));
      RepBuild(base, p.exitPc, other, Callee(r, m, code, cls), Caller(r, m, resume), gs);
    }

    ghost predicate SavedAt(mem: seq<Word>, at: int, r: Registers) {
      && 0 <= at && at + 3 < |mem|
      && mem[at] == r.localc && mem[at + 1] == ToAddress(base, r.frame) && mem[at + 2] == r.pc && mem[at + 3] == r.c
    }

    lemma {:induction false} SavedIs(mem: seq<Word>, at: int, r: Registers)
      requires SavedAt(mem, at, r)
      ensures r == Saved(base, mem, at, r.optop)
    {
      AddressRoundTrip(base, r.frame);
    }

    lemma {:induction false} LocalsLie(mem: seq<Word>, other: seq<Word>, r: Registers, fs: Frames, m: Method,
                                       code: Code)
      requires Rep(base, p.exitPc, mem, r, fs) && fs.Frame? && m.nargs <= |fs.ops| && m.nargs <= code.maxLocals
      requires r.optop - m.nargs + 1 + code.maxLocals <= |mem|
               && Agree(mem, other, r.optop - m.nargs + 1 + code.maxLocals)
      ensures Lies(other, r.optop - m.nargs + 1, NewLocals(fs.ops, m, code.maxLocals, JunkAt(mem, r.optop + 1)))
    {
      RepTopWords(base, p.exitPc, mem, r, fs, m.nargs);
      NewLocalsLie(mem, other, r.optop, fs.ops, m, code);
    }

    lemma {:induction false} NewLocalsLie(mem: seq<Word>, other: seq<Word>, optop: int, ops: seq<Word>, m: Method,
                                          code: Code)
      requires m.nargs <= |ops| && m.nargs <= code.maxLocals && Lies(mem, optop - m.nargs + 1, ops[|ops| - m.nargs..])
      requires optop - m.nargs + 1 + code.maxLocals <= |mem| && Agree(mem, other, optop - m.nargs + 1 + code.maxLocals)
      ensures Lies(other, optop - m.nargs + 1, NewLocals(ops, m, code.maxLocals, JunkAt(mem, optop + 1)))
    {
      var tmp := optop - m.nargs + 1;
      var locals := NewLocals(ops, m, code.maxLocals, JunkAt(mem, optop + 1));
      forall i | 0 <= i < |locals| ensures other[tmp + i] == locals[i] {
        if i < m.nargs { assert locals[i] == ops[|ops| - m.nargs..][i]; }
      }
    }

    /** The caller's frames, less the arguments, are still there for its saved registers. */
    lemma {:induction false} CallerKept(mem: seq<Word>, other: seq<Word>, r: Registers, fs: Frames, m: Method,
                                        resume: int)
      requires Rep(base, p.exitPc, mem, r, fs) && fs.Frame? && m.nargs <= |fs.ops|
      requires Agree(mem, other, r.optop - m.nargs + 1)
      ensures Rep(base, p.exitPc, other, Caller(r, m, resume), fs.(pc := resume, ops := Drop(fs.ops, m.nargs)))
    {
      var gs := fs.(ops := Drop(fs.ops, m.nargs));
      RepPop(base, p.exitPc, mem, r, fs, m.nargs);
      RepDepends(base, p.exitPc, mem, other, r.(optop := r.optop - m.nargs), gs);
      RepPc(base, p.exitPc, other, r.(optop := r.optop - m.nargs), gs, resume);
    }

    // ---------------------------------------------------------- dispatch

    /** What the top frame becomes by a straight instruction. */
    ghost function Wanted(i: Instr): Effect
      reads this
      requires frames.Frame? && IsStraight(i) && Fits(i, |frames.locals|, |frames.ops|)
    {
      Straight(p.ClassAt(c), i, frames.locals, frames.ops)
    }

    /** The instruction i, fetched from just before pc, fits the top frame and the word array. */
    ghost predicate CanRun(i: Instr)
      reads this, stack
    {
      && Ready(Needs(i), LocalBound(i)) && IsStraight(i)
      && (Wanted(i).Effect? ==> optop - Needs(i) + Leaves(i) < stack.Length)
    }

    /** The instruction had this effect and the next one is at `next`. */
    twostate predicate Took(next: int, e: Effect)
      requires old(frames).Frame?
      reads this, stack
    {
      match e
      case Effect(locals, ops) => pc == next && Done(locals, ops)
      case Fault(er) => Valid() && Kept() && View() == old(View()).(status := Failed(er))
    }

    /** The locals as cells. */
    lemma {:induction false} Locals()
      requires Shape() && frames.Frame?
      ensures localc == |frames.locals| && forall i :: 0 <= i < localc ==> stack[frame + i] == frames.locals[i]
      ensures 0 <= frame && optop + 1 == frame + localc + 4 + |frames.ops| <= stack.Length
    {
    }

    method DoNop()
      requires Ready(0, 0)
      modifies this
      ensures pc == old(pc) && Done(old(frames).locals, old(frames).ops)
    {
      frames := frames.(pc := pc);
      RepPc(base, p.exitPc, stack[..], old(Registers()).(pc := old(frames).pc), old(frames), pc);
    }

    method StepConstant(i: Instr)
      requires CanRun(i) && (i.Nop? || i.Push? || i.PushPair?)
      modifies this, stack
      ensures Took(old(pc), old(Wanted(i)))
    {
      match i {
        case Nop => DoNop();
        case Push(w) => PushWord(w);
        case PushPair(w) => PushTwo(w);
      }
    }

    /** ldc1, ldc2 and ldc2w (src/core.c:374-394) */
    method StepPool(i: Instr)
      requires CanRun(i) && (i.Ldc? || i.LdcPair?)
      modifies this, stack
      ensures Took(old(pc), old(Wanted(i)))
    {
      var k := p.ClassAt(cp);
      match i {
        case Ldc(n) => if n in k.words { PushWord(k.words[n]); } else { Fail(Unresolved); }
        case LdcPair(n) => if n in k.pairs { PushTwo(k.pairs[n]); } else { Fail(Unresolved); }
      }
    }

    method StepLoad(i: Instr)
      requires CanRun(i) && (i.Load? || i.LoadPair?)
      modifies this, stack
      ensures Took(old(pc), old(Wanted(i)))
    {
      Locals();
      match i {
        case Load(n) => PushWord(stack[frame + n]);
        case LoadPair(n) => PushTwo(Pair(stack[frame + n], stack[frame + n + 1]));
      }
    }

    method StepStore(i: Instr)
      requires CanRun(i) && (i.StoreLocal? || i.StorePair? || i.Increment?)
      modifies this, stack
      ensures Took(old(pc), old(Wanted(i)))
    {
      hide InternedNames, Rep;
      match i {
        case StoreLocal(n) => Store(n);
        case StorePair(n) => StoreTwo(n);
        case Increment(n, delta) => AddToLocal(n, delta);
      }
    }

    method StepMove(how: Shuffle)
      requires CanRun(Move(how))
      modifies this, stack
      ensures Took(old(pc), old(Wanted(Move(how))))
    {
      match how {
        case Pop => PopWords(1);
        case Pop2 => PopWords(2);
        case Dup => DoDup();
        case DupX1 => DoDupX1();
        case DupX2 => DoDupX2();
        case Dup2 => DoDup2();
        case Dup2X1 => DoDup2X1();
        case Dup2X2 => DoDup2X2();
        case Swap => DoSwap();
      }
    }

    method PutResult(r: Checked<Word>, n: nat)
      requires 1 <= n && Ready(n, 0)
      modifies this, stack
      ensures Took(old(pc), OfWord(r, old(frames).locals, Drop(old(frames).ops, n)))
    {
      match r {
        case Value(w) => PutWord(n, w);
        case Trapped(t) => Fail(Arithmetic(t));
      }
    }

    method PutPairResult(r: Checked<Pair>, n: nat)
      requires 2 <= n && Ready(n, 0)
      modifies this, stack
      ensures Took(old(pc), OfPair(r, old(frames).locals, Drop(old(frames).ops, n)))
    {
      match r {
        case Value(w) => PutPair(n, w);
        case Trapped(t) => Fail(Arithmetic(t));
      }
    }

    method StepIntComputation(i: Instr)
      requires CanRun(i) && (i.IntBinary? || i.IntNegate? || i.Cut? || i.CompareLong? || i.LongToInt?)
      modifies this, stack
      ensures Took(old(pc), old(Wanted(i)))
    {
      Operands();
      match i {
        case IntBinary(op) =>
          assert stack[optop - 1] == Top(frames.ops, 1) && stack[optop] == Top(frames.ops, 0);
          PutResult(IntOp(op, stack[optop - 1], stack[optop]), 2);
        case IntNegate =>
          assert stack[optop] == Top(frames.ops, 0);
          PutWord(1, Wrap(-Signed(stack[optop])));
        case Cut(w) =>
          assert stack[optop] == Top(frames.ops, 0);
          PutWord(1, Narrow(w, stack[optop]));
        case CompareLong =>
          assert Pair(stack[optop - 3], stack[optop - 2]) == TopPair(frames.ops, 2);
          assert Pair(stack[optop - 1], stack[optop]) == TopPair(frames.ops, 0);
          PutWord(4, Compare(Pair(stack[optop - 3], stack[optop - 2]), Pair(stack[optop - 1], stack[optop])));
        case LongToInt =>
          assert Drop(frames.ops, 2) + [Top(frames.ops, 1)] == Drop(frames.ops, 1);
          PopWords(1);
      }
    }

    method StepLongBinary(op: Op)
      requires CanRun(LongBinary(op))
      modifies this, stack
      ensures Took(old(pc), old(Wanted(LongBinary(op))))
    {
      Operands();
      if IsShift(op) {
        Fail(IllFormed);
      } else {
        assert Pair(stack[optop - 3], stack[optop - 2]) == TopPair(frames.ops, 2);
        assert Pair(stack[optop - 1], stack[optop]) == TopPair(frames.ops, 0);
        PutPairResult(LongOp(op, Pair(stack[optop - 3], stack[optop - 2]), Pair(stack[optop - 1], stack[optop])), 4);
      }
    }

    method StepShiftLong(op: Op)
      requires CanRun(ShiftLong(op))
      modifies this, stack
      ensures Took(old(pc), old(Wanted(ShiftLong(op))))
    {
      Operands();
      if IsShift(op) {
        assert Pair(stack[optop - 2], stack[optop - 1]) == TopPair(frames.ops, 1) && stack[optop] == Top(frames.ops, 0);
        PutPair(3, LongShift(op, Pair(stack[optop - 2], stack[optop - 1]), stack[optop]));
      } else {
        Fail(IllFormed);
      }
    }

    method StepLongComputation(i: Instr)
      requires CanRun(i) && (i.LongNegate? || i.IntToLong?)
      modifies this, stack
      ensures Took(old(pc), old(Wanted(i)))
    {
      Operands();
      match i {
        case LongNegate =>
          assert Pair(stack[optop - 1], stack[optop]) == TopPair(frames.ops, 0);
          PutPair(2, ToPair(-Signed64(Pair(stack[optop - 1], stack[optop]))));
        case IntToLong =>
          assert stack[optop] == Top(frames.ops, 0);
          PutPair(1, Widen(stack[optop]));
      }
    }

    method StepStraight(i: Instr)
      requires CanRun(i)
      modifies this, stack
      ensures Took(old(pc), old(Wanted(i)))
    {
      if i.Nop? || i.Push? || i.PushPair? {
        StepConstant(i);
      } else if i.Ldc? || i.LdcPair? {
        StepPool(i);
      } else if i.Load? || i.LoadPair? {
        StepLoad(i);
      } else if IsAccess(i) {
        StepStore(i);
      } else if i.Move? {
        StepMove(i.how);
      } else if i.LongBinary? {
        StepLongBinary(i.op);
      } else if i.ShiftLong? {
        StepShiftLong(i.op);
      } else if i.LongNegate? || i.IntToLong? {
        StepLongComputation(i);
      } else {
        StepIntComputation(i);
      }
    }

    // ---------------------------------------------------------- jumps

    /** Where a jump goes; pc stands behind its opcode and operand bytes. */
    method JumpTarget(f: Fetched) returns (target: int)
      requires Shape() && frames.Frame? && IsJump(f.i) && Needs(f.i) <= |frames.ops|
      requires pc == f.next && (f.i.TableJump? || f.i.LookupJump? ==> pc == frames.pc + 1)
      ensures target == JumpTo(p.memory, frames.pc, f, frames.ops)
    {
      Operands();
      match f.i {
        case If(t, to) =>
          assert stack[optop] == Top(frames.ops, 0);
          target := if Passes(t, Signed(stack[optop])) then to else pc;
        case IfCompare(t, to) =>
          assert stack[optop] == Top(frames.ops, 0) && stack[optop - 1] == Top(frames.ops, 1);
          target := if Passes(t, Signed(stack[optop - 1]) - Signed(stack[optop])) then to else pc;
        case Goto(to) =>
          target := to;
        case TableJump =>
          assert stack[optop] == Top(frames.ops, 0);
          target := TableSwitch(p.memory, pc, Signed(stack[optop]));
        case LookupJump =>
          assert stack[optop] == Top(frames.ops, 0);
          target := LookupSwitch(p.memory, pc, Signed(stack[optop]));
      }
    }

    method StepJump(f: Fetched)
      requires Ready(Needs(f.i), 0) && f == Decode(p.memory, frames.pc) && IsJump(f.i) && pc == f.next
      modifies this, stack
      ensures pc == JumpTo(p.memory, old(frames).pc, f, old(frames).ops)
      ensures Done(old(frames).locals, Drop(old(frames).ops, Needs(f.i)))
    {
      Lengths(p.memory, frames.pc);
      pc := JumpTarget(f);
      PopWords(Needs(f.i));
    }

    // ---------------------------------------------------------- class initialisation

    /** find_string("<clinit>"): the pool has it once a class that mentions it is loaded. */
    method FindClinit() returns (wanted: CString?)
      requires InternedNames(p, strings, names)
      ensures wanted == if ClinitInterned(p, world.loaded) then strings[CLINIT] else null
    {
      if ClinitInterned(p, world.loaded) {
        wanted := strings[CLINIT];
      } else {
        wanted := null;
      }
    }

    /** get_static_constructor (src/core.c:132-153); it compares pointers. */
    method GetStaticConstructor(cls: Word) returns (k: Constructor)
      requires InternedNames(p, strings, names)
      ensures k == StaticConstructor(p, world.loaded, cls)
    {
      var wanted := FindClinit();
      if cls in p.classes {
        k := SearchConstructor(p.classes[cls].methods, names[cls], wanted, strings);
      } else {
        k := SearchConstructor([], [], wanted, strings);
      }
    }

    /** initialize_static (src/core.c:1593-1616); the flag of the class is set before. */
    method InitializeStatic(cls: Word) returns (ghost junk: int -> Word)
      requires Valid() && status == Running && frames.Frame? && 0 <= pc < TWO_32
      requires cls in world.flagged && InitializeFits(p, View(), cls)
      requires Size(Initialize(p, View(), cls, Choice(0, NoJunk)).frames) <= stack.Length
      modifies this, stack
      ensures Valid() && Kept() && View() == Initialize(p, old(View()), cls, Choice(0, junk))
    {
      SizeInUse();
      junk := NoJunk;
      assert world.(flagged := world.flagged + {cls}) == world by { assert world.flagged + {cls} == world.flagged; }
      var k := GetStaticConstructor(cls);
      match k {
        case NoConstructor =>
        case Unset => Fail(StrayPointer);
        case Runs(m) =>
          if m.code.None? {
            Fail(StrayPointer);
          } else {
            junk := EnterFrame(m, m.code.value, cls);
          }
      }
    }

    ghost const NoJunk: int -> Word := i => 0

    lemma {:induction false} SizeInUse()
      requires Shape()
      ensures optop + 1 == Size(frames)
    {
      RepSize(base, p.exitPc, stack[..], Registers().(pc := Home(frames)), frames);
    }

    /** A reference to a class whose flag is not set: rewind by three, set the flag, initialise. */
    method Trigger(cls: Word) returns (ghost junk: int -> Word)
      requires Ready(0, 0) && pc == frames.pc + 3 && IsAddress(frames.pc) && InitializeFits(p, View(), cls)
      requires Size(Initialize(p, View(), cls, Choice(0, NoJunk)).frames) <= stack.Length
      modifies this, stack
      ensures Valid() && Kept() && View() == Initialize(p, old(View()), cls, Choice(0, junk))
    {
      pc := pc - 3;
      world := world.(flagged := world.flagged + {cls});
      assert world.flagged + {cls} == world.flagged;
      junk := InitializeStatic(cls);
    }

    // ---------------------------------------------------------- static fields

    /** getstatic on a field of an initialised class. */
    method ReadField(r: FieldRef)
      requires Ready(0, 0) && optop + FieldWords(r.signature) < stack.Length
      modifies this, stack
      ensures Valid() && Kept() && View() == Get(old(View()), r, old(pc))
    {
      var v := StaticOf(world, (r.cls, r.field));
      var words := FieldWords(r.signature);
      if words == 2 {
        PushTwo(v);
      } else if words == 1 {
        PushWord(v.lo);
      } else {
        Fail(FieldNotSupported);
      }
    }

    /** putstatic on a field of an initialised class: the second word is popped first. */
    method WriteField(r: FieldRef)
      requires Ready(FieldWords(r.signature), 0)
      modifies this, stack
      ensures Valid() && Kept() && View() == Put(old(View()), r, old(pc))
    {
      var id := (r.cls, r.field);
      var words := FieldWords(r.signature);
      Operands();
      if words == 2 {
        assert stack[optop] == Top(frames.ops, 0) && stack[optop - 1] == Top(frames.ops, 1);
        var v := Pair(stack[optop - 1], stack[optop]);
        PopWords(2);
        world := world.(statics := world.statics[id := v]);
      } else if words == 1 {
        assert stack[optop] == Top(frames.ops, 0);
        var v := Pair(stack[optop], StaticOf(world, id).hi);
        PopWords(1);
        world := world.(statics := world.statics[id := v]);
      } else {
        Fail(FieldNotSupported);
      }
    }

    /** A reference is about to run: pc stands behind its operand bytes. */
    ghost predicate CanRefer(i: Instr)
      reads this, stack
    {
      && Ready(0, 0) && pc == frames.pc + 3 && IsAddress(frames.pc) && IsReference(i) && ReferenceFits(p, View(), i)
      && Size(Reference(p, View(), Fetched(i, pc), Choice(0, NoJunk)).frames) <= stack.Length
    }

    twostate predicate Referred2(i: Instr, junk: int -> Word)
      requires old(frames).Frame? && IsReference(i) && ReferenceFits(p, old(View()), i)
      reads this, stack
    {
      Valid() && Kept() && View() == Reference(p, old(View()), Fetched(i, old(pc)), Choice(0, junk))
    }

    /** getstatic (src/core.c:1412-1451) */
    method StepGetStatic(n: nat) returns (ghost junk: int -> Word)
      requires CanRefer(GetStatic(n))
      modifies this, stack
      ensures Referred2(GetStatic(n), junk)
    {
      junk := NoJunk;
      SizeInUse();
      var k := p.ClassAt(cp);
      if n !in k.fields {
        Fail(Unresolved);
        return;
      }
      var r := k.fields[n];
      world := world.(loaded := world.loaded + {r.cls});
      if r.cls !in world.flagged {
        junk := Trigger(r.cls);
      } else {
        ReadField(r);
      }
    }

    /** putstatic (src/core.c:1452-1490) */
    method StepPutStatic(n: nat) returns (ghost junk: int -> Word)
      requires CanRefer(PutStatic(n))
      modifies this, stack
      ensures Referred2(PutStatic(n), junk)
    {
      junk := NoJunk;
      SizeInUse();
      var k := p.ClassAt(cp);
      if n !in k.fields {
        Fail(Unresolved);
        return;
      }
      var r := k.fields[n];
      world := world.(loaded := world.loaded + {r.cls});
      if r.cls !in world.flagged {
        junk := Trigger(r.cls);
      } else {
        WriteField(r);
      }
    }

    // ---------------------------------------------------------- invokestatic

    /** The words call_native reads; it does not pop them. */
    method NativeCall(m: Method)
      requires Ready(m.nargs, 0)
      modifies this
      ensures pc == old(pc) && Valid() && Kept()
      ensures View() == old(View()).(frames := old(frames).(pc := pc),
                world := old(world).(printed := old(world).printed + [Printed(m,
                  old(frames).ops[|old(frames).ops| - m.nargs..])]))
    {
      RepTopWords(base, p.exitPc, stack[..], Registers().(pc := frames.pc), frames, m.nargs);
      assert stack[optop - m.nargs + 1..optop + 1] == frames.ops[|frames.ops| - m.nargs..];
      world := world.(printed := world.printed + [Printed(m, stack[optop - m.nargs + 1..optop + 1])]);
      RepPc(base, p.exitPc, stack[..], Registers().(pc := frames.pc), frames, pc);
      frames := frames.(pc := pc);
    }

    method CallMethod(r: MethodRef) returns (ghost junk: int -> Word)
      requires Ready(0, 0) && 0 <= pc < TWO_32 && CallFits(View(), r)
      requires Size(Call(p, View(), r, pc, Choice(0, NoJunk)).frames) <= stack.Length
      modifies this, stack
      ensures Valid() && Kept() && View() == Call(p, old(View()), r, old(pc), Choice(0, junk))
    {
      junk := NoJunk;
      SizeInUse();
      var m := r.target;
      if m.native {
        if m.printed {
          NativeCall(m);
        } else {
          Fail(NativeNotSupported);
        }
      } else if m.code.None? {
        Fail(StrayPointer);
      } else {
        junk := EnterFrame(m, m.code.value, r.cls);
      }
    }

    /** invokestatic (src/core.c:1492-1530) */
    method StepInvoke(n: nat) returns (ghost junk: int -> Word)
      requires CanRefer(Invoke(n))
      modifies this, stack
      ensures Referred2(Invoke(n), junk)
    {
      hide InternedNames, StaticConstructor;
      junk := NoJunk;
      var k := p.ClassAt(cp);
      if n !in k.calls {
        Fail(Unresolved);
        return;
      }
      var r := k.calls[n];
      world := world.(loaded := world.loaded + {r.cls});
      if r.cls !in world.flagged {
        junk := Trigger(r.cls);
      } else {
        junk := CallMethod(r);
      }
    }

    // ---------------------------------------------------------- arrays

    /** newarray (src/core.c:1532-1583); address is what malloc would deliver. */
    method StepNewArray(kind: Byte, address: Word)
      requires Ready(1, 0)
      modifies this, stack
      ensures Valid() && Kept()
      ensures View() == Arrays(old(View()), Fetched(NewArray(kind), old(pc)), Choice(address, NoJunk))
    {
      Operands();
      assert stack[optop] == Top(frames.ops, 0);
      var t := ArrayHeap.ElementOf(kind);
      var place := Malloc(world.heap, address);
      if t == [] {
        Fail(InvalidArrayType);
      } else if place == 0 {
        Fail(OutOfMemory);
      } else {
        var a := ArrayHeap.NewArray(stack[optop], t[0]);
        PutWord(1, place);
        world := world.(heap := world.heap[place := a]);
      }
    }

    method StepArrayLength()
      requires Ready(1, 0)
      modifies this, stack
      ensures Valid() && Kept() && View() == Arrays(old(View()), Fetched(ArrayLength, old(pc)), Choice(0, NoJunk))
    {
      Operands();
      var ref := stack[optop];
      assert ref == Top(frames.ops, 0);
      if ref == 0 {
        Fail(NullPointer);
      } else if ref !in world.heap {
        Fail(StrayPointer);
      } else {
        PutWord(1, world.heap[ref].length);
      }
    }

    method StepArrayLoad(width: nat)
      requires Ready(2, 0)
      modifies this, stack
      ensures Valid() && Kept() && View() == Arrays(old(View()), Fetched(ArrayLoad(width), old(pc)), Choice(0, NoJunk))
    {
      Operands();
      var ref, index := stack[optop - 1], stack[optop];
      assert ref == Top(frames.ops, 1) && index == Top(frames.ops, 0);
      match FindElement(world, ref, index, width) {
        case Some(e) => Fail(e);
        case None =>
          if width != 1 && width != 2 && width != 4 {
            Fail(IllFormed);
          } else {
            PutWord(2, ArrayHeap.LoadWord(world.heap[ref], index, width));
          }
      }
    }

    method StepArrayLoadPair()
      requires Ready(2, 0)
      modifies this, stack
      ensures Valid() && Kept() && View() == Arrays(old(View()), Fetched(ArrayLoadPair, old(pc)), Choice(0, NoJunk))
    {
      Operands();
      var ref, index := stack[optop - 1], stack[optop];
      assert ref == Top(frames.ops, 1) && index == Top(frames.ops, 0);
      SizeInUse();
      match FindElement(world, ref, index, 8) {
        case Some(e) => Fail(e);
        case None => PutPair(2, ArrayHeap.LoadPair(world.heap[ref], index));
      }
    }

    method StepArrayStore(width: nat)
      requires Ready(3, 0)
      modifies this, stack
      ensures Valid() && Kept() && View() == Arrays(old(View()), Fetched(ArrayStore(width), old(pc)), Choice(0, NoJunk))
    {
      Operands();
      var ref, index, w := stack[optop - 2], stack[optop - 1], stack[optop];
      assert ref == Top(frames.ops, 2) && index == Top(frames.ops, 1) && w == Top(frames.ops, 0);
      match FindElement(world, ref, index, width) {
        case Some(e) => Fail(e);
        case None =>
          PopWords(3);
          world := world.(heap := world.heap[ref := ArrayHeap.StoreWord(world.heap[ref], index, width, w)]);
      }
    }

    method StepArrayStorePair()
      requires Ready(4, 0)
      modifies this, stack
      ensures Valid() && Kept() && View() == Arrays(old(View()), Fetched(ArrayStorePair, old(pc)), Choice(0, NoJunk))
    {
      Operands();
      var ref, index, w := stack[optop - 3], stack[optop - 2], Pair(stack[optop - 1], stack[optop]);
      assert ref == Top(frames.ops, 3) && index == Top(frames.ops, 2) && w == TopPair(frames.ops, 0);
      match FindElement(world, ref, index, 8) {
        case Some(e) => Fail(e);
        case None =>
          PopWords(4);
          world := world.(heap := world.heap[ref := ArrayHeap.StorePair(world.heap[ref], index, w)]);
      }
    }

    // ---------------------------------------------------------- one instruction, and the loop

    method StepReference(f: Fetched) returns (ghost junk: int -> Word)
      requires CanRefer(f.i) && f.next == pc
      modifies this, stack
      ensures Valid() && Kept() && View() == Reference(p, old(View()), f, Choice(0, junk))
    {
      match f.i {
        case GetStatic(n) => junk := StepGetStatic(n);
        case PutStatic(n) => junk := StepPutStatic(n);
        case Invoke(n) => junk := StepInvoke(n);
      }
    }

    method StepArray(f: Fetched, address: Word)
      requires IsArray(f.i) && Ready(Needs(f.i), 0) && f.next == pc
      modifies this, stack
      ensures Valid() && Kept() && View() == Arrays(old(View()), f, Choice(address, NoJunk))
    {
      match f.i {
        case NewArray(kind) => StepNewArray(kind, address);
        case ArrayLength => StepArrayLength();
        case ArrayLoad(width) => StepArrayLoad(width);
        case ArrayLoadPair => StepArrayLoadPair();
        case ArrayStore(width) => StepArrayStore(width);
        case ArrayStorePair => StepArrayStorePair();
      }
    }

    /** An instruction is about to run; pc still stands at its opcode. */
    ghost predicate AtInstruction(f: Fetched)
      reads this, stack
    {
      Valid() && status == Running && frames.Frame? && f == Decode(p.memory, frames.pc) && Fit(p, View())
    }

    method RunStraight(f: Fetched)
      requires AtInstruction(f) && IsStraight(f.i) && Size(ExecuteStraight(p, View(), f).frames) <= stack.Length
      modifies this, stack
      ensures Valid() && Kept() && View() == ExecuteStraight(p, old(View()), f)
    {
      SizeInUse();
      ghost var w := Wanted(f.i);
      pc := f.next;
      StepStraight(f.i);
    }

    method RunReference(f: Fetched) returns (ghost junk: int -> Word)
      requires AtInstruction(f) && IsReference(f.i)
               && Size(Reference(p, View(), f, Choice(0, NoJunk)).frames) <= stack.Length
      modifies this, stack
      ensures Valid() && Kept() && View() == Reference(p, old(View()), f, Choice(0, junk))
    {
      Lengths(p.memory, frames.pc);
      pc := f.next;
      junk := StepReference(f);
    }

    method RunArray(f: Fetched, address: Word)
      requires AtInstruction(f) && IsArray(f.i)
      modifies this, stack
      ensures Valid() && Kept() && View() == Arrays(old(View()), f, Choice(address, NoJunk))
    {
      pc := f.next;
      StepArray(f, address);
    }

    method RunReturn(f: Fetched)
      requires AtInstruction(f) && f.i.Return?
      modifies this, stack
      ensures Valid() && Kept() && View() == old(View()).(frames := Leave(old(frames), f.i.words))
    {
      Lengths(p.memory, frames.pc);
      pc := f.next;
      ReturnWords(f.i.words);
    }

    method RunJump(f: Fetched)
      requires AtInstruction(f) && IsJump(f.i)
      modifies this, stack
      ensures Valid() && Kept()
      ensures View() == old(View()).(frames := old(frames).(pc := JumpTo(p.memory, old(frames).pc, f, old(frames).ops),
                                                          ops := Drop(old(frames).ops, Needs(f.i))))
    {
      pc := f.next;
      StepJump(f);
    }

    /** What one instruction asks of the word array: the frames it leaves fit, whatever it takes from
      * outside. The code does not look; writing past the allocation is undefined there.
      */
    ghost predicate Room()
      reads this
    {
      forall ch :: Size(FrameMachine.Step(p, View(), ch).frames) <= stack.Length
    }

    /** One instruction (src/core.c:316-1622) does what the frame machine does. */
    method Step(address: Word) returns (ghost ch: Choice)
      requires Valid() && Fit(p, View()) && Room()
      modifies this, stack
      ensures Valid() && View() == FrameMachine.Step(p, old(View()), ch) && ch.address == address
      ensures old(frames).Frame? ==> forall i :: 0 <= i < old(frame) && i < stack.Length ==> stack[i] == old(stack[i])
    {
      hide InternedNames, Straight, Arrays, JumpTo, Rep, Referred, StaticConstructor;
      ch := Choice(address, NoJunk);
      if status != Running {
        return;
      }
      var f := Decode(p.memory, pc);
      ghost var s := View();
      assert Size(FrameMachine.Step(p, s, ch).frames) <= stack.Length;
      assert s.frames.Bottom? ==> f.i == Exit;
      assert s.frames.Frame? ==> FrameMachine.Step(p, s, ch) == Execute(p, s, f, ch);
      if f.i.Exit? {
        status := Exited;
      } else if IsStraight(f.i) {
        RunStraight(f);
      } else if IsJump(f.i) {
        RunJump(f);
      } else if IsReference(f.i) {
        ReferenceIgnoresAddress(s, f, ch);
        ghost var junk := RunReference(f);
        ch := Choice(address, junk);
        ReferenceIgnoresAddress(s, f, ch);
      } else if IsArray(f.i) {
        RunArray(f, address);
      } else if f.i.Return? {
        RunReturn(f);
      } else {
        Fail(NotSupported);
      }
    }

    lemma {:induction false} ReferenceIgnoresAddress(s: State, f: Fetched, ch: Choice)
      requires s.frames.Frame? && IsReference(f.i) && ReferenceFits(p, s, f.i)
      ensures Reference(p, s, f, ch) == Reference(p, s, f, Choice(0, ch.junk))
    {
    }
  }
}
