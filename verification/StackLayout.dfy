/** How a list of frames lies in the one word array (src/core.c:186-198):
  * locals, then the four saved registers of the frame below, then the operands. A callee's locals
  * start right where its caller's remaining operands end.
  */
module StackLayout {
  import opened Words
  import opened FrameMachine

  /** The registers of `run` that describe the current frame; `frame` and `optop` count words. */
  datatype Registers = Registers(pc: int, c: Word, frame: int, localc: int, optop: int)

  /** A stack pointer as the word `(u4) frame`, and back. */
  function ToAddress(base: int, index: int): int { base + 4 * index }

  function FromAddress(base: int, address: int): int { (address - base) / 4 }

  /** GET_OLDLOCALC, GET_OLDFRAME, GET_OLDPC and GET_OLDC (src/core.c:168-171) at a place. */
  function Saved(base: int, mem: seq<Word>, at: int, optop: int): Registers
    requires 0 <= at && at + 3 < |mem|
  {
    Registers(mem[at + 2], mem[at + 3], FromAddress(base, mem[at + 1]), mem[at], optop)
  }

  /** These words lie at this place, and two arrays agree on their first n words. */
  predicate Lies(mem: seq<Word>, at: int, ws: seq<Word>) {
    0 <= at && at + |ws| <= |mem| && forall i :: 0 <= i < |ws| ==> mem[at + i] == ws[i]
  }

  predicate Agree(mem: seq<Word>, other: seq<Word>, n: int) {
    n <= |mem| && n <= |other| && forall i :: 0 <= i < n ==> other[i] == mem[i]
  }

  /** The word array and the registers stand for these frames. Following the saved registers
    * leads down the whole list: each frame starts strictly above the frame it returns to.
    */
  predicate Rep(base: int, exitPc: int, mem: seq<Word>, r: Registers, fs: Frames)
    decreases fs
  {
    -1 <= r.optop < |mem| &&
    match fs
    case Bottom(ops) => r.pc == exitPc && r.optop + 1 == |ops| && Lies(mem, 0, ops)
    case Frame(cls, pc, locals, ops, below) =>
      && r.c == cls && r.pc == pc && r.localc == |locals|
      && 0 <= r.frame && r.optop + 1 == r.frame + |locals| + 4 + |ops|
      && Lies(mem, r.frame, locals)
      && Lies(mem, r.frame + |locals| + 4, ops)
      && Rep(base, exitPc, mem, Saved(base, mem, r.frame + |locals|, r.frame - 1), below)
  }

  /** Only the words up to the top operand matter. */
  lemma {:induction false} RepDepends(base: int, exitPc: int, mem: seq<Word>, other: seq<Word>, r: Registers,
                                      fs: Frames)
    requires Rep(base, exitPc, mem, r, fs) && Agree(mem, other, r.optop + 1)
    ensures Rep(base, exitPc, other, r, fs)
    decreases fs
  {
    if fs.Frame? {
      RepDepends(base, exitPc, mem, other, Saved(base, mem, r.frame + |fs.locals|, r.frame - 1), fs.below);
    }
  }

  /** A change within the top frame: its locals and operands are what they are said to be, and the
    * words below it and its saved registers are as they were.
    */
  lemma {:induction false} RepTop(base: int, exitPc: int, mem: seq<Word>, other: seq<Word>, r: Registers, q: Registers,
                                  fs: Frames, gs: Frames)
    requires Rep(base, exitPc, mem, r, fs) && fs.Frame? && gs.Frame?
    requires q.c == r.c == gs.cls && q.frame == r.frame && q.localc == r.localc == |gs.locals| && gs.below == fs.below
    requires q.pc == gs.pc && q.optop + 1 == q.frame + |gs.locals| + 4 + |gs.ops| <= |other|
    requires Agree(mem, other, r.frame) && SameSaved(mem, other, r.frame + r.localc)
    requires Lies(other, q.frame, gs.locals) && Lies(other, q.frame + |gs.locals| + 4, gs.ops)
    ensures Rep(base, exitPc, other, q, gs)
  {
    var at := r.frame + r.localc;
    RepBelow(base, exitPc, mem, other, r, fs);
    SavedSame(base, mem, other, at, r.frame - 1);
  }

  lemma {:induction false} RepBelow(base: int, exitPc: int, mem: seq<Word>, other: seq<Word>, r: Registers, fs: Frames)
    requires Rep(base, exitPc, mem, r, fs) && fs.Frame? && Agree(mem, other, r.frame)
    ensures Rep(base, exitPc, other, Saved(base, mem, r.frame + r.localc, r.frame - 1), fs.below)
  {
    RepDepends(base, exitPc, mem, other, Saved(base, mem, r.frame + |fs.locals|, r.frame - 1), fs.below);
  }

  lemma {:induction false} SavedSame(base: int, mem: seq<Word>, other: seq<Word>, at: int, optop: int)
    requires SameSaved(mem, other, at)
    ensures Saved(base, other, at, optop) == Saved(base, mem, at, optop)
  {
  }

  predicate SameSaved(mem: seq<Word>, other: seq<Word>, at: int) {
    && 0 <= at && at + 3 < |mem| && at + 3 < |other|
    && other[at] == mem[at] && other[at + 1] == mem[at + 1] && other[at + 2] == mem[at + 2]
      && other[at + 3] == mem[at + 3]
  }

  lemma {:induction false} RepPush(base: int, exitPc: int, mem: seq<Word>, other: seq<Word>, r: Registers, fs: Frames,
                                   ws: seq<Word>)
    requires Rep(base, exitPc, mem, r, fs) && Agree(mem, other, r.optop + 1)
    requires Lies(other, r.optop + 1, ws)
    ensures Rep(base, exitPc, other, r.(optop := r.optop + |ws|), PushOps(fs, ws))
  {
    RepDepends(base, exitPc, mem, other, r, fs);
    var at := if fs.Frame? then r.frame + |fs.locals| + 4 else 0;
    forall i | 0 <= i < |fs.ops + ws| ensures other[at + i] == (fs.ops + ws)[i] {
      if i >= |fs.ops| { assert other[r.optop + 1 + (i - |fs.ops|)] == ws[i - |fs.ops|]; }
    }
  }

  lemma {:induction false} RepPop(base: int, exitPc: int, mem: seq<Word>, r: Registers, fs: Frames, n: nat)
    requires Rep(base, exitPc, mem, r, fs) && fs.Frame? && n <= |fs.ops|
    ensures Rep(base, exitPc, mem, r.(optop := r.optop - n), fs.(ops := Drop(fs.ops, n)))
  {
  }

  lemma {:induction false} RepUnder(base: int, exitPc: int, mem: seq<Word>, r: Registers, fs: Frames)
    requires Rep(base, exitPc, mem, r, fs) && fs.Frame?
    ensures Rep(base, exitPc, mem, Saved(base, mem, r.frame + r.localc, r.frame - 1), fs.below)
    ensures mem[r.frame + r.localc + 2] == if fs.below.Frame? then fs.below.pc else exitPc
  {
  }

  lemma {:induction false} AddressRoundTrip(base: int, index: int)
    ensures FromAddress(base, ToAddress(base, index)) == index
  {
  }

  /** A new frame over a frame list whose registers have been saved where it expects them. */
  lemma {:induction false} RepBuild(base: int, exitPc: int, mem: seq<Word>, r: Registers, below: Registers, fs: Frames)
    requires fs.Frame? && r.c == fs.cls && r.pc == fs.pc && r.localc == |fs.locals| && 0 <= r.frame
    requires r.optop + 1 == r.frame + |fs.locals| + 4 + |fs.ops| <= |mem|
    requires Lies(mem, r.frame, fs.locals) && Lies(mem, r.frame + |fs.locals| + 4, fs.ops)
    requires Rep(base, exitPc, mem, below, fs.below) && below == Saved(base, mem, r.frame + |fs.locals|, r.frame - 1)
    ensures Rep(base, exitPc, mem, r, fs)
  {
  }

  lemma {:induction false} RepPc(base: int, exitPc: int, mem: seq<Word>, r: Registers, fs: Frames, pc: int)
    requires Rep(base, exitPc, mem, r, fs) && fs.Frame?
    ensures Rep(base, exitPc, mem, r.(pc := pc), fs.(pc := pc))
  {
  }

  /** Operands from the top. */
  lemma {:induction false} RepOperand(base: int, exitPc: int, mem: seq<Word>, r: Registers, fs: Frames, k: nat)
    requires Rep(base, exitPc, mem, r, fs) && fs.Frame? && k < |fs.ops|
    ensures mem[r.optop - k] == Top(fs.ops, k)
  {
    var i := |fs.ops| - 1 - k;
    assert mem[r.frame + |fs.locals| + 4 + i] == fs.ops[i];
  }

  /** The top n operands lie in the last n words in use. */
  lemma {:induction false} RepTopWords(base: int, exitPc: int, mem: seq<Word>, r: Registers, fs: Frames, n: nat)
    requires Rep(base, exitPc, mem, r, fs) && fs.Frame? && n <= |fs.ops|
    ensures Lies(mem, r.optop - n + 1, fs.ops[|fs.ops| - n..])
  {
    var top := fs.ops[|fs.ops| - n..];
    forall i | 0 <= i < n ensures mem[r.optop - n + 1 + i] == top[i] {
      var j := |fs.ops| - n + i;
      assert mem[r.frame + |fs.locals| + 4 + j] == fs.ops[j];
    }
  }

  /** The words in use, and the place of the top frame, follow from the frames alone. */
  lemma {:induction false} RepSize(base: int, exitPc: int, mem: seq<Word>, r: Registers, fs: Frames)
    requires Rep(base, exitPc, mem, r, fs)
    ensures r.optop + 1 == Size(fs) && (fs.Frame? ==> r.frame == Size(fs.below))
    decreases fs
  {
    if fs.Frame? {
      RepSize(base, exitPc, mem, Saved(base, mem, r.frame + |fs.locals|, r.frame - 1), fs.below);
    }
  }

  /** The registers are a function of the frames: after a call has come back, frame, localc and class
    * are what they were before it, pc is behind it, and optop has lost the arguments and gained the
    * results.
    */
  lemma {:induction false} CallRestoresRegisters(base: int, exitPc: int, mem: seq<Word>, other: seq<Word>,
                                                 r: Registers, q: Registers,
                                                  fs: Frames, pc: int, n: nat, ws: seq<Word>)
    requires fs.Frame? && n <= |fs.ops|
    requires Rep(base, exitPc, mem, r, fs) && Rep(base, exitPc, other, q, fs.(pc := pc, ops := Drop(fs.ops, n) + ws))
    ensures q == Registers(pc, r.c, r.frame, r.localc, r.optop - n + |ws|)
  {
    RepSize(base, exitPc, mem, r, fs);
    RepSize(base, exitPc, other, q, fs.(pc := pc, ops := Drop(fs.ops, n) + ws));
  }
}
