/** Native calls leave their arguments on the operand stack (src/core.c:1511-1514), the JVMS pops
  * them. What that does to a whole run: nothing but litter below the operands in use, as long as
  * every native call finds nothing but its arguments there.
  */
module Natives {
  import opened Words
  import opened Switches
  import opened Bytecode
  import opened FrameMachine
  import opened Certificates
  import opened Runs
  import ArrayHeap

  /** The same program on a machine that pops native arguments. */
  function Popping(p: Program): Program { p.(nativesPop := true) }

  ghost predicate Ends(long: seq<Word>, short: seq<Word>) {
    |short| <= |long| && forall k :: 0 <= k < |short| ==> Top(long, k) == Top(short, k)
  }

  /** Frame by frame the same, but for words below the operands in use. */
  ghost predicate Littered(fs: Frames, gs: Frames)
    decreases fs
  {
    match (fs, gs)
    case (Bottom(a), Bottom(b)) => a == b
    case (Frame(c, pc, locals, a, below), Frame(d, qc, others, b, under)) =>
      c == d && pc == qc && locals == others && Ends(a, b) && Littered(below, under)
    case _ => false
  }

  ghost predicate Same(s: State, t: State) {
    s.world == t.world && s.status == t.status && Littered(s.frames, t.frames)
  }

  /** Native calls are statements of their own: nothing but the arguments is on the operand stack. */
  ghost predicate StatementNatives(p: Program, cert: Certificate) {
    forall pc | pc in cert ::
      var i := Decode(p.memory, pc).i;
      var k := p.ClassAt(cert[pc].cls);
      i.Invoke? && i.index in k.calls && k.calls[i.index].target.native ==>
        cert[pc].depth == k.calls[i.index].target.nargs
  }

  // ---------------------------------------------------------------- operand stacks that end alike

  lemma {:induction false} EndsDrop(long: seq<Word>, short: seq<Word>, n: nat)
    requires Ends(long, short) && n <= |short|
    ensures Ends(Drop(long, n), Drop(short, n))
  {
    forall k | 0 <= k < |short| - n ensures Top(Drop(long, n), k) == Top(Drop(short, n), k) {
      assert Top(long, k + n) == Top(short, k + n);
    }
  }

  lemma {:induction false} EndsPush(long: seq<Word>, short: seq<Word>, ws: seq<Word>)
    requires Ends(long, short)
    ensures Ends(long + ws, short + ws)
  {
    forall k | 0 <= k < |short + ws| ensures Top(long + ws, k) == Top(short + ws, k) {
      if k >= |ws| { assert Top(long, k - |ws|) == Top(short, k - |ws|); }
    }
  }

  lemma {:induction false} EndsReplace(long: seq<Word>, short: seq<Word>, n: nat, ws: seq<Word>)
    requires Ends(long, short) && n <= |short|
    ensures Ends(Drop(long, n) + ws, Drop(short, n) + ws)
  {
    EndsDrop(long, short, n);
    EndsPush(Drop(long, n), Drop(short, n), ws);
  }

  lemma {:induction false} EndsTail(long: seq<Word>, short: seq<Word>, n: nat)
    requires Ends(long, short) && n <= |short|
    ensures long[|long| - n..] == short[|short| - n..]
  {
    var a, b := long[|long| - n..], short[|short| - n..];
    forall i | 0 <= i < n ensures a[i] == b[i] {
      assert Top(long, n - 1 - i) == Top(short, n - 1 - i);
    }
  }

  // ---------------------------------------------------------------- one instruction

  lemma {:induction false} StraightSame(k: Class, i: Instr, locals: seq<Word>, long: seq<Word>, short: seq<Word>)
    requires IsStraight(i) && Fits(i, |locals|, |short|) && Ends(long, short)
    ensures match (Straight(k, i, locals, long), Straight(k, i, locals, short))
            case (Effect(l, a), Effect(m, b)) => l == m && Ends(a, b)
            case (Fault(e), Fault(f)) => e == f
            case _ => false
  {
    if IsComputation(i) {
      ComputedSame(i, locals, long, short);
    } else if i.Move? {
      MovedSame(i.how, long, short);
    } else {
      EndsDrop(long, short, Needs(i));
      forall ws: seq<Word> ensures Ends(long + ws, short + ws) { EndsPush(long, short, ws); }
    }
  }

  lemma {:induction false} ComputedSame(i: Instr, locals: seq<Word>, long: seq<Word>, short: seq<Word>)
    requires IsComputation(i) && Needs(i) <= |short| && Ends(long, short)
    ensures match (Computed(i, locals, long), Computed(i, locals, short))
            case (Effect(l, a), Effect(m, b)) => l == m && Ends(a, b)
            case (Fault(e), Fault(f)) => e == f
            case _ => false
  {
    forall ws: seq<Word> ensures Ends(Drop(long, Needs(i)) + ws, Drop(short, Needs(i)) + ws) {
      EndsReplace(long, short, Needs(i), ws);
    }
  }

  lemma {:induction false} MovedSame(how: Shuffle, long: seq<Word>, short: seq<Word>)
    requires Needs(Move(how)) <= |short| && Ends(long, short)
    ensures Ends(Moved(how, long), Moved(how, short))
  {
    forall ws: seq<Word> ensures Ends(long + ws, short + ws) { EndsPush(long, short, ws); }
    forall n: nat, ws: seq<Word> | n <= |short| ensures Ends(Drop(long, n) + ws, Drop(short, n) + ws) {
      EndsReplace(long, short, n, ws);
    }
    forall n: nat | n <= |short| ensures Ends(Drop(long, n), Drop(short, n)) { EndsDrop(long, short, n); }
  }

  lemma {:induction false} JumpSame(m: Memory, pc: int, f: Fetched, long: seq<Word>, short: seq<Word>)
    requires IsJump(f.i) && Needs(f.i) <= |short| && Ends(long, short)
    ensures JumpTo(m, pc, f, long) == JumpTo(m, pc, f, short)
    ensures Ends(Drop(long, Needs(f.i)), Drop(short, Needs(f.i)))
  {
    EndsDrop(long, short, Needs(f.i));
  }

  lemma {:induction false} ArraysSame(s: State, t: State, f: Fetched, ch: Choice)
    requires s.frames.Frame? && t.frames.Frame? && Same(s, t) && IsArray(f.i) && Needs(f.i) <= |t.frames.ops|
    ensures Same(Arrays(s, f, ch), Arrays(t, f, ch))
  {
    EndsDrop(s.frames.ops, t.frames.ops, Needs(f.i));
    if f.i.ArrayStore? || f.i.ArrayStorePair? {
      StoresSame(s, t, f, ch);
    } else if f.i.ArrayLoad? || f.i.ArrayLoadPair? {
      LoadsSame(s, t, f, ch);
    } else {
      BlocksSame(s, t, f, ch);
    }
  }

  lemma {:induction false} BlocksSame(s: State, t: State, f: Fetched, ch: Choice)
    requires s.frames.Frame? && t.frames.Frame? && Same(s, t) && Needs(f.i) <= |t.frames.ops|
             && (f.i.NewArray? || f.i.ArrayLength?)
    ensures Same(Arrays(s, f, ch), Arrays(t, f, ch))
  {
    var long, short := s.frames.ops, t.frames.ops;
    assert Top(long, 0) == Top(short, 0);
    forall ws: seq<Word> ensures Ends(Drop(long, 1) + ws, Drop(short, 1) + ws) { EndsReplace(long, short, 1, ws); }
  }

  lemma {:induction false} LoadsSame(s: State, t: State, f: Fetched, ch: Choice)
    requires s.frames.Frame? && t.frames.Frame? && Same(s, t) && Needs(f.i) <= |t.frames.ops|
             && (f.i.ArrayLoad? || f.i.ArrayLoadPair?)
    ensures Same(Arrays(s, f, ch), Arrays(t, f, ch))
  {
    var long, short, n := s.frames.ops, t.frames.ops, Needs(f.i);
    assert forall k :: 0 <= k < n ==> Top(long, k) == Top(short, k);
    forall ws: seq<Word> ensures Ends(Drop(long, n) + ws, Drop(short, n) + ws) { EndsReplace(long, short, n, ws); }
  }

  lemma {:induction false} StoresSame(s: State, t: State, f: Fetched, ch: Choice)
    requires s.frames.Frame? && t.frames.Frame? && Same(s, t) && Needs(f.i) <= |t.frames.ops|
    requires (f.i.ArrayStore? || f.i.ArrayStorePair?)
             && Ends(Drop(s.frames.ops, Needs(f.i)), Drop(t.frames.ops, Needs(f.i)))
    ensures Same(Arrays(s, f, ch), Arrays(t, f, ch))
  {
    hide ArrayHeap.StoreWord, ArrayHeap.StorePair, ArrayHeap.Holds, FindElement;
    assert forall k :: 0 <= k < Needs(f.i) ==> Top(s.frames.ops, k) == Top(t.frames.ops, k);
  }

  lemma {:induction false} PushSame(fs: Frames, gs: Frames, ws: seq<Word>)
    requires Littered(fs, gs)
    ensures Littered(PushOps(fs, ws), PushOps(gs, ws))
  {
    EndsPush(fs.ops, gs.ops, ws);
  }

  lemma {:induction false} LeaveSame(fs: Frames, gs: Frames, n: nat)
    requires fs.Frame? && gs.Frame? && Littered(fs, gs) && n <= |gs.ops|
    ensures Littered(Leave(fs, n), Leave(gs, n))
  {
    EndsTail(fs.ops, gs.ops, n);
    PushSame(fs.below, gs.below, gs.ops[|gs.ops| - n..]);
  }

  lemma {:induction false} EnterSame(fs: Frames, gs: Frames, m: Method, code: Code, cls: Word, resume: int,
                                     junk: int -> Word)
    requires fs.Frame? && gs.Frame? && Littered(fs, gs) && m.nargs <= |gs.ops| && m.nargs <= code.maxLocals
    ensures Littered(Enter(fs, m, code, cls, resume, junk), Enter(gs, m, code, cls, resume, junk))
  {
    EndsDrop(fs.ops, gs.ops, m.nargs);
    var a, b := NewLocals(fs.ops, m, code.maxLocals, junk), NewLocals(gs.ops, m, code.maxLocals, junk);
    forall i | 0 <= i < |a| ensures a[i] == b[i] {
      if i < m.nargs { assert Top(fs.ops, m.nargs - 1 - i) == Top(gs.ops, m.nargs - 1 - i); }
    }
  }

  lemma {:induction false} InitializeSame(p: Program, s: State, t: State, c: Word, ch: Choice)
    requires s.frames.Frame? && t.frames.Frame? && Same(s, t) && InitializeFits(Popping(p), t, c)
    ensures InitializeFits(p, s, c) && Same(Initialize(p, s, c, ch), Initialize(Popping(p), t, c, ch))
  {
    SameConstructor(p, s.world.loaded, c);
    var k := StaticConstructor(p, s.world.loaded, c);
    if k.Runs? && k.target.code.Some? {
      EnterSame(s.frames, t.frames, k.target, k.target.code.value, c, s.frames.pc, ch.junk);
    }
  }

  lemma {:induction false} SameConstructor(p: Program, loaded: set<Word>, c: Word)
    ensures StaticConstructor(p, loaded, c) == StaticConstructor(Popping(p), loaded, c)
  {
    assert forall d :: p.ClassAt(d) == Popping(p).ClassAt(d);
  }

  lemma {:induction false} FieldSame(s: State, t: State, r: FieldRef, next: int)
    requires s.frames.Frame? && t.frames.Frame? && Same(s, t)
    ensures Same(Get(s, r, next), Get(t, r, next))
    ensures FieldWords(r.signature) <= |t.frames.ops| ==> Same(Put(s, r, next), Put(t, r, next))
  {
    forall ws: seq<Word> ensures Ends(s.frames.ops + ws,
      t.frames.ops + ws) { EndsPush(s.frames.ops, t.frames.ops, ws); }
    if FieldWords(r.signature) <= |t.frames.ops| { EndsDrop(s.frames.ops, t.frames.ops, FieldWords(r.signature)); }
  }

  /** The one place where the machines differ: popping leaves nothing, so any litter will do. */
  lemma {:induction false} NativeSame(p: Program, s: State, t: State, r: MethodRef, next: int, ch: Choice)
    requires !p.nativesPop && s.frames.Frame? && t.frames.Frame? && Same(s, t) && CallFits(t, r)
    requires r.target.native && |t.frames.ops| == r.target.nargs
    ensures CallFits(s, r) && Same(Call(p, s, r, next, ch), Call(Popping(p), t, r, next, ch))
  {
    EndsTail(s.frames.ops, t.frames.ops, r.target.nargs);
  }

  lemma {:induction false} CallSame(p: Program, s: State, t: State, r: MethodRef, next: int, ch: Choice)
    requires !p.nativesPop && s.frames.Frame? && t.frames.Frame? && Same(s, t) && CallFits(t, r)
    requires r.target.native ==> |t.frames.ops| == r.target.nargs
    ensures CallFits(s, r) && Same(Call(p, s, r, next, ch), Call(Popping(p), t, r, next, ch))
  {
    hide Ends;
    if r.target.native {
      NativeSame(p, s, t, r, next, ch);
    } else {
      EndsAtLeast(s.frames.ops, t.frames.ops);
      if r.target.code.Some? {
        EnterSame(s.frames, t.frames, r.target, r.target.code.value, r.cls, next, ch.junk);
      }
    }
  }

  lemma {:induction false} EndsAtLeast(long: seq<Word>, short: seq<Word>)
    requires Ends(long, short)
    ensures |short| <= |long|
  {
  }

  lemma {:induction false} ReferenceSame(p: Program, s: State, t: State, f: Fetched, ch: Choice)
    requires !p.nativesPop && s.frames.Frame? && t.frames.Frame? && Same(s, t)
    requires IsReference(f.i) && ReferenceFits(Popping(p), t, f.i)
    requires var k := p.ClassAt(t.frames.cls);
             f.i.Invoke? && f.i.index in k.calls && k.calls[f.i.index].target.native ==>
               |t.frames.ops| == k.calls[f.i.index].target.nargs
    ensures ReferenceFits(p, s, f.i) && Same(Reference(p, s, f, ch), Reference(Popping(p), t, f, ch))
  {
    var k := p.ClassAt(s.frames.cls);
    assert k == Popping(p).ClassAt(t.frames.cls);
    if Referred(k, f.i).Some? {
      var c := Referred(k, f.i).value;
      if c !in s.world.flagged {
        InitializeSame(p, LoadClass(s, c), LoadClass(t, c), c, ch);
      } else {
        match f.i
        case GetStatic(n) => FieldSame(LoadClass(s, c), LoadClass(t, c), k.fields[n], f.next);
        case PutStatic(n) => FieldSame(LoadClass(s, c), LoadClass(t, c), k.fields[n], f.next);
        case Invoke(n) => CallSame(p, LoadClass(s, c), LoadClass(t, c), k.calls[n], f.next, ch);
      }
    }
  }

  lemma {:induction false} ExecuteSame(p: Program, s: State, t: State, f: Fetched, ch: Choice)
    requires !p.nativesPop && s.frames.Frame? && t.frames.Frame? && Same(s, t) && t.status == Running
    requires Fit(Popping(p), t) && f == Decode(p.memory, t.frames.pc) && !IsReference(f.i)
    ensures Fit(p, s) && Same(Execute(p, s, f, ch), Execute(Popping(p), t, f, ch))
  {
    if IsStraight(f.i) {
      assert p.ClassAt(s.frames.cls) == Popping(p).ClassAt(t.frames.cls);
      StraightSame(p.ClassAt(s.frames.cls), f.i, s.frames.locals, s.frames.ops, t.frames.ops);
    } else if IsJump(f.i) {
      JumpSame(p.memory, t.frames.pc, f, s.frames.ops, t.frames.ops);
    } else if IsArray(f.i) {
      ArraysSame(s, t, f, ch);
    } else if f.i.Return? {
      LeaveSame(s.frames, t.frames, f.i.words);
    }
  }

  lemma {:induction false} StepSame(p: Program, cert: Certificate, s: State, t: State, ch: Choice)
    requires !p.nativesPop && Certified(Popping(p), cert) && Inv(Popping(p), cert, true, t) && StatementNatives(p, cert)
    requires Same(s, t) && Harmless(Popping(p), cert, t)
    ensures Same(Step(p, s, ch), Step(Popping(p), t, ch))
  {
    CertifiedFits(Popping(p), cert, true, t);
    if t.status == Running && t.frames.Frame? {
      var f := Decode(p.memory, t.frames.pc);
      if IsReference(f.i) {
        ReferenceSame(p, s, t, f, ch);
      } else {
        ExecuteSame(p, s, t, f, ch);
      }
    }
  }

  /** Where native calls are statements of their own, the code and the JVMS agree along every run on
    * everything but the litter: frames, locals, operands in use, fields, arrays, output, and how the
    * program ends.
    */
  lemma {:induction false} NativesLeaveOnlyLitter(p: Program, cert: Certificate, s: State, chs: seq<Choice>)
    requires !p.nativesPop && Certified(Popping(p), cert) && Inv(Popping(p), cert, true, s) && StatementNatives(p, cert)
    requires HarmlessRun(Popping(p), cert, s, chs)
    ensures Same(Run(p, s, chs), Run(Popping(p), s, chs))
    decreases |chs|
  {
    hide Step, Certified, Inv, Harmless, Same, StatementNatives;
    if chs == [] {
      SameAsItself(s);
    } else {
      var n := |chs| - 1;
      NativesLeaveOnlyLitter(p, cert, s, chs[..n]);
      RunKeepsInv(Popping(p), cert, true, s, chs[..n]);
      StepSame(p, cert, Run(p, s, chs[..n]), Run(Popping(p), s, chs[..n]), chs[n]);
    }
  }

  lemma {:induction false} SameAsItself(s: State)
    ensures Same(s, s)
  {
    LitteredReflexive(s.frames);
  }

  lemma {:induction false} LitteredReflexive(fs: Frames)
    ensures Littered(fs, fs)
  {
    if fs.Frame? { LitteredReflexive(fs.below); }
  }

  /** Elsewhere the next operand is wrong: after a native call above other operands the code finds the
    * last argument on top, the JVMS the operand below the arguments.
    */
  lemma {:induction false} LitterOnTop(p: Program, s: State, r: MethodRef, next: int, ch: Choice)
    requires !p.nativesPop && s.frames.Frame? && CallFits(s, r) && r.target.native && r.target.printed
    requires 1 <= r.target.nargs < |s.frames.ops|
    ensures var t, u := Call(p, s, r, next, ch), Call(Popping(p), s, r, next, ch);
            Top(t.frames.ops, 0) == Top(u.frames.ops, 0) <==> Top(s.frames.ops, 0) == Top(s.frames.ops, r.target.nargs)
  {
  }
}
