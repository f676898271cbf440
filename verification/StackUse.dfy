/** How much of the one word array a run can use. Operands beyond those the certificate asks for can only
  * come from native calls, which never pop their arguments (src/core.c:1511-1514).
  */
module StackUse {
  import opened Words
  import opened Bytecode
  import opened FrameMachine
  import opened Certificates
  import opened Runs

  // ---------------------------------------------------------------- words nobody asked for

  /** The operand words in the frames beyond what the certificate says, when the top one is due `results`. */
  function Excess(cert: Certificate, fs: Frames, results: nat): int {
    match fs
    case Bottom(_) => 0
    case Frame(_, pc, _, ops, below) =>
      if pc in cert then |ops| + results - cert[pc].depth + Excess(cert, below, cert[pc].m.results) else 0
  }

  lemma {:induction false} ExcessIsNatural(cert: Certificate, flagged: set<Word>, exact: bool, fs: Frames, results: nat)
    requires FramesSound(cert, flagged, exact, fs, results)
    ensures Excess(cert, fs, results) >= 0 && (exact ==> Excess(cert, fs, results) == 0)
    decreases fs
  {
    if fs.Frame? { ExcessIsNatural(cert, flagged, exact, fs.below, cert[fs.pc].m.results); }
  }

  /** The words that the next step leaves behind as a native call, less those that it discards with its
    * frame as a return.
    */
  function Litter(p: Program, cert: Certificate, s: State): int {
    if s.status == Running && s.frames.Frame? && s.frames.pc in cert then
      var i := Decode(p.memory, s.frames.pc).i;
      var k := p.ClassAt(s.frames.cls);
      if i.Return? then cert[s.frames.pc].depth - |s.frames.ops|
      else if i.Invoke? && i.index in k.calls && k.calls[i.index].cls in s.world.flagged
           && k.calls[i.index].target.native && !p.nativesPop then k.calls[i.index].target.nargs
      else 0
    else 0
  }

  function LitterOf(p: Program, cert: Certificate, s: State, chs: seq<Choice>): int {
    if chs == [] then 0
    else LitterOf(p, cert, s, chs[..|chs| - 1]) + Litter(p, cert, Run(p, s, chs[..|chs| - 1]))
  }

  lemma {:induction false} TopExcess(cert: Certificate, fs: Frames, gs: Frames, results: nat, depth: int)
    requires fs.Frame? && gs.Frame? && gs.below == fs.below
    requires fs.pc in cert && Goes(cert, gs.pc, cert[fs.pc], depth)
    ensures Excess(cert, gs, results) - Excess(cert, fs, results) == |gs.ops| - |fs.ops| - depth + cert[fs.pc].depth
  {
  }

  lemma {:induction false} ReturnExcess(cert: Certificate, flagged: set<Word>, fs: Frames, n: nat)
    requires fs.Frame? && FramesSound(cert, flagged, false, fs, 0) && n == cert[fs.pc].m.results && n <= |fs.ops|
    ensures Excess(cert, Leave(fs, n), 0) == Excess(cert, fs, 0) + cert[fs.pc].depth - |fs.ops|
  {
  }

  lemma {:induction false} OwnStepExcess(p: Program, cert: Certificate, s: State, f: Fetched, ch: Choice)
    requires Certified(p, cert) && Inv(p, cert, false, s) && s.status == Running && s.frames.Frame? && Fit(p, s)
    requires f == Decode(p.memory, s.frames.pc) && !IsReference(f.i) && Execute(p, s, f, ch).status == Running
    ensures Excess(cert, Execute(p, s, f, ch).frames, 0) == Excess(cert, s.frames, 0) + Litter(p, cert, s)
  {
    hide JumpTo, Excess;
    assert Sound(p, cert, s.frames.pc);
    var t := Execute(p, s, f, ch);
    if f.i.Return? {
      ReturnExcess(cert, s.world.flagged, s.frames, f.i.words);
    } else {
      TopExcess(cert, s.frames, t.frames, 0, cert[s.frames.pc].depth - Needs(f.i) + Leaves(f.i));
    }
  }

  lemma {:induction false} InitializeExcess(p: Program, cert: Certificate, s: State, c: Word, ch: Choice)
    requires s.frames.Frame? && InitializeFits(p, s, c)
    requires GoodConstructor(cert, StaticConstructor(p, s.world.loaded, c), c)
    ensures Excess(cert, Initialize(p, s, c, ch).frames, 0) == Excess(cert, s.frames, 0)
  {
    hide StaticConstructor;
  }

  lemma {:induction false} CallExcess(p: Program, cert: Certificate, s: State, r: MethodRef, next: int, ch: Choice)
    requires s.frames.Frame? && CallFits(s, r) && s.status == Running && Inv(p, cert, false, s)
    requires SoundCall(cert, cert[s.frames.pc], r, next) && Call(p, s, r, next, ch).status == Running
    ensures Excess(cert, Call(p, s, r, next, ch).frames, 0) ==
            Excess(cert, s.frames, 0) + if r.target.native && !p.nativesPop then r.target.nargs else 0
  {
    var at, t := cert[s.frames.pc], Call(p, s, r, next, ch);
    if r.target.native {
      TopExcess(cert, s.frames, t.frames, 0, at.depth - r.target.nargs);
    } else {
      TopExcess(cert, s.frames, t.frames.below, 0, at.depth - r.target.nargs + r.target.results);
    }
  }

  lemma {:induction false} ReferenceExcess(p: Program, cert: Certificate, s: State, f: Fetched, ch: Choice)
    requires Certified(p, cert) && Inv(p, cert, false, s) && Harmless(p, cert, s) && s.status == Running
             && s.frames.Frame?
    requires f == Decode(p.memory, s.frames.pc) && IsReference(f.i) && ReferenceFits(p, s, f.i)
    requires Reference(p, s, f, ch).status == Running
    ensures Excess(cert, Reference(p, s, f, ch).frames, 0) == Excess(cert, s.frames, 0) + Litter(p, cert, s)
  {
    hide StaticConstructor, Excess;
    assert Sound(p, cert, s.frames.pc);
    var k, at := p.ClassAt(s.frames.cls), cert[s.frames.pc];
    var c := Referred(k, f.i).value;
    var t := LoadClass(s, c);
    assert t.world.loaded == s.world.loaded + {c};
    var gs := Reference(p, s, f, ch).frames;
    if c !in s.world.flagged {
      InitializeExcess(p, cert, t, c, ch);
    } else {
      match f.i
      case GetStatic(n) => TopExcess(cert, s.frames, gs, 0, at.depth + FieldWords(k.fields[n].signature));
      case PutStatic(n) => TopExcess(cert, s.frames, gs, 0, at.depth - FieldWords(k.fields[n].signature));
      case Invoke(n) => CallExcess(p, cert, t, k.calls[n], f.next, ch);
    }
  }

  /** The words nobody asked for, to the word: native calls add theirs, a return takes those of its frame. */
  lemma {:induction false} StepExcess(p: Program, cert: Certificate, s: State, ch: Choice)
    requires Certified(p, cert) && Inv(p, cert, false, s) && Harmless(p, cert, s)
    requires s.status == Running && Step(p, s, ch).status == Running
    ensures Excess(cert, Step(p, s, ch).frames, 0) == Excess(cert, s.frames, 0) + Litter(p, cert, s)
  {
    hide Certified, Inv, Harmless, Reference, Litter, Excess;
    CertifiedFits(p, cert, false, s);
    var f := Decode(p.memory, s.frames.pc);
    if IsReference(f.i) {
      ReferenceExcess(p, cert, s, f, ch);
    } else {
      OwnStepExcess(p, cert, s, f, ch);
    }
  }

  lemma {:induction false} StaysStopped(p: Program, s: State, chs: seq<Choice>)
    requires s.status != Running
    ensures Run(p, s, chs) == s
  {
    if chs != [] { StaysStopped(p, s, chs[..|chs| - 1]); }
  }

  /** As long as a run goes on, it went on before. */
  lemma {:induction false} RanBefore(p: Program, s: State, chs: seq<Choice>)
    requires chs != [] && Run(p, s, chs).status == Running
    ensures Run(p, s, chs[..|chs| - 1]).status == Running
  {
  }

  lemma {:induction false} RunExcess(p: Program, cert: Certificate, s: State, chs: seq<Choice>)
    requires Certified(p, cert) && Inv(p, cert, false, s) && HarmlessRun(p, cert, s, chs)
             && Run(p, s, chs).status == Running
    ensures Excess(cert, Run(p, s, chs).frames, 0) == Excess(cert, s.frames, 0) + LitterOf(p, cert, s, chs)
    decreases |chs|
  {
    hide Certified, Inv, Harmless, Step, Excess, Litter;
    if chs != [] {
      var n := |chs| - 1;
      RanBefore(p, s, chs);
      RunExcess(p, cert, s, chs[..n]);
      RunKeepsInv(p, cert, false, s, chs[..n]);
      StepExcess(p, cert, Run(p, s, chs[..n]), chs[n]);
    }
  }

  // ---------------------------------------------------------------- what the live frames may use

  /** A frame may use its locals, four saved words and max_stack; a called method takes its arguments over
    * from its caller.
    */
  function Allowance(cert: Certificate, fs: Frames): int {
    if fs.Frame? && fs.pc in cert then
      cert[fs.pc].code.maxLocals + 4 + cert[fs.pc].code.maxStack +
      (if fs.below.Frame? then Allowance(cert, fs.below) - cert[fs.pc].m.nargs else 0)
    else 0
  }

  /** The arguments that a called method took over lay within its caller's max_stack. */
  ghost predicate Stacked(cert: Certificate, fs: Frames) {
    fs.Frame? && fs.below.Frame? ==>
      && fs.pc in cert && fs.below.pc in cert
      && Within(cert[fs.below.pc], cert[fs.pc].m)
      && Stacked(cert, fs.below)
  }

  ghost predicate Within(at: Point, m: Method) { m.nargs + at.depth <= at.code.maxStack + m.results }

  lemma {:induction false} DepthWithinMaxStack(p: Program, cert: Certificate, pc: int)
    requires Certified(p, cert) && pc in cert
    ensures cert[pc].depth <= cert[pc].code.maxStack
  {
    assert Sound(p, cert, pc);
  }

  lemma {:induction false} StackedTop(cert: Certificate, fs: Frames, gs: Frames)
    requires Stacked(cert, fs) && fs.Frame? && gs.Frame? && gs.below == fs.below
    requires fs.pc in cert && gs.pc in cert && cert[gs.pc].m == cert[fs.pc].m
    ensures Stacked(cert, gs)
  {
  }

  lemma {:induction false} StackedUnder(cert: Certificate, fs: Frames, ws: seq<Word>)
    requires fs.Frame? && Stacked(cert, fs)
    ensures Stacked(cert, PushOps(fs.below, ws))
  {
  }

  lemma {:induction false} StackedCall(cert: Certificate, fs: Frames, gs: Frames)
    requires Stacked(cert, fs) && fs.Frame? && gs.Frame? && gs.below.Frame? && gs.below.below == fs.below
    requires fs.pc in cert && gs.below.pc in cert && cert[gs.below.pc].m == cert[fs.pc].m
    requires gs.pc in cert && Within(cert[gs.below.pc], cert[gs.pc].m)
    ensures Stacked(cert, gs)
  {
    StackedTop(cert, fs, gs.below);
  }

  lemma {:induction false} ReferenceKeepsStacked(p: Program, cert: Certificate, s: State, f: Fetched, ch: Choice)
    requires Certified(p, cert) && Inv(p, cert, false, s) && Harmless(p, cert, s) && s.status == Running
             && s.frames.Frame?
    requires f == Decode(p.memory, s.frames.pc) && IsReference(f.i) && ReferenceFits(p, s, f.i)
    requires Reference(p, s, f, ch).status == Running && Stacked(cert, s.frames)
    ensures Stacked(cert, Reference(p, s, f, ch).frames)
  {
    hide StaticConstructor, Stacked;
    var fs, gs := s.frames, Reference(p, s, f, ch).frames;
    assert Sound(p, cert, fs.pc);
    var k := p.ClassAt(fs.cls);
    var c := Referred(k, f.i).value;
    assert LoadClass(s, c).world.loaded == s.world.loaded + {c};
    var opens := if c in s.world.flagged then f.i.Invoke? && !k.calls[f.i.index].target.native else gs != fs;
    if opens {
      StackedCall(cert, fs, gs);
    } else if gs != fs {
      StackedTop(cert, fs, gs);
    }
  }

  lemma {:induction false} StepKeepsStacked(p: Program, cert: Certificate, s: State, ch: Choice)
    requires Certified(p, cert) && Inv(p, cert, false, s) && Harmless(p, cert, s) && Stacked(cert, s.frames)
    requires s.status == Running && Step(p, s, ch).status == Running
    ensures Stacked(cert, Step(p, s, ch).frames)
  {
    hide Harmless, Reference, Stacked, JumpTo, Straight, Arrays;
    CertifiedFits(p, cert, false, s);
    var f := Decode(p.memory, s.frames.pc);
    assert Sound(p, cert, s.frames.pc);
    if IsReference(f.i) {
      ReferenceKeepsStacked(p, cert, s, f, ch);
    } else if f.i.Return? {
      StackedUnder(cert, s.frames, s.frames.ops[|s.frames.ops| - f.i.words..]);
    } else {
      OwnFrameKeepsBelow(p, s, f, ch);
      OwnFrameKeepsMethod(p, cert, s, f, ch);
      StackedTop(cert, s.frames, Step(p, s, ch).frames);
    }
  }

  lemma {:induction false} RunKeepsStacked(p: Program, cert: Certificate, s: State, chs: seq<Choice>)
    requires Certified(p, cert) && Inv(p, cert, false, s) && HarmlessRun(p, cert, s, chs) && Stacked(cert, s.frames)
    requires Run(p, s, chs).status == Running
    ensures Stacked(cert, Run(p, s, chs).frames)
    decreases |chs|
  {
    hide Certified, Inv, Harmless, Step, Stacked;
    if chs != [] {
      var n := |chs| - 1;
      RanBefore(p, s, chs);
      RunKeepsStacked(p, cert, s, chs[..n]);
      RunKeepsInv(p, cert, false, s, chs[..n]);
      StepKeepsStacked(p, cert, Run(p, s, chs[..n]), chs[n]);
    }
  }

  // ---------------------------------------------------------------- the words in use

  function BottomOps(fs: Frames): seq<Word> {
    match fs case Bottom(ops) => ops case Frame(_, _, _, _, below) => BottomOps(below)
  }

  /** main has not returned yet, or has left at most two words. */
  predicate BottomSmall(s: State) {
    |BottomOps(s.frames)| <= 2 && (s.frames.Frame? ==> BottomOps(s.frames) == [])
  }

  lemma {:induction false} StepKeepsBottom(p: Program, s: State, ch: Choice)
    requires BottomSmall(s)
    ensures BottomSmall(Step(p, s, ch))
  {
    if s.status == Running && s.frames.Frame? && Fit(p, s) {
      var f := Decode(p.memory, s.frames.pc);
      Lengths(p.memory, s.frames.pc);
      if IsReference(f.i) {
        ReferenceKeepsBottom(p, s, f, ch);
      } else if f.i.Return? {
        assert BottomOps(s.frames) == BottomOps(s.frames.below);
        BottomOfPush(s.frames.below, s.frames.ops[|s.frames.ops| - f.i.words..]);
      } else {
        OwnFrameKeepsBelow(p, s, f, ch);
      }
    }
  }

  lemma {:induction false} ReferenceKeepsBottom(p: Program, s: State, f: Fetched, ch: Choice)
    requires s.frames.Frame? && IsReference(f.i) && ReferenceFits(p, s, f.i)
    ensures Reference(p, s, f, ch).frames.Frame? && BottomOps(Reference(p, s, f, ch).frames) == BottomOps(s.frames)
  {
  }

  lemma {:induction false} BottomOfPush(fs: Frames, ws: seq<Word>)
    ensures BottomOps(PushOps(fs, ws)) == if fs.Bottom? then fs.ops + ws else BottomOps(fs)
  {
  }

  lemma {:induction false} RunKeepsBottom(p: Program, s: State, chs: seq<Choice>)
    requires BottomSmall(s)
    ensures BottomSmall(Run(p, s, chs))
    decreases |chs|
  {
    if chs != [] {
      RunKeepsBottom(p, s, chs[..|chs| - 1]);
      StepKeepsBottom(p, Run(p, s, chs[..|chs| - 1]), chs[|chs| - 1]);
    }
  }

  /** The frames of a certified state, the top one due `results` from a method that took `nargs` over. */
  lemma {:induction false} SizeBound(p: Program, cert: Certificate, flagged: set<Word>, fs: Frames, results: nat,
                                     nargs: nat)
    requires Certified(p, cert) && FramesSound(cert, flagged, false, fs, results) && Stacked(cert, fs)
    requires fs.Frame? && nargs + cert[fs.pc].depth <= cert[fs.pc].code.maxStack + results
    ensures Size(fs) + nargs <= Allowance(cert, fs) + |BottomOps(fs)| + Excess(cert, fs, results)
    decreases fs
  {
    hide Certified;
    if fs.below.Frame? {
      SizeBound(p, cert, flagged, fs.below, cert[fs.pc].m.results, cert[fs.pc].m.nargs);
    }
  }

  /** In every state of every run of a certified program the words in use are at most what the live frames
    * may use, less the arguments they share, and the words that native calls have left in them.
    */
  lemma {:induction false} StackBound(p: Program, cert: Certificate, s: State, chs: seq<Choice>)
    requires Certified(p, cert) && Inv(p, cert, false, s) && HarmlessRun(p, cert, s, chs)
    requires BottomSmall(s) && Stacked(cert, s.frames) && Run(p, s, chs).status == Running
             && Run(p, s, chs).frames.Frame?
    ensures var t := Run(p, s, chs);
            Size(t.frames) <= Allowance(cert, t.frames) + Excess(cert, s.frames, 0) + LitterOf(p, cert, s, chs)
  {
    hide Certified, Step, Allowance, Excess, LitterOf, Stacked;
    RunKeepsInv(p, cert, false, s, chs);
    RunKeepsBottom(p, s, chs);
    RunExcess(p, cert, s, chs);
    RunKeepsStacked(p, cert, s, chs);
    var t := Run(p, s, chs);
    DepthWithinMaxStack(p, cert, t.frames.pc);
    SizeBound(p, cert, t.world.flagged, t.frames, 0, 0);
  }

  /** No frame of a certified method may use more than this many words. */
  ghost predicate FrameBound(cert: Certificate, words: nat) {
    4 <= words && forall pc | pc in cert :: cert[pc].code.maxLocals + 4 + cert[pc].code.maxStack <= words
  }

  lemma {:induction false} AllowanceBound(cert: Certificate, fs: Frames, words: nat)
    requires FrameBound(cert, words)
    ensures Allowance(cert, fs) <= Depth(fs) * words
    decreases fs
  {
    if fs.Frame? {
      AllowanceBound(cert, fs.below, words);
      Distribute(Depth(fs.below), words);
      Multiply(0, Depth(fs.below), words);
    }
  }

  lemma {:induction false} Distribute(a: nat, b: nat)
    ensures (1 + a) * b == b + a * b
  {
  }

  lemma {:induction false} Multiply(a: nat, b: nat, c: nat)
    requires a <= b
    ensures a * c <= b * c
  {
  }

  /** Nested no deeper than `depth`, a run fits depth times the largest frame, and its litter. */
  lemma {:induction false} DepthBound(p: Program, cert: Certificate, s: State, chs: seq<Choice>, words: nat, depth: nat)
    requires Certified(p, cert) && Inv(p, cert, false, s) && HarmlessRun(p, cert, s, chs)
    requires BottomSmall(s) && Stacked(cert, s.frames) && Run(p, s, chs).status == Running
    requires FrameBound(cert, words) && 1 <= depth && Depth(Run(p, s, chs).frames) <= depth
    ensures Size(Run(p, s, chs).frames) <= depth * words + Excess(cert, s.frames, 0) + LitterOf(p, cert, s, chs)
  {
    hide Certified, Step, Allowance, Inv, Stacked, FrameBound, HarmlessRun, LitterOf;
    var t := Run(p, s, chs);
    Multiply(Depth(t.frames), depth, words);
    if t.frames.Frame? {
      StackBound(p, cert, s, chs);
      AllowanceBound(cert, t.frames, words);
    } else {
      RunKeepsBottom(p, s, chs);
      RunExcess(p, cert, s, chs);
      Multiply(1, depth, words);
      assert 4 <= words by { AtLeastFour(cert, words); }
    }
  }

  lemma {:induction false} AtLeastFour(cert: Certificate, words: nat)
    requires FrameBound(cert, words)
    ensures words >= 4
  {
  }

  /** Where native methods take nothing, no frame ever has more operands than its max_stack, and the frames
    * fit what they may use.
    */
  lemma {:induction false} StackBoundExact(p: Program, cert: Certificate, s: State, chs: seq<Choice>)
    requires Certified(p, cert) && Inv(p, cert, true, s) && (p.nativesPop || NativesTakeNothing(p))
    requires HarmlessRun(p, cert, s, chs)
    requires BottomSmall(s) && Stacked(cert, s.frames) && Run(p, s, chs).status == Running
             && Run(p, s, chs).frames.Frame?
    ensures var t := Run(p, s, chs);
            && t.frames.pc in cert && |t.frames.ops| <= cert[t.frames.pc].code.maxStack
            && Size(t.frames) <= Allowance(cert, t.frames)
  {
    hide Certified, Step, Allowance, Stacked, Harmless;
    RunKeepsInv(p, cert, true, s, chs);
    var t := Run(p, s, chs);
    NotExact(cert, t.world.flagged, t.frames, 0);
    if s.status != Running { StaysStopped(p, s, chs); }
    NotExact(cert, s.world.flagged, s.frames, 0);
    ExcessIsNatural(cert, t.world.flagged, true, t.frames, 0);
    RunKeepsBottom(p, s, chs);
    RunKeepsStacked(p, cert, s, chs);
    DepthWithinMaxStack(p, cert, t.frames.pc);
    SizeBound(p, cert, t.world.flagged, t.frames, 0, 0);
  }

  lemma {:induction false} NotExact(cert: Certificate, flagged: set<Word>, fs: Frames, results: nat)
    requires FramesSound(cert, flagged, true, fs, results)
    ensures FramesSound(cert, flagged, false, fs, results)
  {
    if fs.Frame? { NotExact(cert, flagged, fs.below, cert[fs.pc].m.results); }
  }

  /** A call of a known native method leaves the operand depth that the certificate wants exactly
    * when the method takes no arguments: the code never pops them.
    */
  lemma {:induction false} NativeCallDepth(cert: Certificate, p: Program, s: State, r: MethodRef, next: int, ch: Choice)
    requires s.frames.Frame? && CallFits(s, r) && r.target.native && r.target.printed && !p.nativesPop
    requires s.frames.pc in cert && SoundCall(cert, cert[s.frames.pc], r, next)
    requires |s.frames.ops| == cert[s.frames.pc].depth
    ensures var t := Call(p, s, r, next, ch);
            t.frames.pc in cert && (|t.frames.ops| == cert[t.frames.pc].depth <==> r.target.nargs == 0)
  {
  }
}
