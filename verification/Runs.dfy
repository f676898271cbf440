/** Whole runs of the frame machine: class initialisation, calls and their returns, stack use. */
module Runs {
  import opened Words
  import opened Bytecode
  import opened Wrappers
  import opened FrameMachine
  import opened Certificates

  /** Every state a certified program reaches is certified, as long as the constructors it runs are good. */
  lemma {:induction false} RunKeepsInv(p: Program, cert: Certificate, exact: bool, s: State, chs: seq<Choice>)
    requires Certified(p, cert) && Inv(p, cert, exact, s) && (exact ==> p.nativesPop || NativesTakeNothing(p))
    requires HarmlessRun(p, cert, s, chs)
    ensures Inv(p, cert, exact, Run(p, s, chs))
    decreases |chs|
  {
    hide Step, Inv, Certified, Harmless;
    if chs != [] {
      RunKeepsInv(p, cert, exact, s, chs[..|chs| - 1]);
      StepKeepsInv(p, cert, exact, Run(p, s, chs[..|chs| - 1]), chs[|chs| - 1]);
    }
  }

  /** Checked before the run, the constructors are good in every run. */
  lemma {:induction false} PreparedRun(p: Program, cert: Certificate, exact: bool, ready: set<Word>, s: State,
                                       chs: seq<Choice>)
    requires Certified(p, cert) && Inv(p, cert, exact, s) && (exact ==> p.nativesPop || NativesTakeNothing(p))
    requires Prepared(p, cert, ready) && ready <= s.world.flagged
    ensures HarmlessRun(p, cert, s, chs)
    decreases |chs|
  {
    hide Step, Inv, Certified, Harmless, Prepared;
    if chs != [] {
      var before := chs[..|chs| - 1];
      PreparedRun(p, cert, exact, ready, s, before);
      RunKeepsInv(p, cert, exact, s, before);
      TriggersCounted(p, s, before);
      PreparedIsHarmless(p, cert, exact, ready, Run(p, s, before));
    }
  }

  // ------------------------------------------------------------ initialisation, once per class

  /** The class whose initialisation the next instruction starts. */
  function Triggered(p: Program, s: State): Option<Word> {
    if s.status == Running && s.frames.Frame? && Fit(p, s) then
      var c := Referred(p.ClassAt(s.frames.cls), Decode(p.memory, s.frames.pc).i);
      if c.Some? && c.value !in s.world.flagged then c else None
    else None
  }

  function Flagging(c: Option<Word>): set<Word> { if c.Some? then {c.value} else {} }

  /** Flags are only ever set, one at a time, and only by a trigger. */
  lemma {:induction false} StepFlags(p: Program, s: State, ch: Choice)
    ensures Step(p, s, ch).world.flagged == s.world.flagged + Flagging(Triggered(p, s))
  {
    if s.status == Running && s.frames.Frame? && Fit(p, s) {
      var f := Decode(p.memory, s.frames.pc);
      if !IsReference(f.i) {
        NoReference(f.i, p.ClassAt(s.frames.cls));
        OwnFrameKeepsFlags(p, s, f, ch);
      }
    }
  }

  lemma {:induction false} NoReference(i: Instr, k: Class)
    requires !IsReference(i)
    ensures Referred(k, i) == None
  {
  }

  lemma {:induction false} OwnFrameKeepsFlags(p: Program, s: State, f: Fetched, ch: Choice)
    requires s.status == Running && s.frames.Frame? && Fit(p, s) && f == Decode(p.memory, s.frames.pc)
             && !IsReference(f.i)
    ensures var t := Execute(p, s, f, ch);
            t.world.flagged == s.world.flagged && t.world.statics == s.world.statics && t.world.loaded == s.world.loaded
    ensures Execute(p, s, f, ch).frames.Frame? && !f.i.Return? ==> Execute(p, s, f, ch).frames.below == s.frames.below
  {
  }

  function Triggers(p: Program, s: State, chs: seq<Choice>): nat {
    if chs == [] then 0
    else Triggers(p, s, chs[..|chs| - 1]) + |Flagging(Triggered(p, Run(p, s, chs[..|chs| - 1])))|
  }

  /** The classes initialised during a run are counted by its triggers: no class is initialised
    * twice, and the classes not yet initialised bound the triggers still to come.
    */
  lemma {:induction false} TriggersCounted(p: Program, s: State, chs: seq<Choice>)
    ensures s.world.flagged <= Run(p, s, chs).world.flagged
    ensures |Run(p, s, chs).world.flagged| == |s.world.flagged| + Triggers(p, s, chs)
    decreases |chs|
  {
    if chs != [] {
      var t := Run(p, s, chs[..|chs| - 1]);
      TriggersCounted(p, s, chs[..|chs| - 1]);
      StepFlags(p, t, chs[|chs| - 1]);
      assert t.world.flagged !! Flagging(Triggered(p, t));
    }
  }

  lemma {:induction false} TriggersBounded(p: Program, cert: Certificate, exact: bool, s: State, chs: seq<Choice>)
    requires Certified(p, cert) && Inv(p, cert, exact, s) && (exact ==> p.nativesPop || NativesTakeNothing(p))
    requires HarmlessRun(p, cert, s, chs) && Run(p, s, chs).status == Running
    ensures Triggers(p, s, chs) <= |p.classes| - |s.world.flagged|
  {
    RunKeepsInv(p, cert, exact, s, chs);
    TriggersCounted(p, s, chs);
    var flagged := Run(p, s, chs).world.flagged;
    assert flagged <= p.classes.Keys;
    SubsetSize(flagged, p.classes.Keys);
  }

  lemma {:induction false} SubsetSize(a: set<Word>, b: set<Word>)
    requires a <= b
    ensures |a| <= |b|
    decreases a
  {
    if a != {} {
      var x :| x in a;
      SubsetSize(a - {x}, b - {x});
    }
  }

  lemma {:induction false} RunSplits(p: Program, s: State, before: seq<Choice>, after: seq<Choice>)
    ensures Run(p, s, before + after) == Run(p, Run(p, s, before), after)
    decreases |after|
  {
    hide Step;
    if after == [] {
      assert before + after == before;
    } else {
      var n := |before + after| - 1;
      assert (before + after)[..n] == before + after[..|after| - 1];
      RunSplits(p, s, before, after[..|after| - 1]);
    }
  }

  /** A class whose initialisation has been triggered is never triggered again. */
  lemma {:induction false} TriggeredOnce(p: Program, s: State, ch: Choice, after: seq<Choice>)
    requires Triggered(p, s).Some?
    ensures Triggered(p, Run(p, Step(p, s, ch), after)) != Triggered(p, s)
  {
    StepFlags(p, s, ch);
    TriggersCounted(p, Step(p, s, ch), after);
  }

  /** Only a class that is flagged gets a static field written or a method entered. */
  lemma {:induction false} OnlyFlaggedClassesAct(p: Program, s: State, ch: Choice)
    ensures var t := Step(p, s, ch);
            forall id :: StaticOf(t.world, id) != StaticOf(s.world, id) ==> id.0 in s.world.flagged
    ensures var t := Step(p, s, ch);
            Depth(t.frames) > Depth(s.frames) ==> t.frames.Frame? && t.frames.cls in t.world.flagged
  {
    hide Straight, JumpTo, Arrays, StaticConstructor;
    if s.status == Running && s.frames.Frame? && Fit(p, s) {
      var f := Decode(p.memory, s.frames.pc);
      if f.i.Return? {
        DepthOfPush(s.frames.below, s.frames.ops[|s.frames.ops| - f.i.words..]);
      } else if !IsReference(f.i) {
        OwnFrameKeepsFlags(p, s, f, ch);
        OwnFrameKeepsBelow(p, s, f, ch);
      }
    }
  }

  /** Fields of classes that are not flagged are not read: whatever they hold, the step does the same to
    * everything else.
    */
  lemma {:induction false} UnflaggedFieldsAreUnread(p: Program, s: State, t: State, ch: Choice)
    requires SameButFields(s.world.flagged, s, t)
    ensures SameButFields(s.world.flagged, Step(p, s, ch), Step(p, t, ch))
  {
    hide Straight, JumpTo, StaticConstructor, Reference, Arrays, ReferenceFits;
    if s.status == Running && s.frames.Frame? {
      var f := Decode(p.memory, s.frames.pc);
      if IsReference(f.i) {
        ReferenceReadsFlagged(p, s, t, f, ch);
      } else if Fit(p, s) && IsArray(f.i) {
        ArraysReadNoFields(s, t.world.statics, f, ch);
      }
    }
  }

  lemma {:induction false} ArraysReadNoFields(s: State, statics: map<FieldId, Pair>, f: Fetched, ch: Choice)
    requires s.frames.Frame? && IsArray(f.i) && Needs(f.i) <= |s.frames.ops|
    ensures var a, b := Arrays(s, f, ch), Arrays(s.(world := s.world.(statics := statics)), f, ch);
            b == a.(world := a.world.(statics := statics)) && a.world.statics == s.world.statics
  {
  }

  /** The two outcomes differ in nothing but fields of classes that are not flagged. */
  ghost predicate SameButFields(flagged: set<Word>, a: State, b: State) {
    && b.frames == a.frames && b.status == a.status && b.world == a.world.(statics := b.world.statics)
    && forall id: FieldId :: id.0 in flagged ==> StaticOf(b.world, id) == StaticOf(a.world, id)
  }

  lemma {:induction false} FieldReadsFlagged(s: State, t: State, r: FieldRef, next: int)
    requires s.frames.Frame? && SameButFields(s.world.flagged, s, t) && r.cls in s.world.flagged
    ensures SameButFields(s.world.flagged, Get(s, r, next), Get(t, r, next))
    ensures FieldWords(r.signature) <= |s.frames.ops| ==>
              SameButFields(s.world.flagged, Put(s, r, next), Put(t, r, next))
  {
  }

  lemma {:induction false} CallReadsNoFields(p: Program, s: State, t: State, r: MethodRef, next: int, ch: Choice)
    requires s.frames.Frame? && SameButFields(s.world.flagged, s, t) && CallFits(s, r)
    ensures CallFits(t, r) && SameButFields(s.world.flagged, Call(p, s, r, next, ch), Call(p, t, r, next, ch))
  {
    hide Enter;
  }

  lemma {:induction false} InitializeReadsNoFields(p: Program, s: State, t: State, c: Word, ch: Choice)
    requires s.frames.Frame? && SameButFields(s.world.flagged, s, t) && InitializeFits(p, s, c)
    ensures InitializeFits(p, t, c)
    ensures SameButFields(s.world.flagged, Initialize(p, s, c, ch), Initialize(p, t, c, ch))
  {
    hide Enter, StaticConstructor;
  }

  lemma {:induction false} ReferenceReadsFlagged(p: Program, s: State, t: State, f: Fetched, ch: Choice)
    requires s.frames.Frame? && IsReference(f.i) && SameButFields(s.world.flagged, s, t)
    ensures ReferenceFits(p, s, f.i) <==> ReferenceFits(p, t, f.i)
    ensures ReferenceFits(p, s, f.i) ==>
              SameButFields(s.world.flagged, Reference(p, s, f, ch), Reference(p, t, f, ch))
  {
    hide StaticConstructor, FieldWords, Initialize, Get, Put, Call;
    var k := p.ClassAt(s.frames.cls);
    var c := Referred(k, f.i);
    if c.Some? {
      var s', t' := LoadClass(s, c.value), LoadClass(t, c.value);
      assert SameButFields(s'.world.flagged, s', t');
      if ReferenceFits(p, s, f.i) {
        if c.value !in s.world.flagged {
          InitializeReadsNoFields(p, s', t', c.value, ch);
        } else {
          match f.i
          case GetStatic(n) => FieldReadsFlagged(s', t', k.fields[n], f.next);
          case PutStatic(n) => FieldReadsFlagged(s', t', k.fields[n], f.next);
          case Invoke(n) => CallReadsNoFields(p, s', t', k.calls[n], f.next, ch);
        }
      }
    }
  }

  lemma {:induction false} DepthOfPush(base: Frames, ws: seq<Word>)
    ensures Depth(PushOps(base, ws)) == Depth(base)
  {
  }

  // ------------------------------------------------------------ calls and returns

  /** The frames from base down lie untouched under fs. */
  ghost predicate Over(fs: Frames, base: Frames) {
    fs.Frame? && (fs.below == base || Over(fs.below, base))
  }

  lemma {:induction false} OverIsDeeper(fs: Frames, base: Frames)
    requires Over(fs, base)
    ensures Depth(fs) > Depth(base)
  {
    if fs.below != base { OverIsDeeper(fs.below, base); }
  }

  /** The frame that lies directly on base. */
  ghost function Caller(fs: Frames, base: Frames): (r: Frames)
    requires Over(fs, base)
    ensures r.Frame? && r.below == base
  {
    if fs.below == base then fs else Caller(fs.below, base)
  }

  /** One step either leaves everything from base down untouched, or is the return to base. */
  lemma {:induction false} StepOver(p: Program, s: State, base: Frames, ch: Choice)
    requires Over(s.frames, base)
    ensures var t := Step(p, s, ch);
            || Over(t.frames, base)
            || (s.frames.below == base && s.status == t.status == Running && t.world == s.world
                && var i := Decode(p.memory, s.frames.pc).i;
                   i.Return? && i.words <= |s.frames.ops| && t.frames == Leave(s.frames, i.words)
                   && Depth(t.frames) == Depth(base))
  {
    if s.status == Running && Fit(p, s) {
      var f := Decode(p.memory, s.frames.pc);
      var t := Execute(p, s, f, ch);
      if IsReference(f.i) {
        ReferenceOver(p, s, f, base, ch);
      } else if f.i.Return? {
        DepthOfPush(s.frames.below, s.frames.ops[|s.frames.ops| - f.i.words..]);
        if s.frames.below != base { assert Over(s.frames.below, base); }
      } else {
        OwnFrameKeepsBelow(p, s, f, ch);
      }
    }
  }

  lemma {:induction false} OwnFrameKeepsBelow(p: Program, s: State, f: Fetched, ch: Choice)
    requires s.status == Running && s.frames.Frame? && Fit(p, s) && f == Decode(p.memory, s.frames.pc)
    requires !IsReference(f.i) && !f.i.Return?
    ensures var t := Execute(p, s, f, ch);
            t.frames.Frame? && t.frames.below == s.frames.below && t.frames.cls == s.frames.cls
  {
  }

  lemma {:induction false} ReferenceOver(p: Program, s: State, f: Fetched, base: Frames, ch: Choice)
    requires Over(s.frames, base) && IsReference(f.i) && ReferenceFits(p, s, f.i)
    ensures Over(Reference(p, s, f, ch).frames, base)
  {
    var k := p.ClassAt(s.frames.cls);
    var t := Reference(p, s, f, ch);
    if t.frames.below != s.frames.below {
      assert t.frames.below.Frame? && t.frames.below.below == s.frames.below;
      assert Over(t.frames.below, base);
    }
  }

  /** Along a run that never gets as shallow as base, everything from base down stays. */
  lemma {:induction false} StaysOver(p: Program, s: State, base: Frames, chs: seq<Choice>)
    requires Over(s.frames, base)
    requires forall k :: 0 <= k <= |chs| ==> Depth(Run(p, s, chs[..k]).frames) > Depth(base)
    ensures Over(Run(p, s, chs).frames, base)
    decreases |chs|
  {
    if chs != [] {
      var n := |chs| - 1;
      forall k | 0 <= k <= n ensures Depth(Run(p, s, chs[..n][..k]).frames) > Depth(base) {
        assert chs[..n][..k] == chs[..k];
      }
      StaysOver(p, s, base, chs[..n]);
      var t := Run(p, s, chs[..n]);
      StepOver(p, t, base, chs[n]);
      assert chs[..|chs|] == chs;
    }
  }

  /** The first time the stack is no deeper than base. */
  ghost predicate FirstBack(p: Program, s: State, base: Frames, chs: seq<Choice>) {
    && (forall k :: 0 <= k < |chs| ==> Depth(Run(p, s, chs[..k]).frames) > Depth(base))
    && Depth(Run(p, s, chs).frames) <= Depth(base)
  }

  lemma {:induction false} LastStep(p: Program, s: State, base: Frames, chs: seq<Choice>) returns (t: State)
    requires Over(s.frames, base) && FirstBack(p, s, base, chs)
    ensures chs != [] && t == Run(p, s, chs[..|chs| - 1]) && Over(t.frames, base) && t.frames.below == base
    ensures var i := Decode(p.memory, t.frames.pc).i;
            && i.Return? && i.words <= |t.frames.ops| && Run(p, s, chs).frames == Leave(t.frames, i.words)
            && t.status == Run(p, s, chs).status == Running && t.world == Run(p, s, chs).world
  {
    OverIsDeeper(s.frames, base);
    var n := |chs| - 1;
    t := Run(p, s, chs[..n]);
    forall k | 0 <= k <= n ensures Depth(Run(p, s, chs[..n][..k]).frames) > Depth(base) {
      assert chs[..n][..k] == chs[..k];
    }
    StaysOver(p, s, base, chs[..n]);
    StepOver(p, t, base, chs[n]);
    if Over(Step(p, t, chs[n]).frames, base) {
      OverIsDeeper(Step(p, t, chs[n]).frames, base);
    }
  }

  /** Between a call and its return the frames below are untouched: when, for the first time, the
    * stack is no deeper than base, it is base with at most two words of result. This holds of every
    * program, certified or not.
    */
  lemma {:induction false} Balanced(p: Program, s: State, base: Frames, chs: seq<Choice>) returns (ws: seq<Word>)
    requires Over(s.frames, base) && FirstBack(p, s, base, chs)
    ensures |ws| <= 2 && Run(p, s, chs).frames == PushOps(base, ws) && Run(p, s, chs).status == Running
  {
    var t := LastStep(p, s, base, chs);
    Lengths(p.memory, t.frames.pc);
    ws := t.frames.ops[|t.frames.ops| - Decode(p.memory, t.frames.pc).i.words..];
  }

  /** The method whose frame lies directly on base. */
  ghost function MethodOver(cert: Certificate, fs: Frames, base: Frames): Option<Method>
    requires Over(fs, base)
  {
    if Caller(fs, base).pc in cert then Some(cert[Caller(fs, base).pc].m) else None
  }

  lemma {:induction false} StepKeepsMethod(p: Program, cert: Certificate, exact: bool, s: State, base: Frames,
                                           ch: Choice)
    requires Certified(p, cert) && Inv(p, cert, exact, s) && Over(s.frames, base) && Over(Step(p, s, ch).frames, base)
    ensures MethodOver(cert, Step(p, s, ch).frames, base) == MethodOver(cert, s.frames, base)
  {
    if s.status == Running && Fit(p, s) {
      var f := Decode(p.memory, s.frames.pc);
      assert Sound(p, cert, s.frames.pc);
      if IsReference(f.i) {
        ReferenceKeepsMethod(p, cert, exact, s, f, base, ch);
      } else if f.i.Return? {
        ReturnKeepsMethod(cert, s.frames, base, f.i.words);
      } else {
        OwnFrameKeepsBelow(p, s, f, ch);
        OwnFrameKeepsMethod(p, cert, s, f, ch);
      }
    }
  }

  lemma {:induction false} ReturnKeepsMethod(cert: Certificate, fs: Frames, base: Frames, n: nat)
    requires fs.Frame? && n <= |fs.ops| && Over(fs, base) && Over(Leave(fs, n), base)
    ensures MethodOver(cert, Leave(fs, n), base) == MethodOver(cert, fs, base)
  {
    if fs.below == base {
      OverIsDeeper(Leave(fs, n), base);
      DepthOfPush(base, fs.ops[|fs.ops| - n..]);
    } else {
      SameTop(cert, fs.below, Leave(fs, n), base);
    }
  }

  lemma {:induction false} SameTop(cert: Certificate, fs: Frames, gs: Frames, base: Frames)
    requires Over(fs, base) && gs.Frame? && gs.below == fs.below
    requires gs.pc == fs.pc || (gs.pc in cert && fs.pc in cert && cert[gs.pc].m == cert[fs.pc].m)
    ensures Over(gs, base) && MethodOver(cert, gs, base) == MethodOver(cert, fs, base)
  {
  }

  lemma {:induction false} OwnFrameKeepsMethod(p: Program, cert: Certificate, s: State, f: Fetched, ch: Choice)
    requires s.status == Running && s.frames.Frame? && Fit(p, s) && f == Decode(p.memory, s.frames.pc)
    requires s.frames.pc in cert && Sound(p, cert, s.frames.pc) && cert[s.frames.pc].cls == s.frames.cls
    requires !IsReference(f.i) && !f.i.Return?
    ensures var t := Execute(p, s, f, ch);
            t.frames.Frame? && t.frames.pc in cert && cert[t.frames.pc].m == cert[s.frames.pc].m
  {
  }

  lemma {:induction false} ReferenceKeepsMethod(p: Program, cert: Certificate, exact: bool, s: State, f: Fetched,
                                                base: Frames, ch: Choice)
    requires Certified(p, cert) && Inv(p, cert, exact, s) && s.status == Running && Over(s.frames, base)
    requires f == Decode(p.memory, s.frames.pc) && IsReference(f.i) && ReferenceFits(p, s, f.i)
    requires Over(Reference(p, s, f, ch).frames, base)
    ensures MethodOver(cert, Reference(p, s, f, ch).frames, base) == MethodOver(cert, s.frames, base)
  {
    var fs, gs := s.frames, Reference(p, s, f, ch).frames;
    assert Sound(p, cert, fs.pc);
    ReferenceShape(p, cert, s, f, ch);
    var hs := if gs.below == fs.below then gs else gs.below;
    SameTop(cert, fs, hs, base);
    OverIsDeeper(hs, base);
  }

  /** A reference goes on in the same method, at once or below a new frame. */
  lemma {:induction false} ReferenceShape(p: Program, cert: Certificate, s: State, f: Fetched, ch: Choice)
    requires s.frames.Frame? && IsReference(f.i) && ReferenceFits(p, s, f.i) && s.frames.pc in cert
             && IsAddress(s.frames.pc)
    requires f == Decode(p.memory, s.frames.pc) && Sound(p, cert, s.frames.pc) && cert[s.frames.pc].cls == s.frames.cls
    ensures var fs, gs := s.frames, Reference(p, s, f, ch).frames;
            && gs.Frame?
            && var hs := if gs.below == fs.below then gs else gs.below;
               hs.Frame? && hs.below == fs.below && hs.pc in cert && cert[hs.pc].m == cert[fs.pc].m
  {
    var k := p.ClassAt(s.frames.cls);
    if Referred(k, f.i).Some? {
      var c := Referred(k, f.i).value;
      var t := LoadClass(s, c);
      if c !in t.world.flagged {
        InitializeShape(p, t, c, ch);
      } else if f.i.Invoke? {
        CallShape(p, t, k.calls[f.i.index], f.next, ch);
      }
    }
  }

  lemma {:induction false} InitializeShape(p: Program, s: State, c: Word, ch: Choice)
    requires s.frames.Frame? && InitializeFits(p, s, c)
    ensures var fs, gs := s.frames, Initialize(p, s, c, ch).frames;
            gs == fs || (gs.Frame? && gs.below.Frame? && gs.below.below == fs.below && gs.below.pc == fs.pc
              && gs.below != fs.below)
  {
    NotBelowItself(s.frames);
  }

  lemma {:induction false} CallShape(p: Program, s: State, r: MethodRef, next: int, ch: Choice)
    requires s.frames.Frame? && CallFits(s, r)
    ensures var fs, gs := s.frames, Call(p, s, r, next, ch).frames;
            || gs == fs
            || (gs.Frame? && gs.below == fs.below && gs.pc == next)
            || (gs.Frame? && gs.below.Frame? && gs.below.below == fs.below && gs.below.pc == next
              && gs.below != fs.below)
  {
    NotBelowItself(s.frames);
  }

  lemma {:induction false} NotBelowItself(fs: Frames)
    requires fs.Frame?
    ensures forall gs: Frames :: gs.Frame? && gs.below == fs.below ==> gs != fs.below
  {
    forall gs: Frames | gs.Frame? && gs.below == fs.below ensures gs != fs.below {
      assert Depth(gs) == 1 + Depth(fs.below);
    }
  }

  lemma {:induction false} RunKeepsMethod(p: Program, cert: Certificate, exact: bool, s: State, base: Frames,
                                          chs: seq<Choice>)
    requires Certified(p, cert) && Inv(p, cert, exact, s) && (exact ==> p.nativesPop || NativesTakeNothing(p))
    requires Over(s.frames, base) && forall k :: 0 <= k <= |chs| ==> Depth(Run(p, s, chs[..k]).frames) > Depth(base)
    requires HarmlessRun(p, cert, s, chs)
    ensures Over(Run(p, s, chs).frames, base)
            && MethodOver(cert, Run(p, s, chs).frames, base) == MethodOver(cert, s.frames, base)
    decreases |chs|
  {
    StaysOver(p, s, base, chs);
    if chs != [] {
      var n := |chs| - 1;
      forall k | 0 <= k <= n ensures Depth(Run(p, s, chs[..n][..k]).frames) > Depth(base) {
        assert chs[..n][..k] == chs[..k];
      }
      RunKeepsMethod(p, cert, exact, s, base, chs[..n]);
      RunKeepsInv(p, cert, exact, s, chs[..n]);
      StepKeepsMethod(p, cert, exact, Run(p, s, chs[..n]), base, chs[n]);
    }
  }

  /** The words a certified method brings back are those of its own descriptor. */
  lemma {:induction false} BalancedResults(p: Program, cert: Certificate, exact: bool, s: State, base: Frames,
                                           chs: seq<Choice>) returns (ws: seq<Word>)
    requires Certified(p, cert) && Inv(p, cert, exact, s) && (exact ==> p.nativesPop || NativesTakeNothing(p))
    requires s.status == Running && Over(s.frames, base) && s.frames.below == base && FirstBack(p, s, base, chs)
    requires HarmlessRun(p, cert, s, chs)
    ensures s.frames.pc in cert && |ws| == cert[s.frames.pc].m.results
    ensures Run(p, s, chs).frames == PushOps(base, ws) && Run(p, s, chs).status == Running
  {
    var t := LastStep(p, s, base, chs);
    var n := |chs| - 1;
    forall k | 0 <= k <= n ensures Depth(Run(p, s, chs[..n][..k]).frames) > Depth(base) {
      assert chs[..n][..k] == chs[..k];
    }
    RunKeepsMethod(p, cert, exact, s, base, chs[..n]);
    RunKeepsInv(p, cert, exact, s, chs[..n]);
    assert Sound(p, cert, t.frames.pc);
    ws := t.frames.ops[|t.frames.ops| - Decode(p.memory, t.frames.pc).i.words..];
  }
}
