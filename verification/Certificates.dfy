/** What the interpreter takes for granted about bytecode, and never checks: a certificate gives each
  * instruction address its method, class and operand depth (the structural constraints of
  * section 4.9.2 of the JVMS). Certified programs keep every step within its own frame. What a certificate
  * cannot know is what get_static_constructor finds, since that depends on the classes loaded so far; the
  * predicate Harmless asks it of the state in which it is called.
  */
module Certificates {
  import opened Words
  import opened Bytecode
  import opened Wrappers
  import opened FrameMachine
  import ArrayHeap

  /** An instruction of method m with code `code`, run in class cls at this operand depth. */
  datatype Point = Point(m: Method, code: Code, cls: Word, depth: nat)

  type Certificate = map<int, Point>

  ghost predicate Goes(cert: Certificate, pc: int, from: Point, depth: int) {
    depth >= 0 && pc in cert && cert[pc] == Point(from.m, from.code, from.cls, depth)
  }

  /** The method's code may be entered: its first instruction starts with no operands. */
  ghost predicate Enterable(cert: Certificate, m: Method, cls: Word) {
    && m.code.Some? && m.nargs <= m.code.value.maxLocals
    && m.code.value.entry in cert && cert[m.code.value.entry] == Point(m, m.code.value, cls, 0)
  }

  /** A constructor that takes nothing from the operand stack it interrupts and leaves nothing there. A
    * method named <clinit> is one; the last method, which stands in when there is none, need not be.
    */
  ghost predicate GoodConstructor(cert: Certificate, k: Constructor, cls: Word) {
    match k
    case NoConstructor => true
    case Unset => false
    case Runs(m) => m.nargs == 0 && m.results == 0 && Enterable(cert, m, cls)
  }

  /** The class that the next instruction refers to, if it is still to be initialised. */
  function Pending(p: Program, s: State): Option<Word> {
    if s.status == Running && s.frames.Frame? then
      var c := Referred(p.ClassAt(s.frames.cls), Decode(p.memory, s.frames.pc).i);
      if c.Some? && c.value !in s.world.flagged then c else None
    else None
  }

  /** If the next instruction initialises a class, what get_static_constructor finds for it, with the
    * classes that are loaded then, is good.
    */
  ghost predicate Harmless(p: Program, cert: Certificate, s: State) {
    var c := Pending(p, s);
    c.Some? ==> GoodConstructor(cert, StaticConstructor(p, s.world.loaded + {c.value}, c.value), c.value)
  }

  /** So it is at every step of this run. */
  ghost predicate HarmlessRun(p: Program, cert: Certificate, s: State, chs: seq<Choice>) {
    chs == [] ||
    (HarmlessRun(p, cert, s, chs[..|chs| - 1]) && Harmless(p, cert, Run(p, s, chs[..|chs| - 1])))
  }

  /** The instruction at pc finds its operands, and leaves what its successors expect. */
  ghost predicate Sound(p: Program, cert: Certificate, pc: int)
    requires pc in cert
  {
    var at := cert[pc];
    var f := Decode(p.memory, pc);
    var k := p.ClassAt(at.cls);
    && IsAddress(pc) && at.depth <= at.code.maxStack && at.cls in p.classes
    && !f.i.Floating?
    && Fits(f.i, at.code.maxLocals, at.depth)
    && (IsStraight(f.i) || IsArray(f.i) ==> Goes(cert, f.next, at, at.depth - Needs(f.i) + Leaves(f.i)))
    && (IsJump(f.i) ==> forall ops: seq<Word> | Needs(f.i) <= |ops| ::
          Goes(cert, JumpTo(p.memory, pc, f, ops), at, at.depth - Needs(f.i)))
    && (f.i.Return? ==> f.i.words == at.m.results)
    && (Referred(k, f.i).Some? ==> Referred(k, f.i).value in p.classes)
    && match f.i
       case GetStatic(n) => n in k.fields ==> Goes(cert, f.next, at, at.depth + FieldWords(k.fields[n].signature))
       case PutStatic(n) => n in k.fields ==> Goes(cert, f.next, at, at.depth - FieldWords(k.fields[n].signature))
       case Invoke(n) => n in k.calls ==> SoundCall(cert, at, k.calls[n], f.next)
       case _ => true
  }

  ghost predicate SoundCall(cert: Certificate, at: Point, r: MethodRef, next: int) {
    && Goes(cert, next, at, at.depth - r.target.nargs + r.target.results)
    && r.target.nargs <= at.depth
    && if r.target.native then r.target.results == 0
       else r.target.code.None? || Enterable(cert, r.target, r.cls)
  }

  ghost predicate Certified(p: Program, cert: Certificate) {
    forall pc {:trigger Sound(p, cert, pc)} | pc in cert :: Sound(p, cert, pc)
  }

  /** Native methods without arguments are the ones that leave the operand stack as the JVMS says. */
  ghost predicate NativesTakeNothing(p: Program) {
    forall c, n | c in p.classes && n in p.classes[c].calls && p.classes[c].calls[n].target.native ::
      p.classes[c].calls[n].target.nargs == 0
  }

  // ---------------------------------------------------------------- the invariant

  /** A frame that is due `results` words from the frame above: its locals are all there, and its
    * operands are at least as many as the certificate says, or exactly as many.
    */
  ghost predicate FrameSound(cert: Certificate, flagged: set<Word>, exact: bool, fs: Frames, results: nat)
    requires fs.Frame?
  {
    && fs.pc in cert && cert[fs.pc].cls == fs.cls && |fs.locals| == cert[fs.pc].code.maxLocals
    && fs.cls in flagged
    && |fs.ops| + results >= cert[fs.pc].depth
    && (exact ==> |fs.ops| + results == cert[fs.pc].depth)
  }

  ghost predicate FramesSound(cert: Certificate, flagged: set<Word>, exact: bool, fs: Frames, results: nat)
    decreases fs
  {
    fs.Frame? ==>
      FrameSound(cert, flagged, exact, fs, results)
        && FramesSound(cert, flagged, exact, fs.below, cert[fs.pc].m.results)
  }

  ghost predicate WorldSound(p: Program, w: World) { w.flagged <= w.loaded <= p.classes.Keys }

  ghost predicate Inv(p: Program, cert: Certificate, exact: bool, s: State) {
    s.status == Running ==> WorldSound(p, s.world) && FramesSound(cert, s.world.flagged, exact, s.frames, 0)
  }

  lemma {:induction false} MoreFlagged(cert: Certificate, flagged: set<Word>, more: set<Word>, exact: bool, fs: Frames,
                                       results: nat)
    requires FramesSound(cert, flagged, exact, fs, results) && flagged <= more
    ensures FramesSound(cert, more, exact, fs, results)
    decreases fs
  {
    if fs.Frame? { MoreFlagged(cert, flagged, more, exact, fs.below, cert[fs.pc].m.results); }
  }

  /** The top frame goes on at a point that expects no more operands than it has. */
  lemma {:induction false} TopGoesOn(cert: Certificate, flagged: set<Word>, exact: bool, fs: Frames, gs: Frames,
                                     depth: int)
    requires fs.Frame? && gs.Frame? && FramesSound(cert, flagged, exact, fs, 0)
    requires gs.below == fs.below && gs.cls == fs.cls && |gs.locals| == |fs.locals|
    requires Goes(cert, gs.pc, cert[fs.pc], depth)
    requires depth <= cert[fs.pc].depth + |gs.ops| - |fs.ops|
    requires exact ==> depth == cert[fs.pc].depth + |gs.ops| - |fs.ops|
    ensures FramesSound(cert, flagged, exact, gs, 0)
  {
  }

  /** Loading more classes can only bring "<clinit>" into the pool, never choose another method. */
  lemma {:induction false} ConstructorStable(p: Program, w: World, cls: Word)
    requires w.loaded <= p.classes.Keys
    ensures StaticConstructor(p, w.loaded, cls) == NoConstructor
            || StaticConstructor(p, w.loaded, cls) == StaticConstructor(p, p.classes.Keys, cls)
  {
    if ClinitInterned(p, w.loaded) {
      var c :| c in w.loaded && p.ClassAt(c).mentionsClinit;
      assert c in p.classes.Keys;
    }
  }

  /** The classes that instructions refer to, but for those in `ready`, have good constructors even with
    * every class loaded.
    */
  ghost predicate Prepared(p: Program, cert: Certificate, ready: set<Word>) {
    forall pc | pc in cert :: PreparedAt(p, cert, ready, pc)
  }

  ghost predicate PreparedAt(p: Program, cert: Certificate, ready: set<Word>, pc: int)
    requires pc in cert
  {
    var c := Referred(p.ClassAt(cert[pc].cls), Decode(p.memory, pc).i);
    c.Some? && c.value !in ready ==> GoodConstructor(cert, StaticConstructor(p, p.classes.Keys, c.value), c.value)
  }

  /** A check before the run is enough for every step that finds the classes in `ready` flagged. */
  lemma {:induction false} PreparedIsHarmless(p: Program, cert: Certificate, exact: bool, ready: set<Word>, s: State)
    requires Certified(p, cert) && Inv(p, cert, exact, s) && Prepared(p, cert, ready) && ready <= s.world.flagged
    ensures Harmless(p, cert, s)
  {
    var c := Pending(p, s);
    if c.Some? {
      assert Sound(p, cert, s.frames.pc) && PreparedAt(p, cert, ready, s.frames.pc);
      ConstructorStable(p, LoadClass(s, c.value).world, c.value);
    }
  }

  // ---------------------------------------------------------------- no step goes wrong

  /** In a certified program the interpreter never runs an instruction whose operands, locals or
    * arguments are missing, although it tests none of this.
    */
  lemma {:induction false} CertifiedFits(p: Program, cert: Certificate, exact: bool, s: State)
    requires Certified(p, cert) && Inv(p, cert, exact, s) && Harmless(p, cert, s)
    ensures Fit(p, s)
  {
    if s.status == Running && s.frames.Frame? {
      var pc := s.frames.pc;
      assert Sound(p, cert, pc);
      var f := Decode(p.memory, pc);
      if IsReference(f.i) { ReferenceFitsCertified(p, cert, exact, s, f); }
    }
  }

  lemma {:induction false} ReferenceFitsCertified(p: Program, cert: Certificate, exact: bool, s: State, f: Fetched)
    requires Certified(p, cert) && Inv(p, cert, exact, s) && s.status == Running && s.frames.Frame?
             && Harmless(p, cert, s)
    requires f == Decode(p.memory, s.frames.pc) && IsReference(f.i)
    ensures ReferenceFits(p, s, f.i)
  {
    assert Sound(p, cert, s.frames.pc);
    var c := Referred(p.ClassAt(s.frames.cls), f.i);
    if c.Some? && c.value !in s.world.flagged {
      assert LoadClass(s, c.value).world.loaded == s.world.loaded + {c.value};
    }
  }

  // ---------------------------------------------------------------- preservation

  /** A step of a certified program leads to a state that is certified again, if the constructor it may run
    * is good. With `exact` the operand depth is exactly the certificate's; this needs native methods that take
    * nothing, or pop.
    */
  lemma {:induction false} StepKeepsInv(p: Program, cert: Certificate, exact: bool, s: State, ch: Choice)
    requires Certified(p, cert) && Inv(p, cert, exact, s) && (exact ==> p.nativesPop || NativesTakeNothing(p))
    requires Harmless(p, cert, s)
    ensures Inv(p, cert, exact, Step(p, s, ch))
  {
    CertifiedFits(p, cert, exact, s);
    if s.status == Running && s.frames.Frame? {
      var f := Decode(p.memory, s.frames.pc);
      if IsReference(f.i) {
        ReferenceKeepsInv(p, cert, exact, s, f, ch);
      } else if f.i.Return? {
        ReturnKeepsInv(p, cert, exact, s, f, ch);
      } else {
        OwnFrameKeepsInv(p, cert, exact, s, f, ch);
      }
    }
  }

  lemma {:induction false} ReturnKeepsInv(p: Program, cert: Certificate, exact: bool, s: State, f: Fetched, ch: Choice)
    requires Certified(p, cert) && Inv(p, cert, exact, s) && s.status == Running && s.frames.Frame? && Fit(p, s)
    requires f == Decode(p.memory, s.frames.pc) && f.i.Return?
    ensures Inv(p, cert, exact, Execute(p, s, f, ch))
  {
    assert Sound(p, cert, s.frames.pc);
    ResultsArrive(cert, s.world.flagged, exact, s.frames, f.i.words);
  }

  lemma {:induction false} ResultsArrive(cert: Certificate, flagged: set<Word>, exact: bool, fs: Frames, n: nat)
    requires fs.Frame? && FramesSound(cert, flagged, exact, fs, 0) && n == cert[fs.pc].m.results && n <= |fs.ops|
    ensures FramesSound(cert, flagged, exact, Leave(fs, n), 0)
  {
  }

  lemma {:induction false} OwnStepShape(p: Program, s: State, f: Fetched, ch: Choice)
    requires s.status == Running && s.frames.Frame? && Fit(p, s) && f == Decode(p.memory, s.frames.pc)
    requires !IsReference(f.i) && !f.i.Return?
    ensures var fs, t := s.frames, Execute(p, s, f, ch);
            && t.world.flagged == s.world.flagged && t.world.loaded == s.world.loaded
            && t.frames.Frame? && t.frames.below == fs.below && t.frames.cls == fs.cls
              && |t.frames.locals| == |fs.locals|
            && (t.status == Running ==>
                  && (IsStraight(f.i) || IsArray(f.i) || IsJump(f.i))
                  && |t.frames.ops| == |fs.ops| - Needs(f.i) + Leaves(f.i)
                  && t.frames.pc == if IsJump(f.i) then JumpTo(p.memory, fs.pc, f, fs.ops) else f.next)
  {
    hide JumpTo, Straight, Arrays;
    if IsArray(f.i) {
      ArraysShape(s, f, ch);
    }
  }

  lemma {:induction false} ArraysShape(s: State, f: Fetched, ch: Choice)
    requires s.status == Running && s.frames.Frame? && IsArray(f.i) && Needs(f.i) <= |s.frames.ops|
    ensures var fs, t := s.frames, Arrays(s, f, ch);
            && t.world.flagged == s.world.flagged && t.world.loaded == s.world.loaded
            && t.frames.Frame? && t.frames.below == fs.below && t.frames.cls == fs.cls && t.frames.locals == fs.locals
            && (t.status == Running ==> |t.frames.ops| == |fs.ops| - Needs(f.i) + Leaves(f.i) && t.frames.pc == f.next)
  {
    hide FindElement, Malloc, ArrayHeap.ElementOf, ArrayHeap.LoadWord, ArrayHeap.LoadPair, ArrayHeap.StoreWord;
    hide ArrayHeap.StorePair, ArrayHeap.NewArray, ArrayHeap.Holds;
  }

  lemma {:induction false} OwnFrameKeepsInv(p: Program, cert: Certificate, exact: bool, s: State, f: Fetched,
                                            ch: Choice)
    requires Certified(p, cert) && Inv(p, cert, exact, s) && s.status == Running && s.frames.Frame? && Fit(p, s)
    requires f == Decode(p.memory, s.frames.pc) && !IsReference(f.i) && !f.i.Return?
    ensures Inv(p, cert, exact, Execute(p, s, f, ch))
  {
    hide Straight, JumpTo, Arrays;
    assert Sound(p, cert, s.frames.pc);
    var t := Execute(p, s, f, ch);
    OwnStepShape(p, s, f, ch);
    if t.status == Running {
      TopGoesOn(cert, s.world.flagged, exact, s.frames, t.frames, cert[s.frames.pc].depth - Needs(f.i) + Leaves(f.i));
    }
  }

  lemma {:induction false} ReferenceKeepsInv(p: Program, cert: Certificate, exact: bool, s: State, f: Fetched,
                                             ch: Choice)
    requires Certified(p, cert) && Inv(p, cert, exact, s) && s.status == Running && s.frames.Frame?
             && Harmless(p, cert, s)
    requires exact ==> p.nativesPop || NativesTakeNothing(p)
    requires f == Decode(p.memory, s.frames.pc) && IsReference(f.i) && ReferenceFits(p, s, f.i)
    ensures Inv(p, cert, exact, Reference(p, s, f, ch))
  {
    assert Sound(p, cert, s.frames.pc);
    var k, at := p.ClassAt(s.frames.cls), cert[s.frames.pc];
    if Referred(k, f.i).Some? {
      var c := Referred(k, f.i).value;
      var t := LoadClass(s, c);
      if c !in t.world.flagged {
        assert t.world.loaded == s.world.loaded + {c};
        InitializeKeepsInv(p, cert, exact, t, c, ch);
      } else {
        match f.i
        case GetStatic(n) => GetKeepsInv(p, cert, exact, t, k.fields[n], f.next);
        case PutStatic(n) => PutKeepsInv(p, cert, exact, t, k.fields[n], f.next);
        case Invoke(n) => CallKeepsInv(p, cert, exact, t, k.calls[n], f.next, ch);
      }
    }
  }

  lemma {:induction false} GetKeepsInv(p: Program, cert: Certificate, exact: bool, s: State, r: FieldRef, next: int)
    requires s.frames.Frame? && s.status == Running && Inv(p, cert, exact, s)
    requires Goes(cert, next, cert[s.frames.pc], cert[s.frames.pc].depth + FieldWords(r.signature))
    ensures Inv(p, cert, exact, Get(s, r, next))
  {
    if FieldWords(r.signature) != 0 {
      TopGoesOn(cert, s.world.flagged, exact, s.frames, Get(s, r, next).frames,
        cert[s.frames.pc].depth + FieldWords(r.signature));
    }
  }

  lemma {:induction false} PutKeepsInv(p: Program, cert: Certificate, exact: bool, s: State, r: FieldRef, next: int)
    requires s.frames.Frame? && s.status == Running && Inv(p, cert, exact, s)
             && FieldWords(r.signature) <= |s.frames.ops|
    requires Goes(cert, next, cert[s.frames.pc], cert[s.frames.pc].depth - FieldWords(r.signature))
    ensures Inv(p, cert, exact, Put(s, r, next))
  {
    if FieldWords(r.signature) != 0 {
      TopGoesOn(cert, s.world.flagged, exact, s.frames, Put(s, r, next).frames,
        cert[s.frames.pc].depth - FieldWords(r.signature));
    }
  }

  lemma {:induction false} InitializeKeepsInv(p: Program, cert: Certificate, exact: bool, s: State, c: Word, ch: Choice)
    requires s.frames.Frame? && InitializeFits(p, s, c) && s.status == Running && Inv(p, cert, exact, s)
    requires GoodConstructor(cert, StaticConstructor(p, s.world.loaded, c), c) && c in s.world.loaded
    ensures Inv(p, cert, exact, Initialize(p, s, c, ch))
  {
    MoreFlagged(cert, s.world.flagged, s.world.flagged + {c}, exact, s.frames, 0);
  }

  lemma {:induction false} CallKeepsInv(p: Program, cert: Certificate, exact: bool, s: State, r: MethodRef, next: int,
                                        ch: Choice)
    requires s.frames.Frame? && CallFits(s, r) && s.status == Running && Inv(p, cert, exact, s)
    requires SoundCall(cert, cert[s.frames.pc], r, next) && r.cls in s.world.flagged
    requires exact ==> p.nativesPop || (r.target.native ==> r.target.nargs == 0)
    ensures Inv(p, cert, exact, Call(p, s, r, next, ch))
  {
    var at, m := cert[s.frames.pc], r.target;
    if m.native && m.printed {
      TopGoesOn(cert, s.world.flagged, exact, s.frames, Call(p, s, r, next, ch).frames, at.depth - m.nargs);
    }
  }
}
