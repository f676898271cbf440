/** Running a program on the word array, for any number of instructions. */
module Execution {
  import opened Words
  import opened Bytecode
  import opened FrameMachine
  import opened StackLayout
  import opened Certificates
  import opened Runs
  import opened StackUse
  import opened Interpreter
  import opened StringPool

  // ------------------------------------------------------------ the start and the loop

  lemma {:induction false} StartInv(p: Program, cert: Certificate, exact: bool, c: Word, m: Method)
    requires Certified(p, cert) && c in p.classes && Enterable(cert, m, c)
    ensures Inv(p, cert, exact, Start(c, m.code.value))
  {
    assert FramesSound(cert, {c}, exact, Start(c, m.code.value).frames, 0);
  }

  lemma {:induction false} InitializeKeepsBottom(p: Program, s: State, c: Word, ch: Choice)
    requires s.frames.Frame? && InitializeFits(p, s, c)
    ensures Initialize(p, s, c, ch).frames.Frame? && BottomOps(Initialize(p, s, c, ch).frames) == BottomOps(s.frames)
  {
  }

  /** The state from which the first instruction runs is certified, if what is found for the main class
    * while only that class is loaded is good.
    */
  lemma {:induction false} StartIsCertified(p: Program, cert: Certificate, exact: bool, c: Word, m: Method, ch: Choice)
    requires Certified(p, cert) && c in p.classes && Enterable(cert, m, c)
    requires GoodConstructor(cert, StaticConstructor(p, {c}, c), c)
    ensures var s := Start(c, m.code.value);
            && InitializeFits(p, s, c)
            && var t := Initialize(p, s, c, ch);
               && Inv(p, cert, exact, t) && c in t.world.flagged && BottomSmall(t)
               && Stacked(cert, t.frames) && Excess(cert, t.frames, 0) == 0
  {
    var s := Start(c, m.code.value);
    StartInv(p, cert, exact, c, m);
    InitializeKeepsInv(p, cert, exact, s, c, ch);
    InitializeKeepsBottom(p, s, c, ch);
    InitializeExcess(p, cert, s, c, ch);
    DepthWithinMaxStack(p, cert, m.code.value.entry);
  }

  /** The frames of every state within n instructions fit this many words. */
  ghost predicate RoomFor(p: Program, s: State, n: nat, words: nat) {
    forall chs: seq<Choice> | |chs| <= n :: Size(Run(p, s, chs).frames) <= words
  }

  /** Whatever happens within n instructions, no bad constructor is run. */
  ghost predicate HarmlessFor(p: Program, cert: Certificate, s: State, n: nat) {
    forall chs: seq<Choice> | |chs| <= n :: HarmlessRun(p, cert, s, chs)
  }

  /** A check before the run is enough. */
  lemma {:induction false} PreparedFor(p: Program, cert: Certificate, exact: bool, ready: set<Word>, s: State, n: nat)
    requires Certified(p, cert) && Inv(p, cert, exact, s) && (exact ==> p.nativesPop || NativesTakeNothing(p))
    requires Prepared(p, cert, ready) && ready <= s.world.flagged
    ensures HarmlessFor(p, cert, s, n)
  {
    hide Certified, Inv, Prepared, HarmlessRun;
    forall chs: seq<Choice> | |chs| <= n ensures HarmlessRun(p, cert, s, chs) {
      PreparedRun(p, cert, exact, ready, s, chs);
    }
  }

  /** Nested calls of depth at most `depth`, with frames of at most `frameWords` words, have room in a
    * word array of depth times frameWords and the words that native calls leave.
    */
  lemma {:induction false} DepthGivesRoom(p: Program, cert: Certificate, s: State, n: nat, depth: nat, frameWords: nat,
                                          litter: nat)
    requires Certified(p, cert) && Inv(p, cert, false, s) && HarmlessFor(p, cert, s, n)
    requires BottomSmall(s) && Stacked(cert, s.frames) && s.status == Running
    requires FrameBound(cert, frameWords) && 1 <= depth
    requires forall chs: seq<Choice> | |chs| <= n ::
               Depth(Run(p, s, chs).frames) <= depth && Excess(cert, s.frames, 0) + LitterOf(p, cert, s, chs) <= litter
    ensures RoomFor(p, s, n, depth * frameWords + litter)
  {
    hide Certified, Inv, HarmlessRun, Stacked, FrameBound, Excess, LitterOf, Run, Size, Depth;
    forall chs: seq<Choice> | |chs| <= n ensures Size(Run(p, s, chs).frames) <= depth * frameWords + litter {
      forall k | 0 <= k <= |chs|
        ensures Depth(Run(p, s, chs[..k]).frames) <= depth
        ensures Excess(cert, s.frames, 0) + LitterOf(p, cert, s, chs[..k]) <= litter
      {
        assert |chs[..k]| <= n;
      }
      StoppedOrBounded(p, cert, s, chs, depth, frameWords, litter);
    }
  }

  lemma {:induction false} StoppedOrBounded(p: Program, cert: Certificate, s: State, chs: seq<Choice>, depth: nat,
                                            frameWords: nat, litter: nat)
    requires Certified(p, cert) && Inv(p, cert, false, s) && HarmlessRun(p, cert, s, chs)
    requires BottomSmall(s) && Stacked(cert, s.frames) && s.status == Running
    requires FrameBound(cert, frameWords) && 1 <= depth
    requires forall k :: 0 <= k <= |chs| ==> Depth(Run(p, s, chs[..k]).frames) <= depth
    requires forall k :: 0 <= k <= |chs| ==> Excess(cert, s.frames, 0) + LitterOf(p, cert, s, chs[..k]) <= litter
    ensures Size(Run(p, s, chs).frames) <= depth * frameWords + litter
    decreases |chs|
  {
    hide Certified, Inv, Harmless, Stacked, FrameBound, Excess, LitterOf, Step, Size, Depth;
    assert chs[..|chs|] == chs;
    if Run(p, s, chs).status == Running {
      DepthBound(p, cert, s, chs, frameWords, depth);
    } else {
      var n := |chs| - 1;
      forall k | 0 <= k <= n
        ensures Depth(Run(p, s, chs[..n][..k]).frames) <= depth
        ensures Excess(cert, s.frames, 0) + LitterOf(p, cert, s, chs[..n][..k]) <= litter
      {
        assert chs[..n][..k] == chs[..k];
      }
      StoppedOrBounded(p, cert, s, chs[..n], depth, frameWords, litter);
      StopKeepsFrames(p, Run(p, s, chs[..n]), chs[n]);
    }
  }

  lemma {:induction false} StopKeepsFrames(p: Program, s: State, ch: Choice)
    requires Step(p, s, ch).status != Running
    ensures Step(p, s, ch).frames == s.frames
  {
  }

  /** One more instruction of a run that started in s. */
  method Advance(m: Machine, address: Word, ghost cert: Certificate, ghost exact: bool, ghost s: State,
                 ghost chs: seq<Choice>, ghost n: nat, ghost base: Frames) returns (ghost ch: Choice)
    requires m.Valid() && m.View() == Run(m.p, s, chs) && Certified(m.p, cert) && Inv(m.p, cert, exact, s)
    requires (exact ==> NativesTakeNothing(m.p)) && HarmlessFor(m.p, cert, s, n)
    requires RoomFor(m.p, s, n, m.stack.Length) && |chs| < n
    modifies m, m.stack
    ensures m.Valid() && m.View() == Run(m.p, s, chs + [ch]) && ch.address == address
    ensures Over(Run(m.p, s, chs).frames, base) ==>
              forall i :: 0 <= i < Size(base) && i < m.stack.Length ==> m.stack[i] == old(m.stack[i])
  {
    RunKeepsInv(m.p, cert, exact, s, chs);
    HarmlessNext(m.p, cert, s, n, chs, Choice(address, _ => 0));
    CertifiedFits(m.p, cert, exact, m.View());
    RoomForOneMore(m.p, s, chs, n, m.stack.Length);
    if Over(m.frames, base) {
      OverIsAbove(m, base);
    }
    ch := m.Step(address);
    RunOneMore(m.p, s, chs, ch, base);
  }

  /** The dispatch loop for as many instructions as there are addresses for malloc to deliver: the word
    * array goes through the very states of the frame machine. While base lies untouched under the
    * frames, the words it occupies do not change.
    */
  method Execute(m: Machine, addresses: seq<Word>, ghost cert: Certificate, ghost exact: bool, ghost base: Frames)
    returns (ghost chs: seq<Choice>)
    requires m.Valid() && Certified(m.p, cert) && Inv(m.p, cert, exact, m.View())
    requires (exact ==> NativesTakeNothing(m.p)) && HarmlessFor(m.p, cert, m.View(), |addresses|)
    requires RoomFor(m.p, m.View(), |addresses|, m.stack.Length)
    modifies m, m.stack
    ensures m.Valid() && |chs| == |addresses| && m.View() == Run(m.p, old(m.View()), chs)
    ensures forall i :: 0 <= i < |chs| ==> chs[i].address == addresses[i]
    ensures StaysAllOver(m.p, old(m.View()), chs, base) ==>
              forall i :: 0 <= i < Size(base) && i < m.stack.Length ==> m.stack[i] == old(m.stack[i])
  {
    hide Step, Inv, Certified, HarmlessFor, RoomFor, Machine.Valid, Over, Size, Run, StaysAllOver;
    chs := [];
    ghost var s, mem := m.View(), m.stack[..];
    NothingRun(m.p, s);
    var i := 0;
    while i < |addresses|
      invariant i <= |addresses| && |chs| == i && m.Valid() && m.View() == Run(m.p, s, chs)
      invariant forall j :: 0 <= j < i ==> chs[j].address == addresses[j]
      invariant StaysAllOver(m.p, s, chs, base) ==> SameBelow(m, mem, Size(base))
    {
      ghost var ch := Advance(m, addresses[i], cert, exact, s, chs, |addresses|, base);
      RunOneMore(m.p, s, chs, ch, base);
      chs := chs + [ch];
      i := i + 1;
    }
  }

  /** The state in which the first instruction runs: the main class is initialised first. */
  ghost function Begun(p: Program, c: Word, main: Code, ch: Choice): State {
    if InitializeFits(p, Start(c, main), c) then Initialize(p, Start(c, main), c, ch) else Start(c, main)
  }

  /** run (src/core.c:173-1639) as a whole: the word array, the constructor of the main class, and as many
    * instructions as there are addresses for malloc to deliver.
    */
  method RunProgram(p: Program, strings: map<string, CString>, names: map<Word, seq<CString>>, base: int, words: nat,
                    c: Word, main: Method, addresses: seq<Word>, ghost cert: Certificate, ghost exact: bool)
    returns (m: Machine, ghost first: Choice, ghost chs: seq<Choice>)
    requires InternedNames(p, strings, names)
    requires IsAddress(p.exitPc) && p.memory(p.exitPc) == 254 && !p.nativesPop
    requires Certified(p, cert) && c in p.classes && Enterable(cert, main, c) && (exact ==> NativesTakeNothing(p))
    requires GoodConstructor(cert, StaticConstructor(p, {c}, c), c)
    requires 0 <= base && base + 4 * words <= TWO_32 && main.code.value.maxLocals + 4 <= words
    requires forall ch :: HarmlessFor(p, cert, Begun(p, c, main.code.value, ch), |addresses|)
    requires forall ch :: RoomFor(p, Begun(p, c, main.code.value, ch), |addresses|, words)
    ensures m.Valid() && m.p == p && |chs| == |addresses|
    ensures m.View() == Run(p, Begun(p, c, main.code.value, first), chs)
    ensures forall i :: 0 <= i < |chs| ==> chs[i].address == addresses[i]
  {
    hide Step, Certified, HarmlessFor, RoomFor, Initialize, InitializeFits, Machine.Valid, InternedNames, Inv,
      GoodConstructor;
    var code := main.code.value;
    m := new Machine(p, strings, names, base, words, c, code);
    EntryIsAddress(p, cert, code.entry);
    StartIsCertified(p, cert, exact, c, main, Choice(0, m.NoJunk));
    RoomAtOnce(p, Begun(p, c, code, Choice(0, m.NoJunk)), |addresses|, words);
    ghost var junk := m.InitializeStatic(c);
    first := Choice(0, junk);
    StartIsCertified(p, cert, exact, c, main, first);
    assert m.View() == Begun(p, c, code, first);
    chs := Execute(m, addresses, cert, exact, Bottom([]));
  }

  lemma {:induction false} EntryIsAddress(p: Program, cert: Certificate, pc: int)
    requires Certified(p, cert) && pc in cert
    ensures 0 <= pc < TWO_32
  {
    assert Sound(p, cert, pc);
  }

  lemma {:induction false} RoomAtOnce(p: Program, s: State, n: nat, words: nat)
    requires RoomFor(p, s, n, words)
    ensures Size(s.frames) <= words
  {
    assert Size(Run(p, s, []).frames) <= words;
  }

  ghost predicate StaysAllOver(p: Program, s: State, chs: seq<Choice>, base: Frames) {
    forall k :: 0 <= k < |chs| ==> Over(Run(p, s, chs[..k]).frames, base)
  }

  ghost predicate SameBelow(m: Machine, mem: seq<Word>, n: nat)
    reads m.stack
  {
    forall i :: 0 <= i < n && i < m.stack.Length && i < |mem| ==> m.stack[i] == mem[i]
  }

  lemma {:induction false} NothingRun(p: Program, s: State)
    ensures Run(p, s, []) == s
  {
  }

  lemma {:induction false} RunOneMore(p: Program, s: State, chs: seq<Choice>, ch: Choice, base: Frames)
    ensures Run(p, s, chs + [ch]) == Step(p, Run(p, s, chs), ch)
    ensures StaysAllOver(p, s, chs + [ch], base) ==> StaysAllOver(p, s, chs, base) && Over(Run(p, s, chs).frames, base)
  {
    assert (chs + [ch])[..|chs|] == chs;
    if StaysAllOver(p, s, chs + [ch], base) {
      forall k | 0 <= k < |chs| ensures Over(Run(p, s, chs[..k]).frames, base) {
        assert (chs + [ch])[..k] == chs[..k];
      }
    }
  }

  lemma {:induction false} HarmlessNext(p: Program, cert: Certificate, s: State, n: nat, chs: seq<Choice>, ch: Choice)
    requires HarmlessFor(p, cert, s, n) && |chs| < n
    ensures HarmlessRun(p, cert, s, chs) && Harmless(p, cert, Run(p, s, chs))
  {
    hide Harmless, Run;
    assert (chs + [ch])[..|chs|] == chs;
    assert HarmlessRun(p, cert, s, chs + [ch]);
  }

  lemma {:induction false} RoomForOneMore(p: Program, s: State, chs: seq<Choice>, n: nat, words: nat)
    requires RoomFor(p, s, n, words) && |chs| < n
    ensures forall ch :: Size(Step(p, Run(p, s, chs), ch).frames) <= words
  {
    forall ch ensures Size(Step(p, Run(p, s, chs), ch).frames) <= words {
      assert (chs + [ch])[..|chs|] == chs;
      assert Size(Run(p, s, chs + [ch]).frames) <= words;
    }
  }

  lemma {:induction false} OverIsAbove(m: Machine, base: Frames)
    requires m.Valid() && Over(m.frames, base)
    ensures Size(base) <= m.frame
  {
    RepSize(m.base, m.p.exitPc, m.stack[..], m.Registers().(pc := m.Home(m.frames)), m.frames);
    OverIsLarger(m.frames, base);
  }

  lemma {:induction false} OverIsLarger(fs: Frames, base: Frames)
    requires Over(fs, base)
    ensures Size(base) <= Size(fs.below)
  {
    if fs.below != base { OverIsLarger(fs.below, base); }
  }
}
