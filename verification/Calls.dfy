/** What a call and a class initialisation look like from the method that contains them. */
module Calls {
  import opened Words
  import opened Switches
  import opened Bytecode
  import opened Wrappers
  import opened FrameMachine
  import opened Certificates
  import opened Runs

  /** The method that the next instruction calls, when it is a call that opens a frame. */
  ghost function Called(p: Program, s: State): Option<MethodRef> {
    if s.status == Running && s.frames.Frame? && Fit(p, s) then
      var i := Decode(p.memory, s.frames.pc).i;
      var k := p.ClassAt(s.frames.cls);
      if i.Invoke? && i.index in k.calls && k.calls[i.index].cls in s.world.flagged
         && !k.calls[i.index].target.native && k.calls[i.index].target.code.Some? then Some(k.calls[i.index])
      else None
    else None
  }

  /** From invokestatic to the matching return, whatever is called or initialised in between: the
    * caller goes on behind the call with its class and locals, its operands less the arguments
    * plus the results, and all frames below it are as they were.
    */
  lemma {:induction false} CallReturns(p: Program, cert: Certificate, exact: bool, s: State, ch: Choice,
                                       after: seq<Choice>) returns (ws: seq<Word>)
    requires Certified(p, cert) && Inv(p, cert, exact, s) && (exact ==> p.nativesPop || NativesTakeNothing(p))
    requires Called(p, s).Some? && HarmlessRun(p, cert, Step(p, s, ch), after)
    requires forall k :: 0 <= k < |after| ==> Depth(Run(p, Step(p, s, ch), after[..k]).frames) > Depth(s.frames)
    requires Depth(Run(p, Step(p, s, ch), after).frames) <= Depth(s.frames)
    ensures var m := Called(p, s).value.target;
            && m.nargs <= |s.frames.ops| && |ws| == m.results
            && Run(p, Step(p, s, ch), after).frames
               == s.frames.(pc := s.frames.pc + 3, ops := Drop(s.frames.ops, m.nargs) + ws)
            && Run(p, Step(p, s, ch), after).status == Running
  {
    var m := Called(p, s).value.target;
    var t := Step(p, s, ch);
    var base := s.frames.(pc := s.frames.pc + 3, ops := Drop(s.frames.ops, m.nargs));
    Lengths(p.memory, s.frames.pc);
    assert t.frames.below == base && t.status == Running;
    StepKeepsInv(p, cert, exact, s, ch);
    assert Sound(p, cert, s.frames.pc);
    assert cert[t.frames.pc].m == m;
    ws := BalancedResults(p, cert, exact, t, base, after);
  }

  // ------------------------------------------------------------ class initialisation

  /** The constructor that a trigger runs, when it runs one. */
  function Chosen(p: Program, s: State): Constructor
    requires Triggered(p, s).Some?
  {
    var c := Triggered(p, s).value;
    StaticConstructor(p, s.world.loaded + {c}, c)
  }

  predicate RunsCode(k: Constructor) { k.Runs? && k.target.code.Some? }

  lemma {:induction false} TriggerEnters(p: Program, s: State, ch: Choice)
    requires Triggered(p, s).Some? && RunsCode(Chosen(p, s))
    ensures var n, t := Chosen(p, s).target.nargs, Step(p, s, ch);
            && n <= |s.frames.ops| && t.status == Running && t.frames.Frame? && t.frames.cls == Triggered(p, s).value
            && t.frames.below == s.frames.(ops := Drop(s.frames.ops, n))
  {
    var c := Triggered(p, s).value;
    assert LoadClass(s, c).world.loaded == s.world.loaded + {c};
  }

  /** The frame that triggers an initialisation is as it was while the constructor runs exactly when
    * the method found for it takes no arguments.
    */
  lemma {:induction false} TriggerKeepsFrame(p: Program, s: State, ch: Choice)
    requires Triggered(p, s).Some?
    ensures RunsCode(Chosen(p, s)) ==> (Step(p, s, ch).frames.Frame?
              && (Step(p, s, ch).frames.below == s.frames <==> Chosen(p, s).target.nargs == 0))
    ensures Chosen(p, s).NoConstructor? ==> Step(p, s, ch).status == Running && Step(p, s, ch).frames == s.frames
  {
    if RunsCode(Chosen(p, s)) {
      TriggerEnters(p, s, ch);
      var n, ops := Chosen(p, s).target.nargs, s.frames.ops;
      assert n == 0 ==> Drop(ops, n) == ops;
      assert n > 0 ==> |Drop(ops, n)| < |ops|;
    } else if Chosen(p, s).NoConstructor? {
      var c := Triggered(p, s).value;
      assert LoadClass(s, c).world.loaded == s.world.loaded + {c};
    }
  }

  /** Whatever method stands in as the constructor: when it returns, the interrupted frame has lost
    * the arguments taken and gained the results, so it is unchanged exactly when these are equal.
    */
  lemma {:induction false} InitialisationEffect(p: Program, s: State, ch: Choice, after: seq<Choice>)
    returns (ws: seq<Word>)
    requires Triggered(p, s).Some?
    requires RunsCode(Chosen(p, s))
    requires forall k :: 0 <= k < |after| ==> Depth(Run(p, Step(p, s, ch), after[..k]).frames) > Depth(s.frames)
    requires Depth(Run(p, Step(p, s, ch), after).frames) <= Depth(s.frames)
    ensures var n := Chosen(p, s).target.nargs;
            && n <= |s.frames.ops| && |ws| <= 2
            && Run(p, Step(p, s, ch), after).frames == s.frames.(ops := Drop(s.frames.ops, n) + ws)
            && (Run(p, Step(p, s, ch), after).frames == s.frames <==> ws == s.frames.ops[|s.frames.ops| - n..])
  {
    TriggerEnters(p, s, ch);
    var n := Chosen(p, s).target.nargs;
    ws := Balanced(p, Step(p, s, ch), s.frames.(ops := Drop(s.frames.ops, n)), after);
    SameTail(s.frames.ops, n, ws);
  }

  lemma {:induction false} SameTail(ops: seq<Word>, n: nat, ws: seq<Word>)
    requires n <= |ops|
    ensures Drop(ops, n) + ws == ops <==> ws == ops[|ops| - n..]
  {
    assert ops == Drop(ops, n) + ops[|ops| - n..];
    if Drop(ops, n) + ws == ops {
      assert ws == (Drop(ops, n) + ws)[|ops| - n..];
    }
  }

  /** In a certified program initialisation is transparent wherever the constructor found is good: the first
    * time the stack is as shallow as it was, every frame is exactly what it was at the trigger, the
    * instruction is about to run again, and this time it triggers nothing.
    */
  lemma {:induction false} InitialisationIsTransparent(p: Program, cert: Certificate, exact: bool, s: State,
                                                       ch: Choice, after: seq<Choice>)
    requires Certified(p, cert) && Inv(p, cert, exact, s) && (exact ==> p.nativesPop || NativesTakeNothing(p))
    requires Triggered(p, s).Some? && Harmless(p, cert, s) && HarmlessRun(p, cert, Step(p, s, ch), after)
    requires forall k :: 0 <= k < |after| ==> Depth(Run(p, Step(p, s, ch), after[..k]).frames) > Depth(s.frames)
    requires Depth(Run(p, Step(p, s, ch), after).frames) <= Depth(s.frames)
    ensures var t := Run(p, Step(p, s, ch), after);
            t.frames == s.frames && t.status == Running && Triggered(p, t) == None
  {
    var c := Triggered(p, s).value;
    var t := Step(p, s, ch);
    assert Sound(p, cert, s.frames.pc);
    assert LoadClass(s, c).world.loaded == s.world.loaded + {c};
    TriggerKeepsFrame(p, s, ch);
    StepKeepsInv(p, cert, exact, s, ch);
    TriggeredOnce(p, s, ch, after);
    if t.frames == s.frames {
      assert after == [] || Depth(Run(p, t, after[..0]).frames) > Depth(s.frames);
    } else {
      var ws := BalancedResults(p, cert, exact, t, s.frames, after);
      assert s.frames.ops + ws == s.frames.ops;
    }
  }

  /** The method get_static_constructor is meant to find. */
  function IntendedConstructor(k: Class): Constructor {
    var i := FirstNamed(k.methods, CLINIT, 0);
    if i < |k.methods| then Runs(k.methods[i]) else NoConstructor
  }

  /** It finds that method exactly when there is one or "<clinit>" is not yet in the string pool. */
  lemma {:induction false} ConstructorMeetsIntent(p: Program, loaded: set<Word>, c: Word)
    requires c in loaded && (IntendedConstructor(p.ClassAt(c)).Runs? ==> p.ClassAt(c).mentionsClinit)
    ensures StaticConstructor(p, loaded, c) == IntendedConstructor(p.ClassAt(c))
            <==> IntendedConstructor(p.ClassAt(c)).Runs? || !ClinitInterned(p, loaded)
  {
  }

  /** A class without <clinit> whose last method takes one argument. */
  function WithoutConstructor(): Program {
    var f := Method("f", "(I)V", 1, 0, false, false, Some(Code(0, 1, 100)));
    Program(a => if a == 0 then 178 else if a == 2 then 1 else 0, 200,
            map[1 := Class([], true, map[], map[], map[1 := FieldRef(2, 0, "I")], map[]),
                2 := Class([f], false, map[], map[], map[], map[])], false)
  }

  function ReadingItsField(): State {
    State(Frame(1, 0, [], [7], Bottom([])), World({1}, {1}, map[], map[], []), Running)
  }

  lemma {:induction false} FieldReadTriggers()
    ensures var p, s := WithoutConstructor(), ReadingItsField();
            Triggered(p, s) == Some(2) && Chosen(p, s) == Runs(p.classes[2].methods[0])
  {
    var p, s := WithoutConstructor(), ReadingItsField();
    assert BigEndian(p.memory, 1, 1) == 0;
    assert Decode(p.memory, 0) == Fetched(GetStatic(1), 3);
    var loaded := s.world.loaded + {2};
    assert LoadClass(s, 2).world.loaded == loaded && 1 in loaded && p.ClassAt(1).mentionsClinit;
    assert StaticConstructor(p, loaded, 2) == Runs(p.classes[2].methods[0]);
  }

  /** Reading its field runs that method, on the operand that happens to lie on top: the operand is
    * gone from the frame that read the field.
    */
  lemma {:induction false} MissingConstructorTakesOperand(ch: Choice)
    ensures var p, s := WithoutConstructor(), ReadingItsField();
            s.frames.ops == [7] && Step(p, s, ch).frames.Frame? && Step(p, s, ch).frames.below == s.frames.(ops := [])
  {
    var p, s := WithoutConstructor(), ReadingItsField();
    FieldReadTriggers();
    TriggerEnters(p, s, ch);
  }
}
