/** Branches, switches, calls, returns and class initialisation by opcode number (src/core.c:1165-1616), in the
  * terms of InstructionSet.
  */
module ControlInstructions {
  import opened Words
  import opened Switches
  import opened Bytecode
  import opened Wrappers
  import opened FrameMachine
  import opened InstructionSet

  /** The top frame goes on at the opcode plus this distance, with these operands. */
  function Jumps(s: State, distance: int, ops: seq<Word>): State
    requires s.frames.Frame?
  {
    Goes(s, distance, s.frames.locals, ops)
  }

  lemma {:induction false} StepOfJump(p: Program, s: State, ch: Choice, rest: seq<Word>, ws: seq<Word>)
    requires s.frames.Frame? && Live(s) && s.frames.ops == rest + ws
    requires IsJump(Decode(p.memory, s.frames.pc).i) && Needs(Decode(p.memory, s.frames.pc).i) == |ws|
    ensures var f := Decode(p.memory, s.frames.pc);
            Step(p, s, ch) == Jumps(s, JumpTo(p.memory, s.frames.pc, f, s.frames.ops) - s.frames.pc, rest)
    ensures forall k :: 0 <= k < |ws| ==> Top(s.frames.ops, k) == ws[|ws| - 1 - k]
  {
    hide Decode, JumpTo, Arrays, Reference, Straight;
    Split(rest, ws);
  }

  /** ifeq to ifle: the offset counts from the opcode, and the operand is read as signed. */
  lemma {:induction false} Branches(p: Program, s: State, ch: Choice, rest: seq<Word>, w: Word)
    requires s.frames.Frame? && s.frames.ops == rest + [w]
    ensures var t, there := Step(p, s, ch), Offset(p, s);
            && (Opcode(p, s, {153}) ==> t == Jumps(s, if w == 0 then there else 3, rest))
            && (Opcode(p, s, {154}) ==> t == Jumps(s, if w != 0 then there else 3, rest))
            && (Opcode(p, s, {155}) ==> t == Jumps(s, if I4(w) < 0 then there else 3, rest))
            && (Opcode(p, s, {156}) ==> t == Jumps(s, if I4(w) >= 0 then there else 3, rest))
            && (Opcode(p, s, {157}) ==> t == Jumps(s, if I4(w) > 0 then there else 3, rest))
            && (Opcode(p, s, {158}) ==> t == Jumps(s, if I4(w) <= 0 then there else 3, rest))
  {
    hide Step, BigEndian;
    ReadsHalf(p, s);
    if Opcode(p, s, {153, 154, 155, 156, 157, 158}) { StepOfJump(p, s, ch, rest, [w]); }
  }

  /** if_icmpeq to if_icmple: the deeper operand is the left one. */
  lemma {:induction false} Comparisons(p: Program, s: State, ch: Choice, rest: seq<Word>, a: Word, b: Word)
    requires s.frames.Frame? && s.frames.ops == rest + [a, b]
    ensures var t, there := Step(p, s, ch), Offset(p, s);
            && (Opcode(p, s, {159}) ==> t == Jumps(s, if a == b then there else 3, rest))
            && (Opcode(p, s, {160}) ==> t == Jumps(s, if a != b then there else 3, rest))
            && (Opcode(p, s, {161}) ==> t == Jumps(s, if I4(a) < I4(b) then there else 3, rest))
            && (Opcode(p, s, {162}) ==> t == Jumps(s, if I4(a) >= I4(b) then there else 3, rest))
            && (Opcode(p, s, {163}) ==> t == Jumps(s, if I4(a) > I4(b) then there else 3, rest))
            && (Opcode(p, s, {164}) ==> t == Jumps(s, if I4(a) <= I4(b) then there else 3, rest))
  {
    hide Step, BigEndian;
    ReadsHalf(p, s);
    if Opcode(p, s, {159, 160, 161, 162, 163, 164}) { StepOfJump(p, s, ch, rest, [a, b]); }
  }

  /** goto */
  lemma {:induction false} Gotos(p: Program, s: State, ch: Choice)
    requires s.frames.Frame? && Opcode(p, s, {167})
    ensures Step(p, s, ch) == Jumps(s, Offset(p, s), s.frames.ops)
  {
    hide Step, BigEndian;
    ReadsHalf(p, s);
    assert s.frames.ops + [] == s.frames.ops;
    StepOfJump(p, s, ch, s.frames.ops, []);
  }

  // ---- Switches ----

  /** tableswitch, encoded as section 6.5 of the JVMS says in a method whose code starts at `start`: the key is
    * the top operand, read as signed; the two end points of the table go to the default.
    */
  lemma {:induction false} TableSwitches(p: Program, s: State, ch: Choice, rest: seq<Word>, w: Word, start: int,
                                         def: int, low: int, jumps: seq<int>)
    requires s.frames.Frame? && s.frames.ops == rest + [w] && Opcode(p, s, {170})
    requires start % 4 == 0 && jumps != []
    requires IsInt(def) && IsInt(low) && IsInt(low + |jumps| - 1) && forall j :: j in jumps ==> IsInt(j)
    requires Located(p.memory, s.frames.pc + 1, EncodeTable(s.frames.pc - start, def, low, jumps))
    ensures var key := I4(w);
            Step(p, s, ch) == Jumps(s, if low < key < low + |jumps| - 1 then jumps[key - low] else def, rest)
  {
    hide Step, BigEndian, EncodeTable, TableTarget;
    StepOfJump(p, s, ch, rest, [w]);
    assert start + (s.frames.pc - start) + 1 == s.frames.pc + 1;
    TableGoes(p.memory, start, s.frames.pc - start, def, low, jumps, I4(w));
  }

  /** lookupswitch likewise: to the default for an absent key; for a present one to its jump exactly if the
    * search probes its pair or the jump is the default.
    */
  lemma {:induction false} LookupSwitches(p: Program, s: State, ch: Choice, rest: seq<Word>, w: Word, start: int,
                                          def: int, cases: seq<Entry>, i: nat)
    requires s.frames.Frame? && s.frames.ops == rest + [w] && Opcode(p, s, {171})
    requires start % 4 == 0 && IsInt(def) && IsInt(|cases|)
    requires forall i :: 0 <= i < |cases| ==> IsInt(cases[i].key) && IsInt(cases[i].jump)
    requires forall i, j :: 0 <= i < j < |cases| ==> cases[i].key < cases[j].key
    requires Located(p.memory, s.frames.pc + 1, EncodeLookup(s.frames.pc - start, def, cases))
    ensures (forall i :: 0 <= i < |cases| ==> cases[i].key != I4(w)) ==> Step(p, s, ch) == Jumps(s, def, rest)
    ensures i < |cases| && cases[i].key == I4(w) ==>
              (Step(p, s, ch) == Jumps(s, cases[i].jump, rest) <==> Probed(i, 0, |cases|) || cases[i].jump == def)
  {
    hide Step, BigEndian, EncodeLookup, LookupTarget, Probed;
    StepOfJump(p, s, ch, rest, [w]);
    assert start + (s.frames.pc - start) + 1 == s.frames.pc + 1;
    LookupSwitchMeetsJvms(p.memory, start, s.frames.pc - start, def, cases, I4(w));
  }

  // ---- Returns ----

  lemma {:induction false} StepOfReturn(p: Program, s: State, ch: Choice, rest: seq<Word>, ws: seq<Word>)
    requires s.frames.Frame? && Live(s) && s.frames.ops == rest + ws
    requires Decode(p.memory, s.frames.pc).i == Return(|ws|)
    ensures Step(p, s, ch) == s.(frames := s.frames.below.(ops := s.frames.below.ops + ws))
  {
    hide Decode, JumpTo, Arrays, Reference, Straight;
    assert (rest + ws)[|rest + ws| - |ws|..] == ws;
  }

  /** The returns: the words returned go on the operands of the frame below, which is otherwise as it was. */
  lemma {:induction false} Returns(p: Program, s: State, ch: Choice, rest: seq<Word>, ws: seq<Word>)
    requires s.frames.Frame? && s.frames.ops == rest + ws
    ensures var t := s.(frames := s.frames.below.(ops := s.frames.below.ops + ws));
            && (Opcode(p, s, {172, 174, 176}) && |ws| == 1 ==> Step(p, s, ch) == t)
            && (Opcode(p, s, {173, 175}) && |ws| == 2 ==> Step(p, s, ch) == t)
            && (Opcode(p, s, {177}) && ws == [] ==> Step(p, s, ch) == t)
  {
    hide Step, BigEndian;
    if (Opcode(p, s, {172, 174, 176}) && |ws| == 1) || (Opcode(p, s, {173, 175}) && |ws| == 2)
       || (Opcode(p, s, {177}) && ws == [])
    {
      StepOfReturn(p, s, ch, rest, ws);
    }
  }

  // ---- Calls and initialisation ----

  /** The class that a getstatic, putstatic or invokestatic refers to is this one. */
  predicate RefersTo(p: Program, s: State, c: Word)
    requires s.frames.Frame?
  {
    var k, n := p.ClassAt(s.frames.cls), Half(p, s);
    || (Opcode(p, s, {178, 179}) && n in k.fields && k.fields[n].cls == c)
    || (Opcode(p, s, {184}) && n in k.calls && k.calls[n].cls == c)
  }

  /** A new frame for method m of class c over `below`: its first locals are the arguments. */
  predicate Opens(t: State, m: Method, c: Word, args: seq<Word>, below: Frames)
    requires m.code.Some?
  {
    var fs, code := t.frames, m.code.value;
    && t.status == Running && fs.Frame? && fs.cls == c && fs.pc == code.entry && fs.ops == [] && fs.below == below
    && |fs.locals| == code.maxLocals && |args| <= |fs.locals| && fs.locals[..|args|] == args
  }

  lemma {:induction false} Decoded(p: Program, s: State)
    requires s.frames.Frame?
    ensures var f, n := Decode(p.memory, s.frames.pc), Half(p, s);
            && (Opcode(p, s, {178}) ==> f == Fetched(GetStatic(n), s.frames.pc + 3))
            && (Opcode(p, s, {179}) ==> f == Fetched(PutStatic(n), s.frames.pc + 3))
            && (Opcode(p, s, {184}) ==> f == Fetched(Invoke(n), s.frames.pc + 3))
  {
    hide BigEndian;
    ReadsHalf(p, s);
  }

  lemma {:induction false} StepOfReference(p: Program, s: State, ch: Choice)
    requires s.frames.Frame? && Live(s)
    requires IsReference(Decode(p.memory, s.frames.pc).i) && ReferenceFits(p, s, Decode(p.memory, s.frames.pc).i)
    ensures Step(p, s, ch) == Reference(p, s, Decode(p.memory, s.frames.pc), ch)
  {
    hide Decode, JumpTo, Arrays, Reference, ReferenceFits, Straight;
  }

  /** A reference that does not resolve ends the program. */
  lemma {:induction false} Unresolving(p: Program, s: State, ch: Choice)
    requires s.frames.Frame?
    ensures var k, n := p.ClassAt(s.frames.cls), Half(p, s);
            (Opcode(p, s, {178, 179}) && n !in k.fields) || (Opcode(p, s, {184}) && n !in k.calls) ==>
              Step(p, s, ch) == Fails(s, Unresolved)
  {
    hide Step, Decode;
    Decoded(p, s);
    var k, n := p.ClassAt(s.frames.cls), Half(p, s);
    if (Opcode(p, s, {178, 179}) && n !in k.fields) || (Opcode(p, s, {184}) && n !in k.calls) {
      StepOfReference(p, s, ch);
    }
  }

  /** A class that is not initialised is loaded and flagged; the method found for it takes its arguments from the
    * operands, and pc stays at the instruction, which will run again. The pointer that a class without methods
    * leaves unset is a stray one.
    */
  lemma {:induction false} Initialises(p: Program, s: State, ch: Choice, rest: seq<Word>, args: seq<Word>, c: Word)
    requires s.frames.Frame? && s.frames.ops == rest + args && RefersTo(p, s, c) && c !in s.world.flagged
    ensures var loaded, t := s.world.loaded + {c}, Step(p, s, ch);
            var found, w := StaticConstructor(p, loaded, c),
                s.world.(loaded := loaded, flagged := s.world.flagged + {c});
            match found
            case NoConstructor => t == s.(world := w)
            case Unset => t == s.(world := w, status := Failed(StrayPointer))
            case Runs(m) =>
              if m.code.None? then t == s.(world := w, status := Failed(StrayPointer))
              else |args| == m.nargs <= m.code.value.maxLocals ==>
                     t.world == w && Opens(t, m, c, args, s.frames.(ops := rest))
  {
    hide Step, Decode, StaticConstructor;
    Decoded(p, s);
    Split(rest, args);
    var f, t := Decode(p.memory, s.frames.pc), LoadClass(s, c);
    assert t.world.loaded == s.world.loaded + {c} && t.frames == s.frames;
    var found := StaticConstructor(p, t.world.loaded, c);
    if found.Runs? && found.target.code.Some? ==> |args| == found.target.nargs <= found.target.code.value.maxLocals {
      assert InitializeFits(p, t, c);
      StepOfReference(p, s, ch);
      assert Step(p, s, ch) == Initialize(p, t, c, ch);
    }
  }

  /** invokestatic of a method whose class is initialised. A native method gets its arguments and leaves them
    * where they are.
    */
  lemma {:induction false} Invokes(p: Program, s: State, ch: Choice, rest: seq<Word>, args: seq<Word>, r: MethodRef)
    requires s.frames.Frame? && s.frames.ops == rest + args && Opcode(p, s, {184}) && |args| == r.target.nargs
    requires Half(p, s) in p.ClassAt(s.frames.cls).calls && p.ClassAt(s.frames.cls).calls[Half(p, s)] == r
    requires r.cls in s.world.flagged
    ensures var m, t, w := r.target, Step(p, s, ch), s.world.(loaded := s.world.loaded + {r.cls});
            if m.native then
              t == if !m.printed then s.(world := w, status := Failed(NativeNotSupported))
                else s.(world := w.(printed := w.printed + [Printed(m, args)]),
                        frames := s.frames.(pc := s.frames.pc + 3, ops := if p.nativesPop then rest else rest + args))
            else if m.code.None? then t == s.(world := w, status := Failed(StrayPointer))
            else m.nargs <= m.code.value.maxLocals ==>
                   t.world == w && Opens(t, m, r.cls, args, s.frames.(pc := s.frames.pc + 3, ops := rest))
  {
    hide Step, Decode;
    Decoded(p, s);
    Split(rest, args);
    assert (rest + args)[|rest + args| - |args|..] == args;
    if !r.target.native && r.target.code.Some? ==> r.target.nargs <= r.target.code.value.maxLocals {
      StepOfReference(p, s, ch);
      assert Step(p, s, ch) == Call(p, LoadClass(s, r.cls), r, s.frames.pc + 3, ch);
    }
  }

  // ---- What stops the program ----

  /** impdep1 exits, and so does running on what main returned to. */
  lemma {:induction false} Exits(p: Program, s: State, ch: Choice)
    ensures s.frames.Frame? && Opcode(p, s, {254}) ==> Step(p, s, ch) == s.(status := Exited)
    ensures s.frames.Bottom? && s.status == Running ==> Step(p, s, ch) == s.(status := Exited)
    ensures s.status != Running ==> Step(p, s, ch) == s
  {
    hide Arrays, Reference, Straight, JumpTo;
  }

  /** The opcodes that the table maps to not_sup or no_inst. */
  lemma {:induction false} Unsupporteds(p: Program, s: State, ch: Choice)
    requires s.frames.Frame?
    ensures Opcode(p, s, {1, 50, 83, 165, 166, 168, 169, 180, 181, 182, 183, 185, 186, 187, 189, 255}) ==>
              Step(p, s, ch) == Fails(s, NotSupported)
    ensures Opcode(p, s, {p.memory(s.frames.pc)}) && 191 <= p.memory(s.frames.pc) <= 253 ==>
              Step(p, s, ch) == Fails(s, NotSupported)
  {
    hide Arrays, Reference, Straight, JumpTo;
  }

  /** The floating-point instructions that compute, which this machine does not have. */
  lemma {:induction false} Floatings(p: Program, s: State)
    requires s.frames.Frame? && Opcode(p, s, {p.memory(s.frames.pc)})
    ensures Decode(p.memory, s.frames.pc).i.Floating? <==>
            p.memory(s.frames.pc) in {98, 99, 102, 103, 106, 107, 110, 111, 114, 115, 118, 119, 134, 135, 137, 138, 139,
              140, 141, 142, 143, 144, 149, 150, 151, 152}
  {
  }
}
