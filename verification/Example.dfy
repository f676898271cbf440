/** A small program that meets the certificates: main reads a static field of a class with a constructor,
  * drops it, calls a method and returns. Its own class has no <clinit> and main as its last method.
  */
module Example {
  import opened Words
  import opened Switches
  import opened Bytecode
  import opened Wrappers
  import opened FrameMachine
  import opened Certificates
  import opened Runs

  const CODE: seq<Byte> := [178, 0, 2, 87, 184, 0, 1, 177, 0, 0, 177, 0, 0, 0, 0, 0, 0, 0, 0, 0, 177, 254]

  function Main(): Method { Method("main", "([Ljava/lang/String;)V", 1, 0, false, false, Some(Code(1, 1, 0))) }

  function F(): Method { Method("f", "()V", 0, 0, false, false, Some(Code(0, 0, 10))) }

  function Constructor2(): Method { Method(CLINIT, "()V", 0, 0, false, false, Some(Code(0, 0, 20))) }

  function Sample(): Program {
    Program(a => if 0 <= a < |CODE| then CODE[a] else 0, 21,
            map[1 := Class([F(), Main()], false, map[], map[], map[2 := FieldRef(2, 0, "I")],
              map[1 := MethodRef(1, F())]),
                2 := Class([Constructor2()], true, map[], map[], map[], map[])],
            false)
  }

  function Begin(): State { Start(1, Main().code.value) }

  function Points(): Certificate {
    var code := Main().code.value;
    map[0 := Point(Main(), code, 1, 0), 3 := Point(Main(), code, 1, 1), 4 := Point(Main(), code, 1, 0),
        7 := Point(Main(), code, 1, 0), 10 := Point(F(), F().code.value, 1, 0),
        20 := Point(Constructor2(), Constructor2().code.value, 2, 0)]
  }

  lemma {:induction false} SampleDecodes()
    ensures var m := Sample().memory;
            && Decode(m, 0) == Fetched(GetStatic(2), 3) && Decode(m, 3) == Fetched(Move(Pop), 4)
            && Decode(m, 4) == Fetched(Invoke(1), 7) && Decode(m, 7) == Fetched(Return(0), 8)
            && Decode(m, 10) == Fetched(Return(0), 11) && Decode(m, 20) == Fetched(Return(0), 21)
  {
    hide DecodeArithmetic;
    var m := Sample().memory;
    assert BigEndian(m, 1, 1) == 0 && BigEndian(m, 5, 1) == 0;
  }

  /** Nothing is found for the main class while it is alone, and the constructor of the other class always. */
  lemma {:induction false} SampleConstructors()
    ensures StaticConstructor(Sample(), {1}, 1) == NoConstructor
    ensures StaticConstructor(Sample(), {1, 2}, 2) == Runs(Constructor2())
    ensures GoodConstructor(Points(), Runs(Constructor2()), 2)
  {
    var p := Sample();
    assert 2 in {1, 2} && p.ClassAt(2).mentionsClinit;
    assert FirstNamed(p.ClassAt(2).methods, CLINIT, 0) == 0;
  }

  lemma {:induction false} SoundRead()
    ensures Sound(Sample(), Points(), 0)
  {
    hide Decode, BigEndian;
    SampleDecodes();
    assert Goes(Points(), 3, Points()[0], 1);
  }

  lemma {:induction false} SoundDrop()
    ensures Sound(Sample(), Points(), 3)
  {
    hide Decode, BigEndian;
    SampleDecodes();
    assert Goes(Points(), 4, Points()[3], 0);
  }

  lemma {:induction false} SoundInvoke()
    ensures Sound(Sample(), Points(), 4)
  {
    hide Decode, BigEndian;
    SampleDecodes();
    assert Goes(Points(), 7, Points()[4], 0) && Enterable(Points(), F(), 1);
  }

  lemma {:induction false} SoundReturns(pc: int)
    requires pc == 7 || pc == 10 || pc == 20
    ensures Sound(Sample(), Points(), pc)
  {
    hide Decode, BigEndian;
    SampleDecodes();
  }

  lemma {:induction false} SampleCertified()
    ensures Certified(Sample(), Points())
  {
    hide Sound;
    forall pc | pc in Points() ensures Sound(Sample(), Points(), pc) {
      if pc == 0 {
        SoundRead();
      } else if pc == 3 {
        SoundDrop();
      } else if pc == 4 {
        SoundInvoke();
      } else {
        SoundReturns(pc);
      }
    }
  }

  lemma {:induction false} SampleStart()
    ensures Inv(Sample(), Points(), true, Begin()) && NativesTakeNothing(Sample())
  {
    hide Decode;
    assert FramesSound(Points(), {1}, true, Begin().frames, 0);
  }

  lemma {:induction false} SampleTriggers()
    ensures Triggered(Sample(), Begin()) == Some(2)
  {
    hide Decode, BigEndian, StaticConstructor;
    SampleDecodes();
    SampleConstructors();
    assert LoadClass(Begin(), 2).world.loaded == {1, 2};
  }

  lemma {:induction false} SamplePrepared()
    ensures Prepared(Sample(), Points(), {1})
  {
    hide Decode, BigEndian, StaticConstructor, GoodConstructor;
    SampleDecodes();
    SampleConstructors();
    assert Sample().classes.Keys == {1, 2};
    forall pc | pc in Points() ensures PreparedAt(Sample(), Points(), {1}, pc) {
      assert pc == 0 || pc == 3 || pc == 4 || pc == 7 || pc == 10 || pc == 20;
    }
  }

  /** The program is certified, its constructors are good in every run, and its first instruction triggers
    * an initialisation. The method that would stand in for a constructor of the main class is main itself.
    */
  lemma {:induction false} SampleIsCertified()
    ensures var p, cert, s := Sample(), Points(), Begin();
            && Certified(p, cert) && Inv(p, cert, true, s) && NativesTakeNothing(p)
            && GoodConstructor(cert, StaticConstructor(p, {1}, 1), 1)
            && (forall chs :: HarmlessRun(p, cert, s, chs))
            && Triggered(p, s) == Some(2)
  {
    hide *;
    var p, cert, s := Sample(), Points(), Begin();
    SampleCertified();
    SampleStart();
    SampleTriggers();
    SampleConstructors();
    NothingIsGood(cert, 1);
    SamplePrepared();
    MainIsFlagged();
    forall chs ensures HarmlessRun(p, cert, s, chs) {
      PreparedRun(p, cert, true, {1}, s, chs);
    }
  }

  lemma {:induction false} NothingIsGood(cert: Certificate, c: Word)
    ensures GoodConstructor(cert, NoConstructor, c)
  {
  }

  lemma {:induction false} MainIsFlagged()
    ensures {1} <= Begin().world.flagged
  {
  }
}
