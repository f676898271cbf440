/** Arrays over whole runs: none disappears or changes its length, and only a store into it changes one. */
module ArrayRuns {
  import opened Words
  import opened Bytecode
  import opened Wrappers
  import opened FrameMachine
  import ArrayHeap

  /** The array that the next instruction stores into. */
  function Stored(p: Program, s: State): Option<Word> {
    if s.status == Running && s.frames.Frame? && Fit(p, s) then
      var i := Decode(p.memory, s.frames.pc).i;
      if i.ArrayStore? then Some(Top(s.frames.ops, 2))
      else if i.ArrayStorePair? then Some(Top(s.frames.ops, 3))
      else None
    else None
  }

  /** This array is still there, and is the same but for its content. */
  predicate Remains(before: World, after: World, ref: Word) {
    ref in before.heap ==>
      && ref in after.heap && after.heap[ref].length == before.heap[ref].length
      && |after.heap[ref].data| == |before.heap[ref].data|
  }

  predicate Unchanged(before: World, after: World, ref: Word) {
    ref in before.heap ==> ref in after.heap && after.heap[ref] == before.heap[ref]
  }

  predicate StoresTo(i: Instr, ops: seq<Word>, ref: Word)
    requires Needs(i) <= |ops|
  {
    (i.ArrayStore? && ref == Top(ops, 2)) || (i.ArrayStorePair? && ref == Top(ops, 3))
  }

  lemma {:induction false} ArraysKeep(s: State, f: Fetched, ch: Choice, ref: Word)
    requires s.frames.Frame? && IsArray(f.i) && Needs(f.i) <= |s.frames.ops|
    ensures var w := Arrays(s, f, ch).world;
            && Remains(s.world, w, ref)
            && (!StoresTo(f.i, s.frames.ops, ref) ==> Unchanged(s.world, w, ref))
  {
    hide ArrayHeap.NewArray, ArrayHeap.LoadWord, ArrayHeap.LoadPair, ArrayHeap.ElementOf;
  }

  lemma {:induction false} ReferenceKeepsHeap(p: Program, s: State, f: Fetched, ch: Choice)
    requires s.frames.Frame? && IsReference(f.i) && ReferenceFits(p, s, f.i)
    ensures Reference(p, s, f, ch).world.heap == s.world.heap
  {
    hide StaticConstructor;
  }

  /** A step leaves every array where it is, and all but the one it stores into as they are. */
  lemma {:induction false} StepKeepsArrays(p: Program, s: State, ch: Choice, ref: Word)
    ensures Remains(s.world, Step(p, s, ch).world, ref)
    ensures Stored(p, s) != Some(ref) ==> Unchanged(s.world, Step(p, s, ch).world, ref)
  {
    hide Arrays, Reference, Straight, JumpTo;
    if s.status == Running && s.frames.Frame? && Fit(p, s) {
      var f := Decode(p.memory, s.frames.pc);
      if IsArray(f.i) {
        ArraysKeep(s, f, ch, ref);
      } else if IsReference(f.i) {
        ReferenceKeepsHeap(p, s, f, ch);
      }
    }
  }

  /** So does every run; an array that it never stores into is as it was. */
  lemma {:induction false} RunKeepsArrays(p: Program, s: State, chs: seq<Choice>, ref: Word)
    ensures Remains(s.world, Run(p, s, chs).world, ref)
    ensures (forall k :: 0 <= k < |chs| ==> Stored(p, Run(p, s, chs[..k])) != Some(ref)) ==>
              Unchanged(s.world, Run(p, s, chs).world, ref)
    decreases |chs|
  {
    hide Step, Stored;
    if chs != [] {
      var n := |chs| - 1;
      RunKeepsArrays(p, s, chs[..n], ref);
      StepKeepsArrays(p, Run(p, s, chs[..n]), chs[n], ref);
      assert forall k :: 0 <= k < n ==> chs[..n][..k] == chs[..k];
    }
  }
}
