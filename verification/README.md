# A verified model of limited_jvm

This project models limited_jvm, a small JVM interpreter written in C, and proves what its interpreter,
resolver, string pool, class-file parser and descriptor scanner do. Section numbers refer to the Java Virtual
Machine Specification, Java SE 8 (JVMS).

* `Words`, `Switches`, `ArrayHeap`, `Bytecode` model word and long arithmetic, the two switches, arrays as
  blocks of bytes, and the decoding of instructions.
* `FrameMachine` is the reference: a list of frames with their own locals and operands (JVMS section 2.6).
  `Interpreter.Machine` is the code's machine: one word array in which arguments, locals, operands and saved
  registers share cells, and the registers `pc`, `cp`, `c`, `frame`, `optop`, `localc`. `StackLayout` says
  which frames the array stands for. Every instruction is proved to do to the array what the reference does to
  the frames.
* `InstructionSet`, `ControlInstructions`, `MemoryInstructions` say for every opcode number what a step of the
  reference does with the bytes of the code and the words of the frame, and `Arithmetic` has the laws that the
  integer instructions obey, all without the definitions that the reference is made of.
* `Certificates` puts what the interpreter assumes of bytecode (JVMS section 4.9.2) into a certificate per
  instruction; `Runs`, `Calls`, `StackUse`, `Natives`, `ArrayRuns`, `TwoWords`, `SingleWords`, `Execution` prove
  properties of whole runs, and `Example` has a small program with a call and a class initialisation that is certified.
* `MethodSearch` has the searches for `<clinit>` and main, which compare pointers into the string pool.
* `StringPool`, `Resolution` model the hash table of strings, the ring of classes and the lazy constant-pool
  cache, in objects that are changed in place; `Lookups` says what resolving an entry finds.
* `ClassFormat` is the class-file format with its encoding, `Parsing` the reference parser on byte positions,
  `ClassParser.Parser` the parser with its moving position and its two globals, `ParseEncode` and `Links` the
  theorems about them, `ClassBytes` the format byte by byte. `Signature` is the descriptor scanner.

The code is modelled as it is written. Where it misses what it is meant to do, the model keeps the code and a
theorem says exactly when the two agree:

* the binary search of lookupswitch misses keys (`Switches.SearchAgreesWithScan`,
  `Switches.CompleteOnlyUpToOnePair`), although the linear scan in the comment at src/core.c:1317-1327 would not;
* tableswitch excludes both end points (`Switches.TableSwitchMeetsJvms`), and the padding of both switches works
  on addresses (`Switches.PaddingLands`);
* native calls leave their arguments (`StackUse.NativeCallDepth`, `Natives.NativesLeaveOnlyLitter`,
  `Natives.LitterOnTop`);
* get_static_constructor and get_main_method deliver the last method when none matches
  (`Calls.ConstructorMeetsIntent`, `Calls.MissingConstructorTakesOperand`, `MethodSearch.MainMeetsIntent`);
* dividing the least value by -1 is undefined in C and traps, where section 6.5 gives that value and remainder 0
  (`Words.IntDivisionMeetsJvms`, `Words.LongDivisionMeetsJvms`);
* boolean, byte and short loads extend with zeros and chars have one byte (`ArrayHeap.ElementMeetsJvms`), and the
  tests for negative lengths and indices never hold (`ArrayHeap.OneComparisonDecidesBoth`);
* the scanner stops at a parenthesis inside a class name (`Signature.NargsMeetsJvms`);
* the flag for the second half of a long or double survives a file (`ParseEncode.ParsingNeedsClearFlag`), and
  any Code attribute redirects the shortcut of the last method (`Links.ShortcutMeetsIntent`).

A certificate speaks of the code alone. Which method get_static_constructor finds depends on the classes loaded
so far, so the results on certified programs ask, of the very states in which it is called, that what it finds is
a method without arguments and results (`Certificates.Harmless`). A `<clinit>` with descriptor ()V is one; a class
without `<clinit>` may run its last method instead. `Certificates.PreparedIsHarmless` has a check that is made
once, before the run.

Three things come from outside the model. `Choice` carries what a step takes from malloc (0 for failure, or an
address that is not in use) and from memory that was not written yet (the locals beyond the arguments). What
load_class delivers to the resolver is a parameter of its methods; `ClassParser.Parser.Load` builds it from the
bytes of a file. The word-array machine knows the pool's strings and the names of each class's methods as they
are once all classes are loaded, and `find_string("<clinit>")` gives the pool's string from the moment a loaded
class mentions it. `hide` statements in proofs only keep definitions from the solver that a proof does not need.

## Model

| member | source | states |
|---|---|---|
| Interpreter.Machine.constructor | src/core.c:201-292 | the word array, the fake frame below main and the registers stand for the frame machine's start state |
| Interpreter.Machine.Step | src/core.c:316-1622 | for every state of the word array that the bytecode fits, one instruction leads to exactly the state of the abstract list-of-frames machine, and every word below the frame that was on top is unchanged |
| InstructionSet.Constants | src/core.c:316-373 | nop and opcodes 2 to 17: the words pushed, bit by bit, and the distance pc goes on |
| InstructionSet.PoolConstants | src/core.c:374-394 | opcodes 18 to 20: the one or two words of the indexed entry, and the exit without one |
| InstructionSet.Loads | src/core.c:395-479 | the one-word loads: which local each opcode pushes |
| InstructionSet.LoadsPair | src/core.c:398-457 | the two-word loads: which two locals, in which order |
| InstructionSet.Stores | src/core.c:567-651 | the one-word stores: which local takes the top operand |
| InstructionSet.StoresPair | src/core.c:570-640 | the two-word stores: low word in the lower local |
| InstructionSet.Increments | src/core.c:1011-1014 | iinc adds its signed byte to the local modulo 2^32 |
| InstructionSet.MovesOne | src/core.c:757-766 | pop and dup |
| InstructionSet.MovesTwo | src/core.c:760-806 | pop2, dup_x1, dup2 and swap: the operands afterwards, one by one |
| InstructionSet.MovesThree | src/core.c:773-792 | dup_x2 and dup2_x1 likewise |
| InstructionSet.MovesFour | src/core.c:793-801 | dup2_x2 likewise |
| InstructionSet.IntArithmetic | src/core.c:807-844 | iadd, isub and imul modulo 2^32, the deeper operand on the left |
| InstructionSet.IntDivision | src/core.c:858-893 | idiv and irem: quotient rounded towards zero, its remainder, and both ways to stop |
| InstructionSet.BinaryInt | src/core.c:953-1006 | shifts and bit operations: which law of Arithmetic each opcode follows, the deeper operand on the left |
| InstructionSet.BinaryLong | src/core.c:811-1116 | the same for long arithmetic, bit operations and lcmp |
| InstructionSet.LongDivision | src/core.c:866-905 | ldiv and lrem like idiv and irem |
| InstructionSet.LongShifts | src/core.c:959-986 | the long shifts take their distance from the top word |
| InstructionSet.UnaryInt | src/core.c:941-1106 | ineg, i2l and the narrowings: the resulting words |
| InstructionSet.UnaryLong | src/core.c:944-1029 | lneg gives the additive inverse, l2i the low word |
| ControlInstructions.Branches | src/core.c:1165-1212 | ifeq to ifle: when each opcode jumps, on the operand read as signed, and where to |
| ControlInstructions.Comparisons | src/core.c:1213-1260 | if_icmpeq to if_icmple: when each opcode jumps, the deeper operand on the left |
| ControlInstructions.Gotos | src/core.c:1262-1265 | goto adds its signed offset to the address of the opcode |
| ControlInstructions.TableSwitches | src/core.c:1266-1284 | a step over an encoded tableswitch, with the signed top operand as key |
| ControlInstructions.LookupSwitches | src/core.c:1285-1332 | a step over an encoded lookupswitch likewise |
| ControlInstructions.Returns | src/core.c:1333-1411 | which words each return hands to the frame below |
| ControlInstructions.Unresolving | src/core.c:1412-1497 | a reference without an entry ends the program |
| ControlInstructions.Initialises | src/core.c:1593-1616 | the first reference to a class: loaded, flagged, the frame of what is found opened over the operands, pc kept |
| ControlInstructions.Invokes | src/core.c:1492-1530 | invokestatic: class, code, first locals and caller of the new frame, or the arguments handed to the native method |
| ControlInstructions.Exits | src/core.c:1618-1622 | impdep1, and what main returns to, end the run |
| ControlInstructions.Unsupporteds | src/core.c:307-314 | the opcodes that stop the program |
| ControlInstructions.Floatings | src/core.c:815-1164 | the opcodes that are outside the model are exactly the floating-point ones that compute |
| MemoryInstructions.GetsStatic | src/core.c:1412-1451 | getstatic pushes the first word of a one-word field, both of a two-word one, zeros before the first write, and refuses other signatures |
| MemoryInstructions.PutsStatic | src/core.c:1452-1490 | putstatic of one word writes the first word of the field |
| MemoryInstructions.PutsStaticPair | src/core.c:1470-1475 | putstatic of two words writes both |
| MemoryInstructions.WordsOfField | src/core.c:1430-1449 | D and J take two words, B, C, F, I, S, Z and arrays one, nothing else is accepted |
| MemoryInstructions.CreatesArray | src/core.c:1532-1583 | newarray: the size of each element type, the length, all bytes zero, a fresh address |
| MemoryInstructions.GivesLength | src/core.c:1584-1590 | arraylength delivers the length |
| MemoryInstructions.LoadsElement | src/core.c:480-565 | which bytes each array load joins to a word, and the order of its checks |
| MemoryInstructions.StoresElement | src/core.c:652-756 | which bytes each one-word array store writes, and which operand they come from |
| MemoryInstructions.StoresPairElement | src/core.c:665-711 | lastore and dastore: eight bytes, low word first |
| Execution.Execute | src/core.c:64-69 | along every run of a certified program whose initialisations run good constructors, the word array goes through the very states of the frame machine, and the words under an untouched base frame never change |
| Execution.RunProgram | src/core.c:173-1624 | a whole run: from the fresh array, over the constructor of the main class, through any number of instructions, the word array stands for exactly the state that the frame machine reaches |
| Interpreter.Machine.CopyDupX1 | src/core.c:767-772 | the cells after the overlapping copies of dup_x1, stated cell by cell |
| Interpreter.Machine.CopyDupX2 | src/core.c:773-779 | the cells after dup_x2, cell by cell |
| Interpreter.Machine.CopyDup2X1 | src/core.c:785-792 | the cells after dup2_x1, cell by cell |
| Interpreter.Machine.CopyDup2X2 | src/core.c:793-801 | the cells after dup2_x2, cell by cell |
| Interpreter.Machine.DoDupX2 | src/core.c:773-779 | after the copies the frame has the operands that section 6.5 of the JVMS gives for dup_x2; the other forms likewise |
| Interpreter.Machine.DoSwap | src/core.c:802-806 | the two top operands change places, nothing else changes |
| Interpreter.Machine.StepStraight | src/core.c:316-1116 | constants, locals, operand moves and integer and long arithmetic do to the top frame what the frame machine says and leave all others alone |
| Interpreter.Machine.StepJump | src/core.c:1165-1332 | pc goes where the branch or switch leads, the operands it compared are gone |
| Interpreter.Machine.ReturnWords | src/core.c:1346-1358 | the saved words are read before the result overwrites them: the caller's frame is back, with the result on its operands, even when the method has no locals and the result lands on the saved words |
| Interpreter.Machine.EnterFrame | src/core.c:1516-1528 | the caller's top words become the first locals in place, and the four saved words restore the caller |
| Interpreter.Machine.GetStaticConstructor | src/core.c:132-153 | comparing pointers with the string that find_string gives, the loop finds what a comparison of the names finds: the first method named <clinit>, the last method when there is none, and nothing while the string is not in the pool |
| MethodSearch.FindConstructor | src/core.c:132-153 | the same search, with the hash table of the string pool |
| MethodSearch.ConstructorFound | src/core.c:138-152 | said of the methods: the first one named <clinit>, without one the last, and nothing while no loaded class mentions the name |
| Interpreter.Machine.InitializeStatic | src/core.c:1593-1616 | flags stay set, a frame for the constructor is opened over the operands with pc kept for the retry |
| Interpreter.Machine.StepGetStatic | src/core.c:1412-1451 | load, initialise and retry, or push one or two words of the field, as the frame machine does |
| Interpreter.Machine.StepPutStatic | src/core.c:1452-1490 | load, initialise and retry, or store one or two words into the field, as the frame machine does |
| Interpreter.Machine.StepInvoke | src/core.c:1492-1530 | load, initialise and retry, or call, as the frame machine does |
| Interpreter.Machine.NativeCall | src/core.c:1511-1514 | the arguments are handed over and stay on the operand stack |
| Interpreter.Machine.StepArray | src/core.c:480-756 | array instructions do to heap and operands what the frame machine says, with the same error exits in the same order |
| StackLayout.RepDepends | src/core.c:186-198 | only the words up to the top operand decide which frames the word array stands for |
| StackLayout.RepSize | src/core.c:186-198 | walking the saved registers, the words in use and the start of the top frame are those of the frames: locals, four saved words and operands each |
| StackLayout.CallRestoresRegisters | src/core.c:1333-1411 | after a call has come back, frame, localc and class are as before, pc is behind the call, optop lost the arguments and gained the result |
| Bytecode.Lengths | src/core.c:221-274 | the decoded length of an instruction: the references that rewind pc by three are three bytes long, returns hand over at most two words |
| Certificates.CertifiedFits | src/core.c:173-1624 | in a certified program no instruction runs without the operands, locals and arguments it takes for granted, if the constructor it may start is good |
| Certificates.StepKeepsInv | src/core.c:316-1622 | every such step leads to a certified state: boundaries, locals, operand depths of every live frame, flagged class of every live frame |
| Certificates.PreparedIsHarmless | src/core.c:132-153 | it is enough to look, before the run, at the classes referred to that are not flagged at the start: with every class loaded, their constructors are good |
| Example.SampleIsCertified | src/core.c:1412-1530 | the assumptions can be met: a program with main as the last method of a class without <clinit>, which calls another method of its class and reads a field of a class still to be initialised, is certified, all its runs are harmless, and its first step triggers |
| Runs.RunKeepsInv | src/core.c:316-1622 | the same for every state of every run |
| Runs.PreparedRun | src/core.c:132-153 | the check before the run makes every step of every run harmless |
| Execution.StartIsCertified | src/core.c:201-292 | the state from which the first instruction runs is certified, if what is found for the main class, while it is the only one loaded, is good; a main class without <clinit> need have no other method |
| MethodSearch.GetMainMethod | src/core.c:72-99 | comparing pointers, the loop finds the first main method, and the last method when there is none; the exit is taken when one of the two strings is not in the pool |
| MethodSearch.MainFound | src/core.c:86-98 | said of the methods: the first main(String[]), and without one the last method |
| MethodSearch.MainMeetsIntent | src/core.c:72-98 | a main method is delivered if and only if the class has one |
| Runs.Balanced | src/core.c:1333-1411 | for every program: when the stack is first no deeper than a frame that was below, that frame is as it was, with at most two words added |
| Runs.BalancedResults | src/core.c:1333-1411 | in a certified program these are exactly the words of the called method's result type |
| Calls.CallReturns | src/core.c:1492-1530 | from invokestatic to the matching return, across any nested calls and initialisations: the caller has its class and locals, its operands less the arguments plus the result, pc behind the call, and every frame below is unchanged |
| Calls.TriggerKeepsFrame | src/core.c:1593-1616 | the frame that triggers an initialisation is unchanged while it runs if and only if the method found takes no arguments |
| Calls.InitialisationEffect | src/core.c:1593-1616 | for every program: what an initialisation leaves of the frame that triggered it when it comes back |
| Calls.InitialisationIsTransparent | src/core.c:1420-1426 | in a certified program, with the constructor found with the classes loaded at the trigger: every live frame is as at the trigger when the instruction runs again, and it does not trigger again |
| Calls.ConstructorMeetsIntent | src/core.c:145-152 | get_static_constructor finds the class's <clinit>, or nothing where it has none, if and only if it has one or the string is not in the pool |
| Calls.MissingConstructorTakesOperand | src/core.c:145-152 | a concrete program in which reading a field runs an ordinary method and loses an operand |
| Runs.StepFlags | src/core.c:1412-1426 | a step flags the class it triggers and no other, and clears none |
| Runs.TriggersCounted | src/core.c:1412-1426 | over every run the classes flagged are counted by the triggers, so none is initialised twice |
| Runs.TriggersBounded | src/core.c:1412-1426 | the classes not yet flagged bound the triggers still to come |
| Runs.TriggeredOnce | src/core.c:1500-1506 | a class whose initialisation was triggered is never triggered again in any continuation |
| Runs.OnlyFlaggedClassesAct | src/core.c:1452-1466 | a static field changes, and a method is entered, only when its class is flagged |
| Runs.UnflaggedFieldsAreUnread | src/core.c:1412-1451 | and a static field is read only when its class is flagged: two states that differ only in fields of other classes differ only in these after the step |
| ArrayRuns.StepKeepsArrays | src/core.c:480-756 | a step leaves every array in place with its length, and unchanged unless it stores into that very array |
| ArrayRuns.RunKeepsArrays | src/core.c:480-756 | over every run an array stays, and one that is never stored into is as it was |
| StackUse.StepExcess | src/core.c:1511-1514 | the operand words beyond what the bytecode asks for change by exactly the arguments of a native call, and by what a return discards with its frame |
| StackUse.StackBound | src/core.c:1516-1528 | in every state of every run of a certified program the words in use are at most what its live frames may use (locals, four saved words and max_stack each, less the arguments shared with the caller) and what native calls have left in them |
| StackUse.DepthBound | src/core.c:1516-1528 | nested at most d deep with frames of at most F words, that is d * F words and what native calls have left |
| StackUse.StackBoundExact | src/core.c:1516-1528 | where native methods take nothing, no frame has more operands than its max_stack, and the live frames use no more words than they may |
| StackUse.NativeCallDepth | src/core.c:1511-1514 | a native call leaves the operand depth the JVMS wants if and only if the method takes no arguments |
| Execution.DepthGivesRoom | src/core.c:111-113 | an allocation of d * F words and the litter has room for every run within these bounds |
| Natives.NativesLeaveOnlyLitter | src/core.c:1511-1514 | where native calls are statements of their own, the code and a machine that pops the arguments agree along every run on everything but words below the operands in use |
| Natives.LitterOnTop | src/core.c:1511-1514 | elsewhere the next operand is right if and only if the last argument happens to equal the operand below the arguments |
| TwoWords.StepCarries | src/core.c:570-573 | one step takes a two-word value to where the JVMS says: constant pool, operand, the copies of the dup2 forms, local, argument, result, static field or array element |
| TwoWords.TwoWordsAreConserved | src/core.c:1346-1358 | a 64-bit value keeps both words in order along every itinerary of a run, through any chain of ldc2w, dup2 forms, loads, stores, argument passing, returns, field and array accesses, calls and initialisations; an array element rests while other arrays, or other bytes of its own, are stored into |
| SingleWords.StepCarries | src/core.c:395-806 | one step takes a one-word value where the JVMS says: constant pool, operand, the copies of dup and swap, local, argument, result, static field or array element |
| SingleWords.WordsAreConserved | src/core.c:1333-1530 | a word stays what it is along every itinerary of a run |
| SingleWords.PutThenGet | src/core.c:1452-1490 | what putstatic wrote into a one-word field is exactly what a later getstatic pushes, along every run without another write to it |
| SingleWords.FreshField | src/core.c:1412-1451 | a field never written reads as zero |
| SingleWords.StartsFresh | src/core.c:201-292 | the state a run starts from |
| Words.PairRoundTrip | src/core.c:811-814 | a pair of words holds each 64-bit value once, signed or unsigned, low word first |
| Words.ToPairCongruent | src/core.c:811-814 | the result of long arithmetic is the one signed 64-bit value congruent to the exact result |
| Words.AddCarries | src/core.c:811-814 | ladd on pairs is word addition with a carry into the high word |
| Words.SubUndoesAdd | src/core.c:828-831 | lsub undoes ladd on every pair |
| Words.QuotientTruncates | src/core.c:858-907 | the quotient is rounded towards zero: the remainder is smaller than the divisor and has the sign of the dividend |
| Words.IntDivisionMeetsJvms | src/core.c:858-893 | idiv and irem give what section 6.5 says, division by zero included, if and only if they do not divide the least value by -1 |
| Words.LongDivisionMeetsJvms | src/core.c:866-905 | ldiv and lrem likewise |
| Words.NarrowLong | src/core.c:1015-1028 | i2l extends the sign, l2i keeps the low 32 bits of the value and undoes it |
| Arithmetic.IntSum | src/core.c:807-810 | iadd is addition modulo 2^32 |
| Arithmetic.IntSubUndoesAdd | src/core.c:824-827 | isub undoes iadd on all words |
| Arithmetic.IntProduct | src/core.c:841-844 | imul multiplies modulo 2^32, signed or unsigned |
| Arithmetic.IntShiftLeft | src/core.c:953-958 | ishl: five bits of the distance count, each step doubles |
| Arithmetic.IntShiftRight | src/core.c:965-970 | ishr is the floor of the signed value by a power of two, each step halves |
| Arithmetic.IntShiftUnsigned | src/core.c:977-981 | iushr the floor of the unsigned value |
| Arithmetic.IntBits | src/core.c:987-1006 | iand, ior and ixor, bit by bit |
| Arithmetic.LongProduct | src/core.c:845-848 | lmul multiplies modulo 2^64 |
| Arithmetic.LongShiftLeft | src/core.c:959-964 | lshl: six bits of the distance count, each step doubles |
| Arithmetic.LongShiftRight | src/core.c:971-976 | lshr is the floor of the signed value |
| Arithmetic.LongShiftUnsigned | src/core.c:982-986 | lushr the floor of the unsigned value |
| Arithmetic.LongBits | src/core.c:991-1010 | land, lor and lxor, bit by bit |
| Arithmetic.CompareOrders | src/core.c:1107-1116 | lcmp gives -1, 0 or 1 exactly by the order of the two 64-bit values |
| Switches.TableSwitch | src/core.c:1266-1284 | padding, offsets and comparisons as coded lead to the specified target |
| Switches.BinarySearch | src/core.c:1294-1332 | the loop with its exclusive high and high = middle - 1 computes the recursive search, and terminates |
| Switches.SearchAgreesWithScan | src/core.c:1295-1330 | for every strictly increasing key table the search gives what the linear scan gives if and only if the scan misses or its hit is probed |
| Switches.SearchFinds | src/core.c:1295-1330 | a key is found if and only if its position is probed |
| Switches.CompleteOnlyUpToOnePair | src/core.c:1295-1330 | the search finds every key of a table if and only if the table has at most one pair; with more, the key before the middle is always missed |
| Switches.MissesAreIsolated | src/core.c:1295-1330 | of two neighbouring keys at least one is probed |
| Switches.PaddingLands | src/core.c:1267-1270 | the padding loop lands on the default offset if and only if the code array starts at a multiple of four |
| Switches.ReadsInt | src/core.c:162-165 | big-endian reads undo the encoding of section 6.5 |
| Switches.TableSwitchMeetsJvms | src/core.c:1274-1284 | tableswitch jumps where section 6.5 says unless the key is one of the two end points and that entry is not the default |
| Switches.LookupSwitchMeetsJvms | src/core.c:1285-1332 | lookupswitch jumps where section 6.5 says: to the default for absent keys, and for a present key if and only if it is probed or jumps to the default |
| Switches.SwitchesAgree | src/core.c:1266-1332 | a tableswitch and a lookupswitch that encode the same case map go the same distance if and only if both miss the key, both find it, or it jumps to the default |
| ArrayHeap.LoadAfterStore | src/core.c:652-665 | bytes loaded after a store give the value cut to the width |
| ArrayHeap.WordElements | src/core.c:480-565 | an element read back is the stored value cut to the width, all other elements of the array are as before |
| ArrayHeap.PairElements | src/core.c:492-503 | long and double elements read back unchanged, all others are as before |
| ArrayHeap.ElementMeetsJvms | src/core.c:530-565 | store then load gives the value of section 6.5 always for int and float, and if and only if the stored part is not negative (boolean, byte, short) or fits one byte (char) |
| ArrayHeap.OneComparisonDecidesBoth | src/core.c:485-489 | the single unsigned comparison accepts exactly the indices of section 6.5 if and only if the length is below 2^31 |
| ArrayHeap.FreshArray | src/core.c:1532-1583 | a new array holds each of its elements, all zero |
| Signature.CalculateNargs | src/signature.c:14-79 | the loop with its two modes computes the recursive scan |
| Signature.CountsDescriptor | src/signature.c:14-79 | for every descriptor of section 4.3.3 of the JVMS, with the base types B, C, D, F, I, J, S, Z and any letters in its class names, the count is the parameter words (two for J and D) modulo 256 up to the first class name with a parenthesis |
| Signature.NargsMeetsJvms | src/signature.c:30-60 | within 255 words the count is the one of section 4.3.3 if and only if no parameter but the last has a parenthesis in its class name |
| Signature.RefusedDescriptor | src/signature.c:30-79 | which continuations of well-formed parameters are refused, and which make the scan overrun the string |
| Signature.AnyElement | src/signature.c:40-57 | the element type of an array is not checked |
| StringPool.ComputeHash | src/string_pool.c:19-29 | the loop computes the hash of the whole string, in 32 bits |
| StringPool.HashGrows | src/string_pool.c:19-29 | the hash starts at 5381 and takes each character after multiplying by 33 |
| StringPool.StandsAdded | src/string_pool.c:66-89 | a string put at the end of the slot of its hash keeps every chain free of duplicates, of one hash each, and the table a map from content to string |
| StringPool.Pool.constructor | src/string_pool.c:32-40 | the fresh table stands for the empty map |
| StringPool.Pool.AddString | src/string_pool.c:66-89 | the table afterwards stands for the map with this content added, the result is the string of that content, and it is the given one only if there was none |
| StringPool.Pool.FindString | src/string_pool.c:91-109 | the string of this content, or nothing if there is none |
| StringPool.Interning | src/string_pool.c:66-89 | in any sequence of add_string calls two results are the same pointer if and only if the strings are equal, and every result stays valid |
| StringPool.FirstStays | src/string_pool.c:70-88 | the first string of a content is the one that stands for it |
| Resolution.Search | src/resolve.c:14-30 | the walk visits each class of the ring at most once and, comparing pointers, finds exactly what a lookup by name finds |
| Resolution.Link | src/parser.c:508-514 | the ring with one more class is again a single cycle of classes with distinct names |
| Resolution.LinkedNames | src/resolve.c:32-34 | linking adds the loaded class once, loses none, and keeps names distinct |
| Resolution.LinkLoaded | src/resolve.c:32-37 | linking a loaded class keeps every cached entry of every class what a fresh lookup gives |
| Resolution.FindsTheClass | src/resolve.c:17-30 | a lookup by name finds the class of that name wherever it stands in the ring |
| Resolution.ResolveClass | src/resolve.c:8-38 | the entry becomes the class that a fresh lookup by name over the new ring gives; nothing else in any pool changes |
| Resolution.NameAndTypeOf | src/resolve.c:40-52 | the entry becomes the name and signature of the entries it refers to |
| Resolution.SearchMember | src/resolve.c:78-88 | comparing pointers, the loop finds the first member whose name and signature are equal as strings |
| Resolution.ResolveMethodref | src/resolve.c:54-96 | the entry becomes what a fresh lookup gives, the exit is taken if and only if there is no such class or method, and resolved entries are untouched |
| Resolution.ResolveFieldref | src/resolve.c:98-140 | the same for fields |
| Resolution.ResolveConst | src/resolve.c:142-173 | the switch on the tag: every unresolved entry becomes what a fresh lookup gives, a resolved one is refused and left alone |
| Lookups.FieldrefMeans | src/resolve.c:98-140 | a Fieldref resolves to a class and field if and only if it is the class of that name in the ring and its first field of that name and signature; it fails if and only if there is none |
| Lookups.MethodrefMeans | src/resolve.c:54-96 | a Methodref likewise, among the methods |
| Lookups.ClassMeans | src/resolve.c:8-38 | a class entry resolves to the class of its name, and to nothing if and only if the ring has none |
| Lookups.StringsMean | src/resolve.c:40-52 | names, signatures and string constants are the strings referred to, whatever is loaded |
| Lookups.LoadsWhatIsMissing | src/resolve.c:14-37 | a class is linked if and only if the ring has none of its name |
| Resolution.LookupIsStable | src/resolve.c:54-96 | once a lookup succeeds, it gives the same for every larger ring |
| Resolution.CoherenceStays | src/resolve.c:32-37 | cached entries agree with a fresh lookup for ever, although the ring keeps growing |
| Resolution.InternedStays | src/parser.c:134-140 | what was interned stays interned however many strings are added |
| Resolution.FreeAll | src/parser.c:528-538 | every class of the ring is freed exactly once, in the order of the ring; reading or freeing a class asks that it was not freed before |
| ParseEncode.ParsingUndoesEncoding | src/parser.c:423-465 | for every class file with attributes nested to any depth, parsing its encoding (sections 4.1, 4.4 and 4.7 of the JVMS) gives it back with exception tables and unsupported attributes erased, the position exactly at the end and the flag clear |
| ParseEncode.ParsingNeedsClearFlag | src/parser.c:61-70 | this holds if and only if no earlier file left the flag set |
| ParseEncode.FlagAfterPool | src/parser.c:306-317 | for every pool: each long or double is followed by an unused index, and the flag stays set if and only if the last index has the first half of one |
| ParseEncode.ConstantBack | src/parser.c:61-150 | every kind of constant is read back, the two words of a long or double with the low one first |
| ParseEncode.AttributeBack | src/parser.c:206-229 | every attribute is read back, or skipped to its exact end |
| ParseEncode.CodeBack | src/parser.c:172-204 | a Code attribute is read back with its nested attributes, its exception table skipped |
| ClassBytes.ConstantTags | src/parser.c:61-150 | each tag: how many bytes its constant takes and what they are, and the tags that are refused |
| ClassBytes.Utf8Bytes | src/parser.c:134-147 | a Utf8 constant has its characters in its bytes |
| ClassBytes.TakesTwoIndices | src/parser.c:65-69 | tags 5 and 6 take the next index too, and no other tag does |
| ClassBytes.HeadBytes | src/parser.c:429-440 | the magic number in either byte order, and the versions |
| ClassBytes.AttributeBytes | src/parser.c:172-229 | where the parts of an attribute lie, by its name |
| ClassBytes.MemberBytes | src/parser.c:238-297 | where the parts of a field or method lie |
| ClassBytes.ClassIndices | src/parser.c:441-460 | where flags, class and superclass lie behind the pool |
| ClassParser.EntriesByTag | src/parser.c:61-150 | what the resolver finds in an entry, by its tag |
| ClassParser.Parser.ParseConstant | src/parser.c:63-150 | one constant at the current position, or none for a second index; a Utf8 entry gets the string pool's own string |
| ClassParser.Parser.ParseConstantPool | src/parser.c:306-317 | the loop gives the pool, position and flag of the reference parser, and every Utf8 entry is interned |
| ClassParser.Parser.ParseAttribute | src/parser.c:206-229 | the attribute and position of the reference parser, and the shortcut of the method being parsed points to the last Code attribute in it |
| ClassParser.Parser.ParseCode | src/parser.c:172-204 | the same for a Code attribute, which links itself before it parses what is nested in it |
| ClassParser.Parser.ParseField | src/parser.c:238-262 | a field with the string pool's pointers for its name and signature |
| ClassParser.Parser.ParseMethod | src/parser.c:271-297 | a method with the string pool's pointers for its name and signature, its argument words, and shortcuts redirected to it |
| ClassParser.Parser.MakeClassFile | src/parser.c:433-465 | the class file structure of a parsed class: its name, the names of its members and the Utf8 entries are the string pool's own strings |
| ClassParser.Parser.ParseFile | src/parser.c:423-465 | the class, position and flag of the reference parser or its error, the shortcuts of the whole class, and every name of the class, its members and its pool interned |
| ClassParser.Parser.Load | src/parser.c:472-506 | from the bytes of a file to what the resolver takes: a class that parses is loadable under its name as soon as the indices of its constant pool are right |
| ClassParser.NamesComeFromThePool | src/parser.c:249-250 | every name and signature of a parsed class is a string of its constant pool, and every method has the count of its argument words |
| Links.ShortcutOf | src/parser.c:165-180 | a method's shortcut points to the last Code attribute parsed within it, or for the last method to one of the class itself |
| Links.ShortcutMeetsIntent | src/parser.c:177-180 | a method with exactly one Code attribute is linked to it if and only if none is nested in that one and, for the last method, the class has none of its own |
| Links.EarlierShortcutStays | src/parser.c:160-165 | the last method of the class parsed before keeps its shortcut if and only if no field has a Code attribute and a class without methods has none |

## Left out

- Floating-point arithmetic, conversions and comparisons and `fesetround`: float and double values are only
  moved; their instructions decode to `Floating`, which a certified program does not contain.
- The text that native methods print: a native call appends its method and arguments to an output trace.
- Files, the search along the class path, and read errors other than the end of the file: the parser gets a
  sequence of bytes.
- Byte order detection: the magic number is accepted in both orders and the rest read big-endian, as on a
  little-endian machine.
- Undefined behaviour of C: an index outside the constant pool or to a constant of the wrong kind, an attribute
  longer than 2^31 - 1 bytes, a pointer that was never set, and reading past the end of the file are error
  results; the C code goes on with whatever it finds.
- Resolution inside the interpreter: `Bytecode.Class` has the resolved entries as maps, which the coherence of
  `Resolution` justifies. Of loading, the interpreter only keeps which classes are in the ring and whether
  "<clinit>" is in the string pool; ldc of a class constant, which would load a class, is not modelled.
- A file that holds a class of another name than the one asked for: `Resolution.Loadable` takes the name to be
  the one asked for, as src/resolve.c:32 does.
- The addresses of arrays, code and classes: arrays are found by the address malloc delivered, code and classes
  by words that identify them.
- Objects, exceptions, garbage collection, instance methods and all opcodes that src/core.c maps to not_sup or
  no_inst: one halting error.
- free_string_pool, the other free functions than free_all_linked_classes, buffer sizes and leaks.
- The size of the allocation (src/options.c): `Interpreter.Machine.Step` asks for room instead of leaving a
  write past the end undefined; `Execution.DepthGivesRoom` says how much is enough.
- Logging, warnings, option parsing, test mode, opcode names, the Makefiles and the test programs.
- Execution.Execute: runs for a given number of instructions instead of for ever.
- Certificates.StepKeepsInv: the operand depth is exactly the certificate's only where native methods take no
  arguments or pop them, otherwise at least that; `StackUse.StepExcess` gives the difference.
- ClassParser.Parser.Load: that the indices of a constant pool point to entries of the right kind is asked for,
  since the code does not check it.
