# Sprout: what the toolchain computes

A Dafny model of the Sprout bytecode toolchain, with proofs. It covers three parts.

**Assembler and virtual machine.** The assembler (`tools/assembler/assembler.py`) turns labelled
functions into one big-endian image; the machine (`src/vm`) loads the image and runs it with a
byte-addressed `ip`, NaN-boxed 64-bit words and a stack that also carries raw saved words. The
model keeps the assembler as a class whose bytes, labels and patches change as lines are read
(`Assembler.dfy`), and the machine as a class over register, stack and table arrays
(`VirtualMachine.dfy`), each method proved against a function on values (`Assembly.dfy`,
`Machine.dfy`, `VmSpec.dfy`, `Loader.dfy`). Against them stands a reference machine that knows
neither bytes nor saved words: it counts instructions, branches to instruction indices and keeps
call frames in a list of their own (`Reference.dfy`). `Labels.dfy` says what a text consists of and
which texts assemble, `Binaries.dfy` gives the files the repository keeps of its assembled tests, word
for word (for `fibonacci.spbt`, which has no text beside it, with a text that assembles to it). `Manual.dfy` goes through the instruction set opcode by opcode, `Instructions.dfy` says what
instructions mean together; `Simulation.dfy` proves that every step of the
reference machine is one step of the machine on the image, and `Toolchain.dfy` puts the chain
together: assemble, load, run.

**Collector.** Bump allocation in chunks, the walk by object size, one-pass marking, evacuation
with forwarding words and patching of slots (`src/vm/Heap.cpp`). An object is its header and the
64-bit words behind it; what is stored behind the last object of a chunk is kept too, and what memory
holds where nothing was stored is a parameter. `Space.dfy` and `Collector.dfy` hold the heap and a
collection as functions, `HeapOps.dfy` the operations and their invariant, `HalfSpace.dfy`,
`Marking.dfy` and `VirtualMachine.dfy` the in-place version with mark flags, the list of slots and
the forwarding words. `Memory.dfy` and `Pictures.dfy` go below that to a memory of words, in which the
stores of `Heap.cpp` are carried out, and prove that memory holds the heap of the model throughout;
`Histories.dfy` carries this to every run of a loaded image. `Tracing.dfy` says which arrays the
collector traces, `Inhabited.dfy` gives concrete heaps. `TwinStates.dfy` and `Transparency.dfy` prove
that a program cannot notice which allocations collect or where its objects lie, `Pointers.dfy` that
pointers are never forged and, in live words, never dangle. `ArrayTest.dfy` runs the repository's
array test through all of this, for every array length.

**Lexer and parser.** Both are classes over a cursor (`Lexer.dfy`, `Parser.dfy`), proved against
functions of text and position. What they compute is stated without them: a text is blanks and
longest lexemes in alternation (`Lexemes.dfy`); an expression is a derivation of a stratified
grammar (`Grammar.dfy`); a program is a derivation of statements and skipped tokens
(`Programs.dfy`). Parsing finds exactly these. `Samples.dfy` shows particular texts: which operator
binds tighter, what each statement looks like, what is skipped and what is refused. A canonical
printer (`Printer.dfy`, `Formatter.dfy`) prints no bracket it does not need, and prints and parses
back at token level and, through the lexer, at text level (`Text.dfy`, `Compiler.dfy`).

A C++ operation whose behaviour the language leaves open gives the outcome `Undefined`; a method
that carries it out requires that outcome not to arise. A thrown exception gives `Throw`. The
memory allocator is a parameter: any function that returns chunks disjoint from those in use, or
nothing. So is what a chunk holds when it is handed out, and so are double operations, of which only
one thing is known: on doubles they give a finite number, an infinity or the quiet NaN without payload
(IEEE 754-2019, sections 6.2 and 7). Where the collector's trigger multiplies by 0.7 the model compares
10 · used with 7 · max, which is the same over the reals (`Machine.SevenTenths`).

Five places where the code does something a reader might not expect are kept and stated exactly:

- A label's definition is lower-cased and a reference to it is not. So a reference resolves exactly
  when it is, letter for letter, the lower-cased name on a label line of its function
  (`Labels.TextResolves`), a label line makes its own name resolvable exactly when the name has no
  upper-case letter (`Labels.LabelResolves`), and a text that defines and uses `Loop` does not
  assemble, while one that defines `Loop` and uses `loop` does (`Labels.LoopExample`).
- Elements of arrays are copied but never patched in the new space, so an element pointer that named
  an object names none after a collection (`Collector.ElementPointersDangle`). `Inhabited.KnotDangles`
  is a heap, made by two operations, in which that happens.
- An array's object is sized for one header while its payload begins with a second one
  (`src/vm/Heap.cpp:154-158`). With length n the object ends 24 + 8n bytes behind its start, type and
  length stand at 32, element i stands at 40 + 8i. So an element lies inside exactly when i + 2 < n
  (`Memory.ElementInside`). The last two, and the index equal to the length, which the bound check
  lets pass, lie behind: they are the header and the first payload word of the object there, if there
  is one (`Memory.LastElementsAreNextHeader`, `Memory.StoringBehind`; `Inhabited.ElementIsNextHeader`
  has n = 2), and otherwise free words that hold what is stored in them. An access to an array, within
  its bound check, is `Undefined` exactly when its word is another object's or lies past the chunk
  (`Memory.ElementReaches`), when its index is negative, or when it reads what was never stored, as
  the last two words are once the array has moved. With that, memory holds the heap of the
  model in every run, unless an array is made in the last 16 bytes of a chunk, where zeroing reaches
  past it (`Pictures.HeapIsPictured`, `Histories.VmHeapPictured`).
- For the same reason marking tests the wrong word for an array's element type: the first payload word,
  which belongs to the inner header and which making an array leaves as memory held it
  (`Tracing.NewArrayTraced`, `Pictures.NewArraySourceTraced`). An array made with the pointer type in
  zeroed memory is not traced (`Inhabited.PointerArrayUntraced`); an int array made where memory held
  the int 2 is, far past its end (`Inhabited.IntArrayTraced`); and the index equal to the length of the
  array before it stores into that word (`Inhabited.ElementIsNextHeader`). In memory that is handed
  out untagged, that is with no word whose low half is the pointer tag, as zeroed memory is, and as
  long as stores stay inside their objects, no array is ever traced, whatever its type, and exactly
  what registers and live stack name is kept (`Tracing.NothingEverTraced`,
  `Histories.TameRunsTraceNothing`). The results that need memory to be untagged are these two,
  `Transparency.CollectorTransparent`, `Pointers.VmCollectorTransparent`,
  `Toolchain.SettledIsDisciplined`, `Toolchain.FaithfulIsDecided` and, where it compares with a
  settled run, `Toolchain.AssembleAndRun`. All others hold whatever memory held; where tracing leaves
  an object, a collection is `Undefined`.
- Integer division wraps in one case, the minimum over −1 (`Words.DivisionExact`).

`Sprout_lang.ebnf` describes statements and operators that the parser does not have; the model
follows the parser.

## Model

| member | source | states |
|---|---|---|
| Words.Box | src/shared/values.h:58-78 | a boxed word is no double, carries exactly its tag and gives its payload back modulo 2^48 |
| Words.Wrap48 | src/shared/values.h:63-67 | the signed 48-bit number congruent to the argument, and the argument itself when it fits |
| Words.BoxingRoundTrip | src/shared/values.h:58-82 | ints, pointers and bools decode to what was encoded, and ints and bools never test as pointers |
| Words.SmallWordsAreDoubles | src/shared/values.h:21-24 | saved frame pointers and return addresses, being below 2^52, read as doubles and never as pointers |
| Words.WordFields | src/shared/values.h:21-82 | the class of a word by sign, exponent, tag and payload: a double unless the exponent is 7FF, then an int, pointer, bool or text for tags 1 to 4; and what each decodes to |
| Words.BoxedWords | src/shared/values.h:58-78 | the words of ints, pointers and bools, bit by bit |
| Words.IntOpExact | src/vm/execution.h:17-79 | one operation on boxed ints gives a boxed int holding the signed wrap of the true result, and the true result when it fits in 48 bits |
| Words.AddSubDefined | src/vm/execution.h:23-27 | addition and subtraction of boxed ints never overflow 64 bits |
| Words.TruncDivMagnitude | src/vm/execution.h:74 | division truncates toward zero: the quotient of the magnitudes, with the sign of the true quotient |
| Words.DivisionExact | src/vm/execution.h:71-75 | division is defined exactly for a non-zero divisor and exact except that the minimum over -1 wraps to the minimum |
| Words.ExpressionExact | src/vm/execution.h:17-63 | any expression of additions, subtractions and products on boxed ints is the wrap of its value over the integers |
| Bytes.ReadPacked | src/vm/vm.h:40-46 | four big-endian bytes are fetched back as the packed number modulo 2^32, wherever they lie |
| Bytes.ReadPacked64 | src/vm/vm.h:62-64 | eight packed bytes are fetched back as the 64-bit word, high half first |
| Isa.FetchEncoded | src/vm/decode.h:16-39 | the word at an encoded instruction decodes to its fields; the eight or four bytes after it are the immediate or the branch address |
| Isa.OpcodesDistinct | tools/assembler/assembler.py:134-157 | no two mnemonics and conditions share an opcode |
| Isa.CallIndex | src/vm/execution.h:147-148 | the three operand bytes of call give the 24-bit function index back |
| Literals.LiteralsArePlain | tools/assembler/assembler.py:108-130 | no literal encodes to a pointer-tagged word: not a boxed one, and not a finite number, an infinity or the quiet NaN |
| Literals.CharsRoundTrip | tools/assembler/assembler.py:99-105 | a text of up to six characters is read back from the boxed word, zero-padded |
| Literals.LiteralWords | tools/assembler/assembler.py:79-130 | null, true and false are one word each, an int keeps its low 48 bits below 7FF1, a double is loaded unchanged, and exactly texts of more than six characters have no word |
| Literals.CharsWord | tools/assembler/assembler.py:99-105 | six characters stand in the payload of 7FF4, the first in the lowest byte |
| Isa.PackInstrBytes | tools/assembler/assembler.py:163-176 | an instruction word is four bytes: opcode, then the three operands |
| Assembly.FeedFails | tools/assembler/assembler.py:234-246 | the first offending line decides the error, whatever follows |
| Labels.FeedRefuses | tools/assembler/assembler.py:248-378 | a line is refused exactly where it may not stand, for a text of more than six characters, or for a function index past 24 bits; and with which error |
| Labels.FuncBody | tools/assembler/assembler.py:248-353 | a function consists of the instructions of its lines, in order, and of no others |
| Labels.LineStands | tools/assembler/assembler.py:275-350 | each line adds its own instruction: a call its index, a load its register and the word of its literal, any other line the instruction written there |
| Labels.FuncNamed | tools/assembler/assembler.py:355-372 | a function has the name and frame size of the line that opens it |
| Labels.LabelPosition | tools/assembler/assembler.py:259-264 | a label stands before the instruction that follows the last line defining it |
| Assembly.LowerFolds | tools/assembler/assembler.py:249-264 | lower-casing moves the letters A to Z 32 codes up and keeps every other character |
| Assembly.LabelsAreLower | tools/assembler/assembler.py:259-264 | defined labels have no upper-case letters |
| Labels.LabelsAndBranches | tools/assembler/assembler.py:259-300 | a function has exactly the labels its label lines name, lower-cased, and branches to exactly the names its branch lines give |
| Labels.TextResolves | tools/assembler/assembler.py:294-300 | every branch of a text resolves exactly when its target is, letter for letter, the lower-cased name on a label line of the same function |
| Labels.LabelResolves | tools/assembler/assembler.py:259-264 | a label line makes a reference resolvable when the reference is its name with the letters A to Z moved 32 codes up, and, where it is the only label, exactly then; so its own name exactly when the name has no upper-case letter |
| Labels.TextAssembles | tools/assembler/assembler.py:384-448 | a well-formed text assembles exactly when every branch target is the lower-cased name of a label of its function and the addresses fit |
| Labels.FaultIs | tools/assembler/assembler.py:414-422 | where all labels are defined what is reported is an address past 32 bits, where all addresses fit an undefined label |
| Labels.MixedCaseNeverAssembles | tools/assembler/assembler.py:414-422 | a well-formed text with a branch to a name with an upper-case letter does not assemble |
| Labels.LoopExample | tools/assembler/assembler.py:259-300 | a text that defines and uses the label `Loop` is well-formed and does not assemble; with the reference spelled `loop` it does |
| Assembly.TextLoadsPlain | tools/assembler/assembler.py:275-280 | whatever a text loads is not pointer-tagged |
| Assembly.FlatAt | tools/assembler/assembler.py:406-422 | instruction k of function n stands at its place in the flat code with its label resolved inside that function |
| Assembly.ResolveValid | tools/assembler/assembler.py:408-422 | every branch target and function entry is an instruction index or the end of the code |
| Assembly.ImageLength | tools/assembler/assembler.py:448 | the image ends at the address after the last instruction |
| Assembly.ImageAt | tools/assembler/assembler.py:431-448 | the bytes at the address of instruction k are its encoding with the absolute address of its label |
| Assembly.FrontAt | tools/assembler/assembler.py:424-446 | word k of the image is word k of header and function table |
| Chunks.JoinUpdate | tools/assembler/assembler.py:422 | overwriting one instruction by one of equal size changes exactly its bytes in the whole |
| Layout.LinkedProgram | tools/assembler/assembler.py:406-448 | functions laid out separately and joined are the code section of the resolved program |
| Assembler.Assembler.BeginFunc | tools/assembler/assembler.py:355-372 | opens an empty function, or fails inside another one |
| Assembler.Assembler.EndFunc | tools/assembler/assembler.py:374-378 | closes the open function, or fails |
| Assembler.Assembler.DefineLabel | tools/assembler/assembler.py:259-264 | the label with the letters A to Z moved 32 codes up names the current byte offset, that is the current instruction, and no other label is added or changed |
| Assembler.Assembler.Emit | tools/assembler/assembler.py:275-350 | the bytes of one instruction are appended, with a patch for a branch |
| Assembler.Assembler.HandleLine | tools/assembler/assembler.py:248-353 | the assembler after a line stands for the source after that line, with the same error |
| Assembler.Assembler.PackIntoRaw | tools/assembler/assembler.py:422 | four bytes of the function are overwritten and nothing else |
| Assembler.Assembler.PatchBlock | tools/assembler/assembler.py:414-422 | all patches of one function are filled in exactly when every branch has its label and a 32-bit address; otherwise the first branch without decides which of the two errors is reported |
| Assembler.Assembler.LayOut | tools/assembler/assembler.py:408-412 | base address of every function |
| Assembler.Assembler.ResolvePatches | tools/assembler/assembler.py:414-422 | after patching, every function holds its encoded instructions with absolute targets; or the error is that of the first bad branch of the first function that has one |
| Assembler.Assembler.FunctionTable | tools/assembler/assembler.py:424-429 | entry address and frame size of every function |
| Assembler.Assembler.CodeSection | tools/assembler/assembler.py:431-434 | the functions one after the other |
| Assembler.Assembler.EmitBinary | tools/assembler/assembler.py:384-448 | emission succeeds exactly when every label is defined and every address fits, and then gives the image of the resolved program; otherwise it reports the first bad branch, or code starting past 32-bit addresses |
| Assembler.Assembler.Assemble | tools/assembler/assembler.py:227-246 | a text assembles exactly when its lines are well-formed and emittable, to the image of its resolved program; otherwise the first bad line or the first bad branch decides the error |
| Binaries.SproutFile | tests/asm_source/print_sprout.asm:6-11 | the text assembles, word for word, to tests/hand_assembled/print_sprout.spbt |
| Binaries.EulerFile | tests/asm_source/euler.asm:14-39 | the text assembles, word for word, to tests/hand_assembled/euler.spbt |
| Binaries.FibFile | tests/asm_source/fib-optimized.asm:1-28 | the text assembles, word for word, to tests/hand_assembled/fib-optimized.spbt |
| Binaries.CollatzFile | tests/asm_source/collatz.asm:16-58 | the text assembles, word for word, to tests/hand_assembled/collatz.spbt |
| Binaries.FibonacciFile | tools/assembler/assembler.py:302-312 | a text of two functions, one calling itself, assembles, word for word, to tests/hand_assembled/fibonacci.spbt |
| ArrayTest.TestFile | tests/asm_source/array_test.asm:1-49 | the text assembles, word for word, to tests/hand_assembled/array_test.spbt |
| VmSpec.RunForChooses | src/vm/Heap.cpp:50-57 | the run the trigger makes is one of the runs that collect at given allocations, of full length unless it stops |
| Machine.SevenTenths | src/vm/Heap.cpp:50-57 | an allocation collects first exactly when the bytes in use exceed 0.7 times the maximum |
| VmSpec.RunForCollects | src/vm/Heap.cpp:50-57 | step k of the run the trigger makes collects exactly when the bytes in use after k steps exceed 0.7 times the maximum |
| VirtualMachine.VM.DueAtSevenTenths | src/vm/Heap.cpp:50-57 | the same for the machine class |
| Machine.CollectionDefined | src/vm/Heap.cpp:138-150 | a collection is defined exactly when every pointer in registers and live stack, and every word tracing takes for one, names an object, and tracing stays inside objects |
| VirtualMachine.VM.constructor | src/main.cpp:4 | the zero-initialised machine |
| VirtualMachine.VM.Fetch | src/vm/vm.h:40-46 | the word at ip, and ip four further |
| VirtualMachine.VM.Fetch64 | src/vm/vm.h:62-64 | two words, the high one first |
| VirtualMachine.VM.FetchAtAddr | src/vm/vm.h:48-53 | the word at an address, or the exception past the end |
| VirtualMachine.VM.FetchFuncMetadata | src/vm/vm.h:55-60 | entry address and low sixteen bits of the frame size |
| VirtualMachine.VM.LoadFunctionTable | src/vm/bytecode.cpp:63-70 | the loop fills the table as the loading function says, or throws as it does |
| VirtualMachine.VM.Init | src/vm/vm.cpp:10-28 | header and table loaded and the machine standing at the code, or the exception for a bad file |
| VirtualMachine.VM.Arith | src/vm/execution.h:17-79 | one arithmetic instruction, on two doubles with its operands in order, or the exception for mixed operands |
| VirtualMachine.VM.Compare | src/vm/execution.h:99-125 | the jump flag after a comparison, or the exception |
| VirtualMachine.VM.Jump | src/vm/execution.h:127-145 | ip at the target, or past the operand |
| VirtualMachine.VM.PushWord | src/vm/decode.cpp:5-7 | the word on top of the stack |
| VirtualMachine.VM.PopWord | src/vm/decode.cpp:9-11 | the word that was on top |
| VirtualMachine.VM.Call | src/vm/execution.h:147-155 | saved fp and ip, new frame, ip at the function |
| VirtualMachine.VM.Ret | src/vm/execution.h:157-161 | frame dropped, ip and fp restored |
| VirtualMachine.VM.Push | src/vm/execution.h:163-165 | a register on the stack |
| VirtualMachine.VM.Pop | src/vm/execution.h:166-168 | the top of the stack in a register |
| VirtualMachine.VM.InsertIntoStack | src/vm/execution.h:170-173 | one stack slot replaced |
| VirtualMachine.VM.ReadFromStack | src/vm/execution.h:175-178 | one stack slot read |
| VirtualMachine.VM.Mov | src/vm/execution.h:180-190 | a register copied, for flags other than 1 to 3 |
| VirtualMachine.VM.LoadIntoReg | src/vm/execution.h:81-84 | the immediate in a register |
| VirtualMachine.VM.Print | src/vm/execution.h:86-97 | ints, doubles and six-character texts are printed, nothing else is |
| VirtualMachine.VM.DebugReturn | src/vm/execution.cpp:77-79 | prints and goes on |
| VirtualMachine.VM.End | src/vm/execution.cpp:71-76 | prints, stops, frees both heaps |
| VirtualMachine.VM.InitArray | src/vm/Heap.cpp:152-160 | a zeroed array after the collection that was due, its address boxed in the register, the two words of its inner header as memory held them, its last two words behind the object; bad_alloc otherwise |
| VirtualMachine.VM.MoveArray | src/vm/Heap.cpp:162-171 | one element written or read, inside the object or free behind it, or the bounds exception |
| VirtualMachine.VM.Execute | src/vm/execution.cpp:9-84 | the dispatch carries out the instruction the opcode names |
| VirtualMachine.VM.Step | src/vm/vm.cpp:31-37 | fetch, decode, execute is one step of the machine as a function, collecting exactly when the trigger says |
| VirtualMachine.VM.Run | src/vm/vm.cpp:30-37 | the loop makes the run of that many steps, or stops where it stops |
| Instructions.ArithMeaning | src/vm/execution.h:17-79 | on two ints the destination holds the wrapped result of the operation on its operands in order, and nothing else changes |
| Instructions.ArithThrows | src/vm/execution.h:28-30 | the exception is thrown exactly for operands that are neither both doubles nor both ints |
| Instructions.ArithOnDoubles | src/vm/execution.h:17-79 | on two doubles the destination holds what the operation gives for them in this order, and nothing else changes |
| Instructions.MovCopies | src/vm/execution.h:188 | the destination holds the source register, and nothing else changes |
| Instructions.CompareThrows | src/vm/execution.h:99-125 | comparing throws exactly for operands that are not both doubles, both ints or both bools |
| Instructions.CompareThenJump | src/vm/execution.h:99-145 | after comparing ints each conditional jump is taken exactly when its relation holds |
| Instructions.CompareOthers | src/vm/execution.h:99-125 | bools decide equality only; an unordered pair of doubles satisfies jne alone |
| Instructions.PushThenPop | src/vm/execution.h:163-168 | what is pushed is popped |
| Instructions.InsertThenRead | src/vm/execution.h:170-178 | a slot reads as what was inserted there, any other slot as before |
| Instructions.CallThenReturn | src/vm/execution.h:147-161 | returning at once restores ip, fp, sp and everything below |
| Instructions.WriteThenRead | src/vm/Heap.cpp:162-171 | an element reads as what was written there, every other element of every array as before |
| Instructions.AccessThrows | src/vm/Heap.cpp:162-171 | an access throws exactly when the index is above the length |
| Instructions.NewArrayFields | src/vm/Heap.cpp:152-160 | the fields word of a new array holds the length above and the low 32 bits of the type below |
| Instructions.NewArrayIsNew | src/vm/Heap.cpp:152-160 | a new array is a pointer to a fresh object, and no other object changes |
| Instructions.NewArrayReads | src/vm/Heap.cpp:152-171 | all its elements that lie in the chunk read zero, the last two included, and reading past its length throws |
| Manual.ArithDoubles | src/vm/execution.h:17-79 | opcodes 0 to 3 on two doubles: the machine goes on behind the word with the result of add, sub, mul or div in the first register |
| Manual.ArithInts | src/vm/execution.h:17-79 | on two ints: the boxed sum, difference, product or truncated quotient modulo 2^48; undefined exactly for division by zero and products past 64 bits |
| Manual.ArithThrown | src/vm/execution.h:28-30 | on any other operands: the exception |
| Manual.DbgRetPrints | src/vm/execution.cpp:77-79 | opcode 7 prints an int as its number, a double as it is, a text as its six bytes, anything else not at all, and goes on |
| Manual.EndPrints | src/vm/execution.cpp:71-76 | opcode 4 prints likewise, halts and empties both heaps |
| Manual.CharsPrint | src/vm/execution.h:93-96 | a loaded text of up to six characters prints as these characters, zero-padded |
| Manual.Loads | src/vm/execution.h:81-84 | opcode 5 puts the eight bytes behind it in its register and goes on behind them |
| Manual.CmpFlags | src/vm/execution.h:99-125 | opcode 6 sets the flag to 1, -1, 2 or 0, or throws |
| Manual.Jumps | src/vm/execution.h:127-145 | opcodes 8 to 11 jump on flag 1, not 1, -1 and 2, to the address behind them or past it |
| Manual.Calls | src/vm/execution.h:147-155 | opcode 12 saves fp and the address behind it, opens a frame and jumps to the entry of the function with the 24-bit index |
| Manual.Returns | src/vm/execution.h:157-161 | opcode 13 goes to what is saved below fp and takes fp from below that |
| Manual.PushesAndPops | src/vm/execution.h:163-168 | opcodes 14 and 15 push a register and pop into one |
| Manual.InsertsAndReads | src/vm/execution.h:170-178 | opcodes 16 and 17 with bytes a, b write and read stack slot 256 a + b and no other |
| Manual.Moves | src/vm/execution.h:180-190 | opcode 18 copies its second register to its first |
| Manual.MakesArray | src/vm/Heap.cpp:152-160 | opcode 19 leaves a pointer to a fresh array, its length from the second register, its type from the third |
| Manual.ArrayLengths | src/vm/Heap.cpp:152-160 | it does so for every length up to 524285 unless memory runs out, and is undefined for any other |
| Manual.CollectsFirst | src/vm/Heap.cpp:50-57 | with a collection, registers and stack below sp are its roots and are forwarded, and the array is made in the heap that is left |
| Manual.Arrays | src/vm/execution.cpp:62-70 | opcodes 19 to 21 take their operands in this order |
| Manual.NoSuchOpcode | src/vm/execution.cpp:80-82 | exactly numbers above 21 are no instructions |
| Manual.RefArithDoubles | src/vm/execution.h:17-79 | the reference machine computes on doubles likewise |
| Manual.RefMoves | src/vm/execution.h:180-190 | and copies registers likewise |
| Manual.RefInsertsAndReads | src/vm/execution.h:170-178 | and writes and reads stack slot 256 a + b, outside saved words |
| Manual.RefJumps | src/vm/execution.h:127-145 | and jumps on the same flags |
| Manual.RefCalls | src/vm/execution.h:147-155 | and calls wherever the index is in the table and the stack has room |
| Manual.RefPrints | src/vm/execution.h:86-97 | and prints likewise |
| Reference.StepKeepsOuterFrames | src/vm/execution.h:147-161 | no step touches frames below the top one, and leaving a frame restores its return position, fp and sp |
| Reference.CallReturns | src/vm/execution.h:147-161 | after a call and any nesting of calls inside it, the step that leaves it finds position, fp, sp and frames of the caller, whatever was left pushed |
| Simulation.FetchInstr | src/vm/vm.h:40-46 | at the address of instruction k the machine decodes the fields of instruction k, and its operand |
| Simulation.SimStep | src/vm/execution.cpp:9-84 | each step of the reference machine is exactly one fetch, decode and execute on the image, with related registers, flag, output, heap, stack and frames |
| Simulation.SimRun | src/vm/vm.cpp:30-37 | any run prints the same, throws the same, and halts at the same point on both machines; ip stays on instruction boundaries |
| Loader.HeaderRoundTrip | src/vm/bytecode.cpp:32-61 | the header of an image reads back as its offsets and counts |
| Loader.EntryRoundTrip | src/vm/vm.h:55-60 | entry j reads back as its address and the low sixteen bits of its frame size |
| Loader.TableRoundTrip | src/vm/bytecode.cpp:63-70 | the loaded table holds every entry |
| Loader.LoadImage | src/vm/vm.cpp:10-28 | a loaded image stands in the relation the simulation starts from |
| Loading.HeaderRefused | src/vm/bytecode.cpp:32-61 | a file of fewer than 32 bytes, or whose first eight are not 53 50 52 54 00 00 00 01, is refused; any other header is taken |
| Loading.AddressRefused | src/vm/vm.h:48-53 | exactly an address past the end throws; a word that ends past it is undefined |
| Loading.LoadedState | src/vm/vm.cpp:10-28 | a loaded machine stands at the last word of the header, with zero registers and stack, no output, no heap and flag 2 |
| Loading.LoadedTable | src/vm/bytecode.cpp:63-70 | entry j is the two words at 8 j behind the function offset, of the second the low half; the others are zero |
| Loader.AssembledTextRuns | src/vm/vm.cpp:30-37 | from assembly text to outcome: the loaded machine agrees with the reference machine for every number of steps and every choice of collections |
| Loader.DisassemblyRoundTrip | src/vm/decode.h:16-39 | linear decoding from the code offset gives exactly the emitted instructions, every branch word the absolute address of its label |
| Toolchain.AssembleAndRun | src/vm/vm.cpp:10-37 | assembling, loading and running a text ends with status and output of the reference machine under some choice of collections, and of any one tame run it makes in untagged memory, unless memory runs out |
| Toolchain.SettledIsDisciplined | src/vm/Heap.cpp:50-57 | one tame run in untagged memory that is defined and within memory answers for all choices of collections on all allocators: none of them is undefined |
| Toolchain.FaithfulIsDecided | src/vm/Heap.cpp:50-57 | whatever was collected and wherever chunks were put, status and output are those of any tame run of that length, unless memory runs out |
| Space.WalkExact | src/vm/Heap.cpp:72-83 | the walk visits every object exactly once; objects are aligned and inside the address range |
| Space.ObjectsDisjoint | src/vm/Heap.cpp:30-48 | two objects never overlap |
| Space.PlaceOk | src/vm/Heap.cpp:30-48 | an allocation keeps every chunk parsing into whole objects, is at a fresh address and comes last in the walk |
| Space.PlaceFits | src/vm/Heap.cpp:30-48 | an object that ends within the 4 MiB of the last chunk goes behind what that chunk holds, any other to the start of a new chunk |
| Space.AlignIsLeast | src/vm/Heap.h:12-14 | sizes are rounded up to the next multiple of eight |
| Space.PlaceExtent | src/vm/Heap.cpp:30-48 | an allocation is one next-fit step and adds its size to the total |
| Space.AwayDisjoint | src/vm/Heap.cpp:18-27 | objects of spaces with disjoint chunks have different addresses |
| HalfSpace.Heap.AllocNewChunk | src/vm/Heap.cpp:19-28 | one more empty chunk, or none |
| HalfSpace.Heap.HeapAlloc | src/vm/Heap.cpp:30-48 | places one object as the placement function says and keeps totalAllocated the sum of used bytes |
| HalfSpace.Heap.FreeHeap | src/vm/Heap.cpp:59-65 | an empty space with total zero |
| HalfSpace.Heap.GetAllObjects | src/vm/Heap.cpp:72-83 | the nested loops list exactly the walk |
| Marking.SlotsExact | src/vm/Heap.cpp:85-108 | every slot holding a pointer is listed exactly once, no other is, and each target is marked; slots are registers, live stack and the words that the tracing loop goes through |
| Marking.NamedByAll | src/vm/Heap.cpp:95-106 | the loop over objects marks exactly what the words it goes through name, in the objects whose first payload word reads as the pointer tag |
| Marking.PatchedAll | src/vm/Heap.cpp:129-134 | once the listed slots are patched, so are all registers and the live stack |
| VirtualMachine.VM.MarkObject | src/vm/Heap.cpp:10-17 | the flag of the named object is set, if the word is a pointer |
| VirtualMachine.VM.MarkObjects | src/vm/Heap.cpp:85-108 | flags are set on exactly the objects named by a register, a live stack slot or a word that tracing goes through, and the slots are listed |
| VirtualMachine.VM.MoveObject | src/vm/Heap.cpp:117-122 | one marked object copied with all its bytes hold, its new address left in its forwarding word |
| VirtualMachine.VM.MoveObjects | src/vm/Heap.cpp:110-127 | all marked objects evacuated in walking order, or bad_alloc exactly when the function says |
| VirtualMachine.VM.UpdatePtrHolder | src/vm/Heap.cpp:129-136 | registers and live stack hold forwarded pointers, everything else is unchanged, the old space is empty |
| VirtualMachine.VM.CompactingGarbageCollect | src/vm/Heap.cpp:138-150 | the in-place collection is the collection as a function, and the heap invariant holds after it |
| VirtualMachine.VM.GcCollectedHeapAlloc | src/vm/Heap.cpp:50-57 | collects, and so changes over to the other heap, exactly when the bytes in use exceed 0.7 times the maximum; then places the object |
| Collector.EvacuateOk | src/vm/Heap.cpp:110-127 | evacuation copies the marked objects, one to one and in order, and nothing else |
| Collector.CollectOk | src/vm/Heap.cpp:110-150 | whatever was marked, after a collection the space holds exactly the copies of the marked objects, in walking order, at addresses not in use before |
| Inhabited.CollectionMoves | src/vm/Heap.cpp:138-150 | a heap, a root and an allocator for which a collection takes place and moves the object |
| Inhabited.PointerArrayUntraced | src/vm/Heap.cpp:95-101 | an array of any length made with the pointer type in zeroed memory is not traced |
| Inhabited.IntArrayTraced | src/vm/Heap.cpp:95-101 | an int array of any length made where memory held the int 2 is traced, past the end of its chunk |
| Inhabited.KnotMade | src/vm/Heap.cpp:152-171 | two heap operations make, from the empty heap and whatever its trace word held, an array that holds a pointer to itself |
| Inhabited.KnotDangles | src/vm/Heap.cpp:129-150 | a collection of that heap takes place, and the copied element names no object, whether the array was traced or not |
| Inhabited.ElementIsNextHeader | src/vm/Heap.cpp:95-169 | two arrays of two elements: element 0 of the first reads as the header of the second, and index 2 of the first is the word that decides whether the second is traced |
| Collector.RootPreserved | src/vm/Heap.cpp:117-134 | a root names an object of the same kind, size and contents as before; a non-pointer is untouched |
| Collector.RootsPreserved | src/vm/Heap.cpp:110-150 | the same for a whole collection whatever else is marked, and two roots alias afterwards exactly when they did before |
| Collector.ElementPointersDangle | src/vm/Heap.cpp:110-136 | an element that named an object names none after a collection, whatever was marked; an array whose element pointers all named objects comes through with all of them naming objects exactly when it held none |
| Collector.ScannedNames | src/vm/Heap.cpp:95-106 | in a heap that can be collected, whatever the tracing loop takes for a pointer names an object |
| Collector.NothingTraced | src/vm/Heap.cpp:85-108 | where no first payload word reads as the pointer tag, exactly what registers and live stack name is marked |
| Collector.MarkingCoversReachable | src/vm/Heap.cpp:85-108 | without a worklist, every object on every path from a root along the words that tracing goes through is marked |
| Collector.CompactionNeverCostsChunks | src/vm/Heap.cpp:110-127 | the survivors need no more chunks, no more of the last one, and no more bytes than before |
| HeapOps.NewArrayKeeps | src/vm/Heap.cpp:152-160 | a new array keeps the heap invariant, at a fresh address, and moves nothing |
| HeapOps.StoreKeeps | src/vm/Heap.cpp:169 | storing an element, inside its object or behind it, keeps the heap invariant |
| HeapOps.NewArrayHolds | src/vm/Heap.cpp:152-165 | type, length and zeros of a new array are where element access looks for them, the last two words behind the object as long as the chunk lasts |
| HeapOps.StoreRead | src/vm/Heap.cpp:162-171 | a word reads as what was last stored there, and every other word of every array as before |
| HeapOps.CollectKeeps | src/vm/Heap.cpp:110-150 | a collection keeps the heap invariant, whatever was marked |
| HeapOps.HeapInvariant | src/vm/Heap.cpp:30-171 | in every heap of every sequence of allocations, writes and collections: chunks parse, totals agree, marks and forwarding words are clear, the other space is empty |
| Memory.ElementInside | src/vm/Heap.cpp:152-165 | an element lies inside its object exactly when it is none of the last two, type and length exactly when there are two elements; zeroing ends 16 bytes behind the object, and the index equal to the length is the trace word of an object there |
| Memory.ReadPictured | src/vm/Heap.cpp:170 | what an array access reads in the model is the word memory holds |
| Memory.StorePictured | src/vm/Heap.cpp:162-169 | storing a word that is in reach updates the heap of the model, and no other object in memory changes |
| Memory.ElementReaches | src/vm/Heap.cpp:162-170 | for every index up to the length, the model carries out the access exactly when the word lies in the chunk of the array and in no other object; and it lies in one exactly when an object begins between the end of the array and the word |
| Memory.LastElementsAreNextHeader | src/vm/Heap.cpp:30-48 | with an object right behind, the last two elements read as its header, and the index equal to the length as its trace word |
| Memory.StoringBehind | src/vm/Heap.cpp:95-169 | any other value stored over that header destroys it, and what is stored over the trace word decides whether the object is traced |
| Memory.TracedInMemory | src/vm/Heap.cpp:95-106 | the test and the words of the tracing loop, read from memory, are those of the model |
| Tracing.NewArrayTraced | src/vm/Heap.cpp:95-159 | a new array is traced exactly when the word that already stood 16 bytes behind its start reads as the pointer tag, whatever its element type, and as far as the high half of that word says |
| Tracing.NothingEverTraced | src/vm/Heap.cpp:30-171 | along any run of allocations, stores inside their objects and collections, in memory handed out untagged, no array is traced and marking marks exactly what registers and stack name |
| Pictures.NewArraySourceTraced | src/vm/Heap.cpp:95-159 | on memory, initialising an array leaves the outcome of the tracing test as it was, for any element type |
| Pictures.NewArrayPictured | src/vm/Heap.cpp:21-48 | making an array in memory, in a new chunk or an old one, adds its record exactly when none of the older objects begins in the 16 bytes behind it |
| Pictures.RoomBehind | src/vm/Heap.cpp:30-48 | that is so whenever the chunk has 16 bytes to spare |
| Pictures.LastElementsAreLeft | src/vm/Heap.cpp:117-122 | a move leaves the last two elements behind |
| Pictures.MoveOne | src/vm/Heap.cpp:117-122 | header, memcpy and, where needed, a new chunk for one object keep the old objects in memory and add the copy |
| Pictures.CollectPictured | src/vm/Heap.cpp:110-127 | moving size - 16 bytes of every marked object, whichever are marked, is the collection of the model |
| Pictures.HeapIsPictured | src/vm/Heap.cpp:21-171 | at every moment of every run of allocations, stores and collections memory holds the heap of the model, behind the objects too, if every array was made with 16 bytes to spare in its chunk |
| Histories.RunIsHistory | src/vm/execution.cpp:9-84 | what any run of a program does to the heap is a run of allocations, stores and collections |
| Histories.VmHeapPictured | src/vm/Heap.cpp:21-171 | so memory holds the heap of the loaded machine in every state of every run of an image |
| Histories.TameRunsTraceNothing | src/vm/Heap.cpp:85-108 | in untagged memory a tame run traces nothing: its collections keep exactly what registers and live stack name |
| TwinStates.StepTwin | src/vm/execution.cpp:9-84 | one tame step keeps two machines twins, whichever of them collect, on whatever allocators |
| Transparency.CollectorTransparent | src/vm/Heap.cpp:50-57 | two runs of a tame program in untagged memory that collect at different allocations, on allocators that put chunks at different addresses, agree in outcome, output, flag, position, frames, and live words up to moved addresses |
| Pointers.VmCollectorTransparent | src/vm/Heap.cpp:50-57 | the same for the loaded byte-level machine |
| Pointers.PointersAreLive | src/vm/Heap.cpp:85-94 | in every state of a run that stays tame, whatever it collects, every pointer-tagged register and live stack slot names an object in the heap |
| Pointers.VmPointersAreLive | src/vm/Heap.cpp:85-94 | the same for the loaded machine, saved words included |
| Pointers.VmRunKeepsHeap | src/vm/Heap.cpp:138-171 | the heap invariant holds in every state of every run of a loaded image |
| Pointers.NeverForged | src/shared/values.h:34-36 | every pointer-tagged word in registers, stack or arrays is a handle the heap held at some moment of the run |
| Pointers.VmNeverForged | src/vm/execution.h:147-155 | the same for the loaded machine, saved words included |
| Pointers.AssembledTextForgesNothing | tools/assembler/assembler.py:275-280 | the same from assembly text on |
| ArrayTest.ArraySum | tests/asm_source/array_test.asm:1-49 | with any length that fits a chunk, and whatever collections are asked for, the reference machine fills the array, last elements included, adds it up and halts after printing n(n - 1) |
| ArrayTest.ArrayTestPrints | tests/asm_source/array_test.asm:14-49 | so does the loaded machine on the image of the text |
| ArrayTest.ExpectedResult | tests/asm_source/array_test.asm:6-12 | with the length of the test the sum printed is the one it expects |
| Tokens.SpellingIsLexeme | src/compiler/lexer.cpp:18-117 | every symbol and keyword is lexed from its own spelling |
| Tokens.OnlySpelling | src/compiler/lexer.cpp:18-118 | a text of the kind of a symbol or keyword is its spelling |
| Tokens.Unspelled | src/compiler/lexer.cpp:18-121 | a word that is no spelling is an identifier, another single character unknown |
| Tokens.OnlyNumbers | src/compiler/lexer.cpp:33-41 | numbers are digits, with or without a fraction, and nothing else |
| Tokens.CharClasses | src/compiler/lexer.h:56-66 | whitespace, letters, digits and comments by character code |
| Lexing.SkipBlank | src/compiler/lexer.h:56-66 | skipping stops at the end or before something that is neither whitespace nor a comment |
| Lexing.NextToken | src/compiler/lexer.cpp:8-121 | every token but the end makes progress inside the text |
| Lexer.Source.TakeWhile | src/compiler/lexer.cpp:16 | the longest run of one character class |
| Lexer.Source.SkipWhiteSpace | src/compiler/lexer.h:56-66 | past whitespace and comments |
| Lexer.Source.NextToken | src/compiler/lexer.cpp:8-121 | the next token and the position after it |
| Lexer.Source.Number | src/compiler/lexer.cpp:33-41 | digits, and a fraction when a digit follows the point |
| Lexer.Source.Symbol | src/compiler/lexer.cpp:43-121 | the token of two characters, or of one; with its spelling as content, or unknown and spelled by no token |
| Lexer.Source.Tokenize | src/compiler/lexer.cpp:123-131 | all tokens up to the end |
| Lexemes.TokenIsLongest | src/compiler/lexer.cpp:8-121 | every token is a lexeme of its kind and no longer text at its place is one |
| Lexemes.LexerMeaning | src/compiler/lexer.cpp:123-131 | a token list is the result exactly when the text is laid out as its longest lexemes with blanks between |
| Lexemes.TokensSpelled | src/compiler/lexer.cpp:12-128 | in the tokens of any text without directives, a symbol or keyword has its spelling as content, an identifier is a word and an unknown token a character that are no spelling |
| Lexemes.LexingIsLossless | src/compiler/lexer.cpp:123-131 | blanks and token contents put back in order are the text |
| Lexemes.RenderRoundTrip | src/compiler/lexer.cpp:123-131 | any lexemes, written with spaces, are lexed back |
| Numerals.DecimalRoundTrip | src/compiler/parser.cpp:14 | every 64-bit number is read back from its decimal text |
| Samples.StollReads | src/compiler/parser.cpp:14 | of a number the digits before anything else are read, or the exception past 64 bits |
| Samples.NumberExpr | src/compiler/parser.cpp:11-15 | a number token gives its integer part, or the exception |
| Parsing.ParseAt | src/compiler/parser.cpp:56-113 | every expression parser fails or moves strictly forward, never past the end |
| Parsing.ParseArgs | src/compiler/parser.cpp:23-30 | the argument loop ends on every token vector |
| Parsing.ParseBody | src/compiler/parser.cpp:136-151 | the block loop ends on every token vector |
| Parsing.ParseProgram | src/compiler/parser.cpp:172-186 | parsing a program ends at the end of every token vector or fails |
| Parser.TokenSource.Expect | src/compiler/parser.h:27-33 | the expected token, or one of two exceptions without moving |
| Parser.TokenSource.ParsePrimary | src/compiler/parser.cpp:8-54 | tree and position of the primary level, or its exception |
| Parser.TokenSource.ParseArguments | src/compiler/parser.cpp:19-30 | the argument list and its end |
| Parser.TokenSource.ParseUnary | src/compiler/parser.cpp:56-64 | tree and position of the unary level |
| Parser.TokenSource.ParseMultiplicative | src/compiler/parser.cpp:66-75 | the loop builds the left-associated chain of its level |
| Parser.TokenSource.ParseAdditive | src/compiler/parser.cpp:77-86 | the loop builds the left-associated chain of its level |
| Parser.TokenSource.ParseComparison | src/compiler/parser.cpp:88-98 | the loop builds the left-associated chain of its level |
| Parser.TokenSource.ParseLogical | src/compiler/parser.cpp:100-109 | the loop builds the left-associated chain of its level |
| Parser.TokenSource.ParseVarDecl | src/compiler/parser.cpp:121-134 | name and value of a declaration, skipping one token after an arrow |
| Parser.TokenSource.ParseBlock | src/compiler/parser.cpp:136-154 | the statements of a block |
| Parser.TokenSource.ParseIfStmt | src/compiler/parser.cpp:157-170 | condition, block and optional else block |
| Parser.TokenSource.ParseProgram | src/compiler/parser.cpp:172-186 | the statements of a program |
| Grammar.WholeComplete | src/compiler/parser.cpp:8-113 | every derivation that the next token cannot extend is found, with its tree and its end |
| Grammar.ParseSound | src/compiler/parser.cpp:8-113 | whatever is parsed has a derivation in the stratified grammar, chains left-associated |
| Grammar.ParseMeaning | src/compiler/parser.cpp:8-113 | parsing at a level gives a tree and an end exactly when a derivation does |
| Grammar.Unambiguous | src/compiler/parser.cpp:8-113 | a position reads as one tree and one end |
| Programs.ProgramSound | src/compiler/parser.cpp:121-186 | whatever is parsed as a program has a derivation from statements and skipped tokens |
| Programs.ProgramMeaning | src/compiler/parser.cpp:121-186 | a token vector parses to a program exactly when the grammar derives it |
| Samples.Precedence | src/compiler/parser.cpp:56-109 | of two operators between three names the tighter takes its operands first, of equal ones the left; and, or are loosest, then == != > <, then + -, then * /, and nothing else is an operator |
| Samples.Prefixes | src/compiler/parser.cpp:53-64 | minus and not are the unary operators; what starts no expression is refused |
| Samples.Declares | src/compiler/parser.cpp:121-134 | declarations, with and without an arrow and the token behind it |
| Samples.Ifs | src/compiler/parser.cpp:157-170 | condition, block and else block of an if statement |
| Samples.Calls | src/compiler/parser.cpp:19-34 | calls with no, one and two arguments; without a separator the exception |
| Samples.AssignsAndBrackets | src/compiler/parser.cpp:36-51 | assignments, and expressions in brackets, closed or not |
| Samples.Skips | src/compiler/parser.cpp:143-149 | exactly var, an opening bracket, if and a name start a statement; any other token is skipped |
| Samples.Refuses | src/compiler/parser.cpp:121-160 | what follows var, if and an opening bracket, or the exception |
| Samples.AmpersandText | src/compiler/lexer.cpp:67-71 | `var x = a & b` is a declaration of x as a and, behind an unknown token, the statement b |
| Samples.SecondDot | src/compiler/lexer.cpp:33-41 | 1.5.x is a number, an unknown token and a name |
| Samples.CommentText | src/compiler/lexer.h:56-66 | a comment ends with its line |
| Samples.Directives | src/compiler/lexer.cpp:91-104 | #import and the name behind it are one token; another directive gives none |
| Printer.PrintParse | src/compiler/parser.cpp:8-113 | parsing the print of a tree, at every level and before any token that cannot extend it, gives the tree and stops at that token |
| Printer.FitsBuildable | src/compiler/parser.cpp:8-113 | every tree the parser builds is one the printer takes |
| Printer.CanonShortest | src/compiler/parser.cpp:46-51 | no derivation of a tree has fewer tokens than the printed one |
| Printer.PrintShortest | src/compiler/parser.cpp:8-113 | whatever tokens parse to a tree, its print is not longer |
| Formatter.ProgramRoundTrip | src/compiler/parser.cpp:172-186 | parsing the print of any program the parser can build gives the program back |
| Formatter.ParsePrintParse | src/compiler/parser.cpp:172-186 | every parsed program is printed and parsed back to itself, in no more tokens |
| Text.TextRoundTrip | src/compiler/compiler.cpp:5-16 | any writable program, written as text, is lexed and parsed back to itself |
| Text.FormatKeepsMeaning | src/compiler/compiler.cpp:5-16 | any text that lexes and parses, formatted, lexes and parses to the same program |
| Compiler.ParseSource | src/compiler/compiler.cpp:5-16 | a text without directives gives a program exactly when it reads as blanks, longest lexemes and a derivation of that program |

## Left out

- Double arithmetic and comparison: the results are those of a parameter; only that they are patterns a double operation can give is assumed.
- VirtualMachine.VM.Mov: not for flags 1 to 3 (`src/vm/execution.h:182-187`), which dereference a boxed word as a machine address; the outcome is `Undefined`.
- `#` directives other than `#import`: their token has no type (`src/compiler/lexer.cpp:91-104`), so lexing the text gives no result; `Lexemes.LexerMeaning` is for texts without `#` and NUL.
- Non-ASCII source text: character classification is undefined for negative chars.
- Decimal literals: the lexer takes them whole, the parser keeps the integer part (`src/compiler/parser.cpp:14`); a printed tree has integer literals only.
- Grammar of `Sprout_lang.ebnf` that the parser does not implement.
- File reading, command lines, console output and error texts: output is a sequence, errors are values.
- `src/compiler/memManager.cpp`: a bump allocator without objects; syntax trees are values.
- `printAST` and `tokenTypeName`: debug output that prints `&&` and `||` alike.
- Splitting assembly lines into words, registers and number formats (`tools/assembler/assembler.py:179-194`), register operands outside a byte, and a `mov` flag outside a byte, which runs into the byte before it (`tools/assembler/assembler.py:321`): lines arrive already split.
- Assembly.LabelsAreLower: lower-casing folds ASCII letters only, where Python's `lower()` folds all of Unicode and may change the length; so also in `Labels.LabelsAndBranches`, `Labels.TextResolves`, `Labels.LabelResolves`, `Labels.TextAssembles` and `Labels.MixedCaseNeverAssembles`.
- Assembler.Assembler.DefineLabel: likewise for ASCII letters only.
- VirtualMachine.VM.constructor: also creates the two empty heaps and sets `heapAUsed`, which the source does in `init` (`src/vm/vm.cpp:10-28`).
- VirtualMachine.VM.Init: starts from bytes already read and heaps already created.
- VirtualMachine.VM.MoveArray: a negative index reaches the array's own length and type, its two headers, or the object before it (`src/vm/Heap.cpp:163-170`), and is `Undefined`; so is an access to another object's word or past the chunk, and a read of what was never stored.
- VirtualMachine.VM.MarkObjects: not where the trace word of an array promises more elements than its object holds; the source then reads on behind it (`src/vm/Heap.cpp:101-103`).
- VirtualMachine.VM.CompactingGarbageCollect: the same collections only.
- HeapOps.NewArrayKeeps: an array made in the last 16 bytes of a chunk is zeroed past the chunk, into whatever the allocator put there (`Pictures.RoomBehind`).
- What memory holds where nothing was stored is one word for each address, so a chunk handed out again at the same address holds the same again; and chunk addresses depend on the chunks in use only. The two runs of `Transparency.CollectorTransparent` need not agree on either.
- Marks and forwarding words in the old space during a collection: the machine class has them, `Pictures.dfy` does not, because that space is freed at the end.
- Objects larger than a chunk: the source writes past the chunk; the outcome is `Undefined`.
- Reads and calls that leave the byte code, the stack or the function table: likewise.
- TwinStates.StepTwin: for tame steps, that is int operands of array instructions, indices of elements inside the object, no pointer stored in an array or loaded, and no pointer left above `sp` read or taken into a frame. Elements are not patched (`Inhabited.KnotDangles`), words behind objects stay behind when an object moves (`Pictures.LastElementsAreLeft`), and stale words above `sp` keep old addresses.
- Transparency.CollectorTransparent: for runs of tame steps in untagged memory. Runs that end in `bad_alloc` on either side are not compared.
- Pointers.PointersAreLive: for runs of tame steps, because a frame that takes in stale pointers makes them roots (`src/vm/execution.h:153`).
- Toolchain.AssembleAndRun: for texts the reference machine accepts, and up to `bad_alloc` where it compares with a given run.
- Simulation.SimRun: says nothing about programs that pop below `fp` or read or overwrite a saved word; the reference machine gives `Undefined` for them.
- VirtualMachine.VM.Run: makes at most a given number of turns, because a program need not halt.
- Pointers.VmRunKeepsHeap: for runs the reference machine accepts; the machine class keeps the invariant on every defined run, in its `Valid`.
