# A verified model of Mettle's code generation and object files

Mettle is a compiler that writes its own x86-64 code and its own object files. This project
models the parts of that work where the most can go wrong, and proves what each is for:

- **Emission from the flat IR** (`Ir`, `Asm`, `Emitter`, `EmitterProofs`, `ShiftDivision`,
  `FusionProofs`, `Simulation`, `Rounds`, `Correctness`, `CodeLabels`, `FunctionCorrectness`,
  `Placement`, `CodeGenerators`, `Spills`, `Promises`, `LostSpill`, `LossyRuns`, `Compilation`, `RotateAdd`). The IR has a small-step meaning, the emitted
  instructions a machine; the emission loop with all its fusions is a function on the
  generator's fields, and a class keeps those fields and refines that function call by call.
  The main theorem is a simulation: the code makes the same branch decisions and ends with the
  same symbols and return value as the IR, or runs on with it.
- **Object files** (`ByteCodec`, `ByteFields`, `ObjectModel`, `Elf`, `ElfRoundTrip`, `ElfWriter`, `Coff`,
  `CoffRoundTrip`, `CoffWriter`, `CountingSort`, `Linking`, `ObjectFiles`). One object, two serializations,
  each with a reader written from its standard (the System V gABI, chapter 4; the Microsoft
  PE/COFF specification). The imperative writers produce exactly the file the specification
  function describes; the readers recover the object from it; the two files link alike.
- **The tree-walking compiler** (`StackAsm`, `TreeCompiler`, `TreeLabels`, `TreeProofs`,
  `TreeSimulation`, `TreeCases`, `TreeCorrectness`, `TreeGenerators`): expressions over push and pop, and
  structured control flow with break and continue label stacks and switch with fall-through.
- **Calls, frames, registers** (`CallingConvention`, `CallMoves`, `FramePlan`, `StackProbe`, `LoopDepth`,
  `Promotion`): argument places computed twice, frame slots budgeted in one pass and handed
  out in another, the page probe, loop depths by a difference array, greedy promotion.
- **Tables and kernels** (`SymbolIndex`, `Reachability`, `WordCounter`, `AsmText`): the
  open-addressing symbol index, the reachability worklist, the 16-byte word counter, string
  data lines and comment stripping.

`Words`, `Rounding` and `Wrappers` hold two's-complement words, rounding and an option type. A word is a bounded
integer; every operator is given by its mathematical meaning and wraps where the machine wraps.

Three methods join the parts: `Compilation.CompileFunction` runs the generator and ensures when
code comes out and that it follows the IR, `ObjectFiles.WriteObject` writes either format and ensures that a reader gets
the object back, and `StackProbe.PrepareFrame` lays out a frame and emits the prologue that the frame theorems are about.

## Findings

The code does not do what it is meant to do on the following inputs. Each condition is an
equivalence over all inputs, stated next to the theorem it limits.

| finding | source | an input | exactly when |
|---|---|---|---|
| A single-use temp's store is dropped at its first load, but the left operand of a binary is loaded a second time when the literal form is refused, so the second load can read a slot that was never written. | src/codegen/code_generator_ir.c:2031 and 2060 | `t0 := s; t1 := t0 / 3; s := t1 + 1` with s = 9 leaves 1 where the IR leaves 4: `LostSpill.ExampleEmits`, `ExampleIr`, `ExampleMachine` | for one fusion `LostSpill.LostSpillExact`: the code is right from every machine if and only if the literal makes the left operand irrelevant; for a function `Promises.NoLossExactly`: a round has the shape if and only if `Promises.Loses` holds of its IR, as it does of the example (`LostSpill.ExampleLoses`); what the code does instead: `LossyRuns.CodeStopsLossy` |
| The memory form of the rotate instruction loads b over a and adds rbx to it; and it gives b the sum even when next is a. | src/codegen/code_generator_ir.c:3649-3709 | all three symbols in memory, both operands 0 and rbx 1: b becomes 1 instead of 0 (`RotateAdd.RbxTells`) | `RotateAdd.RotateExactly`: right from every machine if and only if all three symbols are in registers, or next is not a and either b is in a register or a is in rbx |
| `&&` is emitted as a bitwise conjunction and `setne`. | src/codegen/code_generator_ir.c:1899 and 1966 | `1 && 2` is 0 | `Ir.LogAndIsLogical`: it is the logical connective if and only if the operands are not two nonzero words without a common bit |
| The caller puts an argument where the callee does not read it, when copies of by-value aggregates lie under stack arguments, when a hidden result pointer comes before an integer argument on System V, and when the callee's types are unknown and the operand's are of the other class. | src/codegen/code_generator_ir.c:3253, 3332-3348, 3433 and 2741-2743 | one call of each kind: `CallingConvention.DisagreementExamples` | `CallingConvention.PlacesAgreeExactly`: all places agree if and only if none of the three shapes occurs; with known types (`KnownTypesAgree`) the third cannot |
| The slots of indirect results are placed before the register save slots are counted and can overlap the frame. | src/codegen/code_generator_ir.c:4698-4741 | one temp, five promoted parameters, one indirect result: `FramePlan.SlotOverlapExample` | `FramePlan.SlotsClearExactly`: they are clear if and only if they have no bytes or what is handed out ends below them |
| The COFF writer does not store relocation addends. | src/codegen/binary_emitter.c:905-909 | any relocation whose addend is not already in the field | `Linking.SameLinkedField`: the two files link alike if and only if the field's bytes are the addend in its width |
| `sh_info` counts an undefined local symbol among the local ones although its entry is global. | src/codegen/elf_emitter.c:345-407 | one local symbol without a section | `ElfRoundTrip.FirstGlobalExact`: `sh_info` separates STB_LOCAL from the rest if and only if no local symbol is undefined |
| The prologue rounds the frame size up in an int, which overflows for the last fifteen ints; with wrap-around it raises rsp by two gigabytes. | src/codegen/code_generator_stack.c:41-44 and 77-88 | one local of 2147483625 bytes, a frame of 2147483640: `StackProbe.RaisedExample` | `StackProbe.AllocatesExactly` and, for a planned frame, `StackProbe.FrameAllocatedExactly`: the frame is allocated if and only if its byte count is at most INT_MAX - 15 |
| A local's size and an indirect result's slot are cast to int. | src/codegen/code_generator_ir.c:4607-4616 and 4714-4719 | a local of 4294967297 bytes gets one byte: `FramePlan.TruncatedLocal` | `FramePlan.LocalHeldExactly`, `FramePlan.SlotHeldExactly`: the room suffices if and only if the size is at most INT_MAX, for a slot INT_MAX - 15 |
| Case values go into a compare unchecked, and a compare holds 32 bits of a literal. | src/codegen/code_generator_flow.c:1435 | `switch (0) { case w: }` for every w beyond 32 bits: `TreeCases.WideCaseLost` | `TreeCases.BodySmallExactly`: an accepted body's compares exist if and only if every case value of the tree fits 32 bits |
| The copies of by-value aggregates lie where a callee of the Microsoft convention has its home space. | src/codegen/code_generator_ir.c:3332-3347 | any call outside the program with such an argument | `CallingConvention.HomeSpaceExactly`: the home space is free if and only if no argument is passed by a copy |
| The type classifier's comment says that an aggregate of unknown size is passed indirectly; the size function has already made that size eight. | src/codegen/code_generator_calls.c:587-610 | an aggregate of size 0 | `CallingConvention.AbiClassify`: indirect if and only if the size is not 0, 1, 2, 4 or 8 |

## Model

| member | source | states |
|---|---|---|
| Compilation.CompileFunction | src/codegen/code_generator_ir.c:4992-5141 | counting temp uses and running the loop yields code exactly when every round finds its operands, so whenever every name has a place and no destination is a literal; unless a round of the IR loses a store, every finished run of the function is then a finished run of the code with the same end and the code stops only with the function |
| Placement.EmitsExactly | src/codegen/code_generator_ir.c:5005-5141 | for every function and state of the generator the loop gets through exactly when each round has a value for every operand it reads and a place for what it stores; literals and missing operands need no place, and neither do temps that a fusion keeps in a register |
| Placement.PlacedSuffices | src/codegen/code_generator_ir.c:1025-1216 | known symbols, temps with a frame slot and no literal destination are enough, whatever is fused |
| Placement.SinglePlaced | src/codegen/code_generator_ir.c:4034-4200 | an instruction on its own is emitted exactly when its operands have values and its destination a place |
| Placement.ShapeExactly | src/codegen/code_generator_ir.c:5019-5131 | which fusion is chosen: a binary whose single-use temp a following return takes, else the longest chain of binaries that each take the single-use temp of the one before, a branch on the comparison after one link included, else a comparison and its branch, else a branch over a jump to the label behind it, else none |
| Promises.NoLossExactly | src/codegen/code_generator_ir.c:5008-5139 | the emission has a round that loses a store exactly when the IR has one, with the pending temp tracked on the IR alone |
| Promises.BlockPromises | src/codegen/code_generator_ir.c:1171-1209 | after every round the pending spill is that of the temp the IR says, and the loop goes on where the IR says |
| Promises.LosesNowExactly | src/codegen/code_generator_ir.c:2021-2070 | a round has the double-load shape exactly when a fusion begins with the pending single-use temp on the left of a refused literal that matters |
| LostSpill.ExampleLoses | src/codegen/code_generator_ir.c:2021-2070 | that condition holds of the example program |
| LossyRuns.CodeStopsLossy | src/codegen/code_generator_ir.c:5008-5139 | for every function, rounds that lose a store included: when the code stops, the IR stops alike if the temp of each such round takes some word instead of its value, or branches to a label the function lacks |
| LossyRuns.PlainRun | src/codegen/code_generator_ir.c:5008-5139 | without such rounds these are the IR's own runs |
| LossyRuns.LossShows | src/codegen/code_generator_ir.c:2021-2070 | at every round that loses a store there is a word for the temp's slot with which the machine still is in step and the round's first value is wrong |
| LossyRuns.LossCanBeMasked | src/codegen/code_generator_ir.c:2021-2070 | a function that loses a store and whose symbols end the same whatever the temp's word, so that a loss need not show at the end |
| FunctionCorrectness.FunctionCorrect | src/codegen/code_generator_ir.c:5008-5139 | every finished run of an IR function, returned or trapped, is a finished run of its code with the same symbol values, the same labels passed in the same order and the return value in rax |
| FunctionCorrectness.CodeStopsWithIr | src/codegen/code_generator_ir.c:5008-5139 | when the code stops, the IR stops too, with the same outcome, or at a branch to a label the function lacks |
| FunctionCorrectness.StillRunning | src/codegen/code_generator_ir.c:5008-5139 | while the IR runs forever the code never stops, at whatever round it is |
| FunctionCorrectness.RunsAgree | src/codegen/code_generator_ir.c:5008-5139 | from any point where IR and machine are in step, a finished IR run has a matching machine run |
| FunctionCorrectness.Advance | src/codegen/code_generator_ir.c:5008-5139 | one round of the loop, reached by falling in or by a jump, brings IR and machine back into step with progress on one side or ends both alike |
| FunctionCorrectness.LabelInCode | src/codegen/code_generator_ir.c:4046-4049 | a jump to an IR label arrives at the code emitted for that label, with nothing promised or cached |
| FunctionCorrectness.BlockLabels | src/codegen/code_generator_ir.c:5008-5139 | a round defines in its code exactly the labels it passes in the IR, so labels of the code are those of the function |
| Correctness.RoundSimulates | src/codegen/code_generator_ir.c:5014-5138 | every round, whichever fusion it picks, does what the IR instructions it consumes do |
| Correctness.RoundReads | src/codegen/code_generator_ir.c:5014-5138 | every round, one that loses a store included, does what the IR does from the environment in which the lost temp has the word of its slot |
| Rounds.RoundReturn | src/codegen/code_generator_ir.c:2513-2566 | the binary-then-return fusion leaves the value in rax and reaches the exit |
| Rounds.RestOfChain | src/codegen/code_generator_ir.c:2361-2490 | a chain of fused binaries carries each intermediate value in r11 to the last one, or traps where the IR traps |
| Rounds.RoundPair | src/codegen/code_generator_ir.c:2072-2169 | the two-binary fusion stores the second value and loses nothing later code reads |
| Rounds.RoundCompareChain | src/codegen/code_generator_ir.c:2204-2267 | a fused operand, comparison and branch take the branch the IR takes |
| Rounds.RoundCompare | src/codegen/code_generator_ir.c:3859-3876 | the fused comparison and branch take the branch the IR takes |
| Rounds.RoundCompareOver | src/codegen/code_generator_ir.c:5082-5112 | the comparison fused with a branch over a jump goes where the two IR branches go |
| Rounds.RoundJumpOver | src/codegen/code_generator_ir.c:3880-3946 | a branch over a jump, emitted as one inverted branch, goes where the two IR instructions go |
| Simulation.SimAlone | src/codegen/code_generator_ir.c:4034-4200 | each instruction emitted on its own simulates its IR step |
| FusionProofs.ComputeToR11Correct | src/codegen/code_generator_ir.c:2021-2070 | outside the double-load shape the code leaves the operator's value in r11, or faults where it has none |
| FusionProofs.LostLoad | src/codegen/code_generator_ir.c:2051-2069 | in the double-load shape the code computes with whatever the left operand's slot holds |
| FusionProofs.ConsumeCorrect | src/codegen/code_generator_ir.c:2295-2355 | the consumer of a value held in r11 computes its own value on either operand side |
| FusionProofs.FallbackCorrect | src/codegen/code_generator_ir.c:1672-1923 | a standalone binary instruction, by register fast path, shifts, literal or registers, stores the operator's value or faults |
| FusionProofs.FastPathCorrect | src/codegen/code_generator_ir.c:638-731 | the all-register form computes the value even when the destination is also an operand |
| FusionProofs.UnaryCorrect | src/codegen/code_generator_ir.c:2568-2669 | a unary instruction stores its value |
| FusionProofs.AssignCorrect | src/codegen/code_generator_ir.c:4117-4163 | an assignment stores its operand's value |
| FusionProofs.CompareJumpCorrect | src/codegen/code_generator_ir.c:3813-3857 | the compare-and-jump code jumps exactly when the condition holds |
| FusionProofs.CompareR11Correct | src/codegen/code_generator_ir.c:2171-2202 | the same with one operand in r11 |
| FusionProofs.ZeroJumpCorrect | src/codegen/code_generator_ir.c:3961-4032 | the branch-on-zero code, memory compare included, jumps exactly when the operand is zero, or not zero when inverted |
| FusionProofs.EqualJumpCorrect | src/codegen/code_generator_ir.c:4076-4115 | the branch-on-equal code jumps exactly when the operands are equal |
| FusionProofs.FalseJumpMeaning | src/codegen/code_generator_ir.c:752-800 | the false jump of a comparison is taken exactly when it is false, its inversion exactly when it is true |
| EmitterProofs.LoadCorrect | src/codegen/code_generator_ir.c:1025-1127 | loading an operand puts its value into rax whatever the delayed spills did, and changes no other register |
| EmitterProofs.LoadIntoCorrect | src/codegen/code_generator_ir.c:1129-1150 | the same into r10, keeping r11 |
| EmitterProofs.StoreCorrect | src/codegen/code_generator_ir.c:1152-1216 | storing rax gives the destination that value; a temp's store is only promised |
| EmitterProofs.EmitKeeps | src/codegen/code_generator.c:441-486 | emitting anything first writes the promised store and then keeps every place as it was |
| EmitterProofs.RegisterCorrect | src/codegen/code_generator_ir.c:1925-1979 | operator code with a register operand computes the operator or faults |
| EmitterProofs.ImmediateCorrect | src/codegen/code_generator_ir.c:1981-2019 | operator code with a literal computes the operator |
| Spills.SpillsUnobservable | src/codegen/code_generator_ir.c:1171-1209 | for every sequence of emits, temp stores and loads that fetches a single-use temp once per save, the generated code has the registers and flags of code that always stores and always loads, or faults with it |
| Spills.EverySlotAgrees | src/codegen/code_generator.c:410-421 | while a spill is pending rax holds that temp's value, and once it is written every unspent slot holds what the plain code left there |
| Spills.StartTracks | src/codegen/code_generator_ir.c:1171-1209 | with nothing promised and nothing cached a machine agrees with itself, which is where SpillsUnobservable starts |
| Spills.SaveTracks | src/codegen/code_generator_ir.c:1171-1209 | one delayed store keeps the two codes in step |
| Spills.FetchTracks | src/codegen/code_generator_ir.c:1079-1112 | one load, dropped or not, keeps the two codes in step |
| LostSpill.LostSpillExact | src/codegen/code_generator_ir.c:2021-2070 | in the double-load shape the code is right from every machine that represents the environment if and only if the literal makes the left operand irrelevant |
| LostSpill.TellingDiffers | src/codegen/code_generator_ir.c:2021-2070 | for every other operator and literal two left operands with different results are given |
| LostSpill.PlainLiteralsSuffice | src/codegen/code_generator_ir.c:2021-2070 | a function with no temp on the left of such a literal has no round of that shape |
| LostSpill.ExampleReady | src/codegen/code_generator_ir.c:2021-2070 | the example program meets everything else FunctionCorrect asks for |
| LostSpill.ExampleEmits | src/codegen/code_generator_ir.c:2021-2070 | the code emitted for a three-instruction function, in full |
| LostSpill.ExampleIr | src/codegen/code_generator_ir.c:2021-2070 | the IR of that function leaves 4 |
| LostSpill.ExampleMachine | src/codegen/code_generator_ir.c:2021-2070 | its code leaves 1 where the unwritten slot holds 0 |
| Ir.LogAndIsLogical | src/codegen/code_generator_ir.c:1899-1901 | `&&` as emitted is the logical connective exactly when the operands are not two nonzero words without a common bit |
| Ir.LogOrIsLogical | src/codegen/code_generator_ir.c:1902-1904 | the or operator as emitted is the logical connective on all words |
| CodeGenerators.CodeGenerator.FlushPendingSpill | src/codegen/code_generator.c:410-421 | writes the promised store once and forgets it |
| CodeGenerators.CodeGenerator.Append | src/codegen/code_generator.c:441-486 | one chunk: the promised store first, then the chunk, the sequence number advanced for each |
| CodeGenerators.CodeGenerator.LoadOperand | src/codegen/code_generator_ir.c:1025-1127 | the fields after a load are those of the load function, which LoadCorrect gives its meaning; unknown names are errors |
| CodeGenerators.CodeGenerator.StoreDestination | src/codegen/code_generator_ir.c:1152-1216 | the same for stores |
| CodeGenerators.CodeGenerator.ComputeBinaryToR11 | src/codegen/code_generator_ir.c:2021-2070 | the same for values left in r11 |
| CodeGenerators.CodeGenerator.ConsumeFromR11 | src/codegen/code_generator_ir.c:2295-2355 | the same for values taken from r11 |
| CodeGenerators.CodeGenerator.EmitBinary | src/codegen/code_generator_ir.c:1672-1923 | the same for standalone binaries |
| CodeGenerators.CodeGenerator.EmitInstruction | src/codegen/code_generator_ir.c:4034-4440 | the same for single instructions, which succeed exactly when their operands have values and their destination a place |
| CodeGenerators.CodeGenerator.ChooseShape | src/codegen/code_generator_ir.c:5019-5131 | the loop's tests choose the fusion the specification chooses |
| CodeGenerators.CodeGenerator.EmitRound | src/codegen/code_generator_ir.c:5009-5138 | one turn of the loop emits that fusion, exactly when the operands it needs are placed, and skips what it consumed |
| CodeGenerators.CodeGenerator.Generate | src/codegen/code_generator_ir.c:5005-5141 | the whole loop emits the code FunctionCorrect is about, exactly when every round is placed, and so whenever all names have places and no destination is a literal |
| CodeGenerators.CountTempUses | src/codegen/code_generator_ir.c:456-482 | the use map holds the number of reads of every temp in the function |
| RotateAdd.RotateExactly | src/codegen/code_generator_ir.c:3612-3713 | for every placement of three symbols, the rotate code performs the three assignments from every machine exactly when all are in registers, or next is not a and b is in a register or a in rbx |
| RotateAdd.MemoryRuns | src/codegen/code_generator_ir.c:3643-3713 | from every machine the memory form assigns what it added up to next, b's value to a, and what it added up to b, in that order, and changes no other symbol |
| RotateAdd.RegistersRun | src/codegen/code_generator_ir.c:3626-3641 | the lea and two moves perform the assignments, next equal to a or b included |
| ShiftDivision.ShiftDivRuns | src/codegen/code_generator_ir.c:1705-1713 | the shift sequence leaves the quotient truncated toward zero and changes only scratch registers |
| ShiftDivision.ShiftRemRuns | src/codegen/code_generator_ir.c:1714-1728 | the longer sequence leaves the remainder with the dividend's sign |
| ShiftDivision.BiasedShift | src/codegen/code_generator_ir.c:1706-1712 | adding the mask to a negative dividend never overflows and makes the shift truncate |
| ShiftDivision.PowerOfTwoByMask | src/codegen/code_generator_ir.c:1601-1604 | `v & (v - 1)` is zero exactly for the powers of two |
| ShiftDivision.ExtractPositivePowerOfTwo | src/codegen/code_generator_ir.c:1594-1616 | the loop accepts exactly the positive powers of two and returns exponent and mask |
| ElfRoundTrip.RoundTrip | src/codegen/elf_emitter.c:200-741 | reading a written ELF file by the gABI recovers every section's name, type, flags, size, alignment and bytes, every symbol with its binding, type and section index, every relocation table and the names and links of the added sections, all in the gABI's numbers |
| ElfRoundTrip.NamesOfTables | src/codegen/elf_emitter.c:312-491 | the added sections come in their order under their own names, each relocation table linked to the symbol table and to the section it is for |
| ElfRoundTrip.OffsetsAligned | src/codegen/elf_emitter.c:493-531 | every section with bytes starts at a multiple of its alignment, the tables and the headers at a multiple of eight |
| ElfRoundTrip.RelocationNamesItsSymbol | src/codegen/elf_emitter.c:604-645 | a relocation read back is against the symbol it was made for |
| ElfRoundTrip.NoRelocationLost | src/codegen/elf_emitter.c:604-645 | every relocation is found in the table of its section |
| ElfRoundTrip.SymbolOrder | src/codegen/elf_emitter.c:330-407 | the reordering is a bijection onto entries 1 to n that keeps relative order in each class and puts local symbols below sh_info |
| ElfRoundTrip.FirstGlobalExact | src/codegen/elf_emitter.c:342-407 | sh_info separates STB_LOCAL entries from the rest exactly when no local symbol is undefined |
| ElfRoundTrip.PieceInFile | src/codegen/elf_emitter.c:493-711 | every piece of the file is at the offset its header promises |
| ElfRoundTrip.PiecesApart | src/codegen/elf_emitter.c:493-531 | the pieces do not overlap |
| ElfRoundTrip.HeaderName | src/codegen/elf_emitter.c:97-119 | every header's name offset reads back as its name |
| ElfRoundTrip.SymtabFound | src/codegen/elf_emitter.c:409-464 | the symbol table index the relocation headers predict is the symbol table's |
| ByteCodec.DecEnc | src/codegen/elf_emitter.c:541-585 | little-endian records read back field by field |
| ByteFields.LittleEndian | src/codegen/elf_emitter.c:541-585 | byte k of a written number is its k-th byte, the least significant first |
| ByteCodec.NameReadBack | src/codegen/elf_emitter.c:97-119 | a name in a string table is read back from its offset |
| ByteCodec.PlacedAt | src/codegen/elf_emitter.c:177-198 | aligned and padded pieces are found where the running offset put them |
| ElfWriter.StringTable.Add | src/codegen/elf_emitter.c:97-119 | appends a name and returns its offset |
| ElfWriter.TallyRelocations | src/codegen/elf_emitter.c:255-271 | counts the relocations of each section, or fails on the first bad index or kind |
| ElfWriter.BuildSymtab | src/codegen/elf_emitter.c:330-407 | two passes fill the table the specification describes and every symbol's entry number |
| ElfWriter.AddRelaHeaders | src/codegen/elf_emitter.c:409-447 | relocation headers in section order, each linked to the symbol table and its section |
| ElfWriter.LayOut | src/codegen/elf_emitter.c:493-531 | the running offset gives every header the place the specification gives it |
| ElfWriter.EmitRelas | src/codegen/elf_emitter.c:604-645 | the nested scan emits a section's relocations in order, and fails exactly on an undefined target |
| ElfWriter.WriteObjectFile | src/codegen/elf_emitter.c:200-741 | writes the object exactly when every index is in range, every kind has an ELF form and every target is defined; the file is then the one RoundTrip reads |
| CoffRoundTrip.RoundTrip | src/codegen/binary_emitter.c:690-1034 | reading a written COFF file by the PE/COFF specification recovers every section with bytes, relocations and characteristics, long names, every symbol with its storage class under its record index and every section's length, all in the specification's numbers |
| CoffRoundTrip.RelocationNamesItsSymbol | src/codegen/binary_emitter.c:889-920 | a relocation read back is against the symbol it was made for, across auxiliary records |
| CoffRoundTrip.SectionNameRead | src/codegen/binary_emitter.c:301-320 | section names read back, inline or through the decimal offset |
| CoffRoundTrip.SymbolNameRead | src/codegen/binary_emitter.c:322-340 | symbol names read back, inline or through the string table |
| CoffWriter.AssignStringOffsets | src/codegen/binary_emitter.c:744-764 | long names get the offsets at which the string table will hold them |
| CoffWriter.LayOut | src/codegen/binary_emitter.c:783-797 | raw data and relocation offsets are those of the written pieces |
| CoffWriter.WriteRelocs | src/codegen/binary_emitter.c:847-922 | the grouped records are the sections' tables in order |
| CoffWriter.WriteObjectFile | src/codegen/binary_emitter.c:690-1034 | writes the object exactly when the tables can hold it, indices are in range and targets are defined; within the format's limits, where no 32-bit size or offset wraps, the file is the one RoundTrip reads |
| CountingSort.GroupedIsPermutation | src/codegen/binary_emitter.c:853-892 | the grouping is a permutation of all relocations with an explicit inverse |
| CountingSort.RunIsFilter | src/codegen/elf_emitter.c:605-645 | the run of a section is, entry by entry, what the ELF writer's nested scan finds for it |
| CountingSort.OrderRelocations | src/codegen/binary_emitter.c:853-888 | prefix sums and one stable pass produce that grouping, each run starting where its header says |
| ObjectFiles.WriteObject | src/codegen/binary_emitter.c:1045-1059 | for either format an object is written exactly when it is writable, and within the format's limits its reader gets the whole object back |
| Linking.SameLinkedField | src/codegen/elf_emitter.c:155-171 | for REL32 and ADDR64 the two files link to the same field value exactly when the field's bytes are the addend in that width |
| TreeProofs.SimExpr | src/codegen/code_generator_ops.c:393-549 | the push and pop code of an expression leaves its value in rax and the stack as it was, or faults where a division does |
| TreeProofs.ConstantIsValue | src/codegen/code_generator_flow.c:81-158 | where the constant evaluator succeeds without overflow, evaluation gives the same value in every environment |
| TreeCompiler.FoldsExactly | src/codegen/code_generator_flow.c:81-158 | the constant evaluator gives a value for exactly the expressions of literals, signs and the five operators without a zero divisor and without a result beyond 64 bits on the way, and the value is the number meant |
| TreeCompiler.MatchingIsFirst | src/codegen/code_generator_flow.c:1411-1445 | the case a switch takes is the first whose constant has the value |
| TreeCompiler.DefaultIsLast | src/codegen/code_generator_flow.c:1411-1455 | of several defaults the last one is taken |
| TreeLabels.BodyOnce | src/codegen/code_generator.c:661-668 | a compiled body defines no label twice |
| TreeSimulation.SimStmt | src/codegen/code_generator_flow.c:1140-1512 | in code whose compares exist, the code of a statement lands after it, at the break or continue label, or at the exit, as its meaning says |
| TreeSimulation.SimSwitch | src/codegen/code_generator_flow.c:1376-1484 | in such code: dispatch, default in any position, fall-through, and a continue that passes through |
| TreeSimulation.SimLoop | src/codegen/code_generator_flow.c:1277-1374 | while and for loops iterate as their meaning does |
| TreeSimulation.SimArms | src/codegen/code_generator_flow.c:1230-1275 | the first true arm of an if chain runs |
| TreeCorrectness.StmtAccepted | src/codegen/code_generator_flow.c:1140-1512 | the compiler fails on exactly the trees with an unknown name, a misplaced break or continue, or a case that is not constant; of several defaults the last one counts |
| TreeCorrectness.BodyCorrect | src/codegen/code_generator_flow.c:1140-1512 | the code of an accepted body whose case values fit 32 bits halts with its symbol values, return value and the stack it was given, faults where it divides by zero, or keeps running |
| TreeCorrectness.StopsTogether | src/codegen/code_generator_flow.c:1140-1512 | that code stops exactly when the body's meaning does, and then with the same result |
| TreeCases.BodySmallExactly | src/codegen/code_generator_flow.c:1376-1484 | for every accepted body the emitted compares hold their literals exactly when all case values in the tree, at any depth, fit 32 bits |
| TreeCases.WideCaseLost | src/codegen/code_generator_flow.c:1430-1437 | for every value that does not fit, a switch on 0 with that case is accepted, means nothing, and its code stops at a compare that does not exist |
| TreeGenerators.TreeGenerator.GenerateExpression | src/codegen/code_generator_ops.c:367-549 | appends the code SimExpr is about and nothing else |
| TreeGenerators.TreeGenerator.GenerateStatement | src/codegen/code_generator_flow.c:1140-1512 | appends the code SimStmt is about, with the label counter advanced and the label stacks balanced |
| TreeGenerators.TreeGenerator.GenerateSwitch | src/codegen/code_generator_flow.c:1376-1484 | the same for a switch, its labels emitted in dispatch order |
| TreeGenerators.TreeGenerator.PushControlLabels | src/codegen/code_generator_flow.c:7-44 | pushes a break label and a continue label, or none for a switch |
| TreeGenerators.TreeGenerator.CurrentContinueLabel | src/codegen/code_generator_flow.c:67-79 | the innermost continue label that is not a switch's hole |
| CallingConvention.PlacesAgreeExactly | src/codegen/code_generator_ir.c:3215-3562 | for every caller's and every callee's view of a signature the two agree on the place of every argument exactly when they file arguments alike while registers are left and neither conflicting shape occurs |
| CallingConvention.KnownTypesAgree | src/codegen/code_generator_ir.c:2724-2758 | when the callee's parameter types are known the caller's view is the callee's |
| CallingConvention.DisagreementExamples | src/codegen/code_generator_ir.c:3215-3562 | one concrete signature for each way to disagree, with both places |
| CallingConvention.HomeSpaceExactly | src/codegen/code_generator_ir.c:3332-3351 | a call outside the program leaves a Microsoft callee its 32 bytes of home space exactly when it passes no aggregate by a copy |
| CallMoves.ArgumentsArrive | src/codegen/code_generator_ir.c:3353-3577 | wherever the places agree, after the copies, operand loads, moves, call, prologue and homing, each parameter's home holds what its operand held before the call, or the address of a copy with the aggregate's bytes, the hidden pointer its own home, and the caller's stack is untouched |
| CallMoves.SetupRuns | src/codegen/code_generator_ir.c:3377-3577 | at the call instruction every argument is in its place, whatever promoted registers, frame slots or globals the operands are in |
| CallMoves.PromotedAreSpared | src/codegen/code_generator_ir.c:2760-2810 | a register that may hold a promoted symbol is overwritten by no call of the function |
| CallMoves.MovesCanClobber | src/codegen/code_generator_ir.c:2760-2810 | without that rule the callee can get one argument twice |
| CallMoves.CallAligned | src/codegen/code_generator_ir.c:3330-3351 | a function entered with its return address on an aligned stack, with a rounded frame, has rsp a multiple of 16 at the call instruction and enters its callee the same way |
| CallMoves.ChainAligned | src/codegen/code_generator_ir.c:3330-3351 | so does every call in a chain of nested calls, however deep |
| CallingConvention.ReadsDiffer | src/codegen/code_generator_flow.c:870-930 | no two parameters are read from the same place |
| CallingConvention.ReadsAreAbi | src/semantic/register_allocator.c:59-122 | every parameter is read from the place the convention names: rcx, rdx, r8, r9 or xmm0 to xmm3 by position on Microsoft, rdi, rsi, rdx, rcx, r8, r9 and xmm0 to xmm7 by earlier parameters of the kind on System V, then the stack in order, a hidden pointer taking the first integer register |
| CallingConvention.PutsAreAbi | src/codegen/code_generator_ir.c:3377-3562 | so is every argument put, but for copies under the stack arguments and for System V integers behind a hidden pointer, which start at rdi |
| CallingConvention.PlanCall | src/codegen/code_generator_ir.c:3240-3562 | the caller's cursors, restarted between the two loops, give the convention's registers and stack places, and the reservation is the copies, the home space and eight bytes for each stack argument, rounded up to 16 |
| CallingConvention.PlanParameters | src/codegen/code_generator_flow.c:799-992 | the callee's cursors give the convention's registers and stack places |
| CallingConvention.AbiClassify | src/codegen/code_generator_calls.c:580-620 | exactly the aggregates whose size is not 0, 1, 2, 4 or 8 bytes are passed indirectly |
| FramePlan.FrameSound | src/codegen/code_generator_ir.c:4544-4990 | for every mix of sizes and alignments parameter homes, save slots, locals and temps are pairwise disjoint and inside the counted frame |
| FramePlan.LocalHasRoom | src/codegen/code_generator_ir.c:4596-4661 | every local that is not promoted has a piece of the size of its first declaration, as an int holds it |
| FramePlan.PieceAligned | src/codegen/code_generator_variables.c:503-527 | a piece of more than four bytes starts at a multiple of eight, one of 1, 2 or 4 bytes at a multiple of its size; as a piece is addressed from its end, a larger one has an address that is a multiple of eight exactly when its size is |
| FramePlan.SlotsClearExactly | src/codegen/code_generator_ir.c:4698-4741 | the slots of indirect results are clear of the rest exactly when they have no bytes or what is handed out ends below them |
| FramePlan.SlotOverlapExample | src/codegen/code_generator_ir.c:4698-4741 | a frame in which they are not |
| FramePlan.MemoryFits | src/codegen/code_generator_ir.c:4653-4696 | the slack added per declaration and temp covers all alignment losses, promoted and repeated declarations included |
| FramePlan.HandsOutInts | src/codegen/code_generator_ir.c:4949-4990 | when the sizing pass succeeds, no int overflows where the pieces are handed out |
| FramePlan.LocalHeldExactly | src/codegen/code_generator_ir.c:4607-4616 | a local gets room for its type exactly when its size fits an int |
| FramePlan.SlotHeldExactly | src/codegen/code_generator_ir.c:4714-4719 | a slot holds the result exactly when its size is at most INT_MAX - 15 |
| FramePlan.TruncatedLocal | src/codegen/code_generator_ir.c:4607-4616 | a type of 4294967297 bytes gets one byte |
| FramePlan.AlignedToPower | src/codegen/code_generator_variables.c:503-527 | for a power of two the mask rounds up to the next multiple |
| FramePlan.MaskedBounds | src/codegen/code_generator_variables.c:503-527 | for any alignment, powers of two or not, the mask loses less than the alignment |
| FramePlan.FramePlanner.AllocateStackSpace | src/codegen/code_generator_variables.c:503-527 | aligns the current offset, adds the size, and returns and keeps the sum |
| FramePlan.FramePlanner.AddStackSize | src/codegen/code_generator_ir.c:4468-4483 | adds to the frame size, refusing a negative amount and to pass the largest int |
| FramePlan.FramePlanner.LayOut | src/codegen/code_generator_ir.c:4544-4990 | both passes produce the regions FrameSound is about and fail exactly when a slot's int is negative or the frame passes the largest int |
| StackProbe.AllocationRuns | src/codegen/code_generator_stack.c:39-91 | for every size the prologue ends with rsp lowered by the size rounded up in an int, a multiple of 16, and on Windows no gap of more than 4096 bytes between touched addresses |
| StackProbe.AllocatesExactly | src/codegen/code_generator_stack.c:39-91 | for every size an int holds, rsp is lowered by the size rounded up if and only if the size is at most INT_MAX - 15; otherwise it is raised by two gigabytes |
| StackProbe.FrameAllocatedExactly | src/codegen/code_generator_ir.c:4853-4891 | a frame that passes the sizing pass has all its pieces and slots in allocated memory if and only if its byte count is at most INT_MAX - 15 |
| StackProbe.RaisedExample | src/codegen/code_generator_stack.c:39-91 | one local of 2147483625 bytes passes the sizing pass and raises rsp |
| StackProbe.PrepareFrame | src/codegen/code_generator_ir.c:4544-4990 | both passes and the prologue produce the regions, slots and code of those theorems |
| StackProbe.EmitAllocation | src/codegen/code_generator_stack.c:39-90 | emits the loop exactly where the rounded int is more than a page and the target is Windows |
| LoopDepth.ComputeLoopDepths | src/codegen/code_generator_ir.c:166-216 | the difference array gives each instruction the number of loops, backward branches with their labels, that cover it, clamped to 255 |
| LoopDepth.WeightIs | src/codegen/code_generator_ir.c:222-230 | each loop multiplies the weight of a use by 16, up to three of them |
| LoopDepth.UsesAre | src/codegen/code_generator_ir.c:352-380 | a use is every occurrence of the symbol as destination, on either side or as an argument |
| LoopDepth.OnlyUse | src/codegen/code_generator_ir.c:352-380 | a symbol that one instruction alone names weighs its uses there times the weight of that depth |
| LoopDepth.SymbolStats.AddUseWeighted | src/codegen/code_generator_ir.c:279-294 | a saturating addition to one name's count that leaves all others alone |
| LoopDepth.SymbolStats.RecordFunction | src/codegen/code_generator_ir.c:352-380 | every count is the weighted sum of the name's uses, clamped once, and exactly the names whose address is taken are marked |
| Promotion.Promote | src/codegen/code_generator_ir.c:4743-4852 | registers are handed out in order to different symbols whose address is not taken; rotate operands first, then always the first heaviest candidate, until registers or candidates of weight 3 run out |
| Promotion.NoBetterLeft | src/codegen/code_generator_ir.c:4793-4852 | no eligible symbol left in memory is heavier than one the greedy stage promoted |
| Promotion.GreedyDescends | src/codegen/code_generator_ir.c:4793-4852 | the greedy choices come in order of weight |
| Promotion.PromoteRotates | src/codegen/code_generator_ir.c:4752-4791 | every suitable rotate operand has a register unless they ran out, and nothing else has |
| SymbolIndex.LastDefinitionWins | src/codegen/binary_emitter.c:592-638 | after any run of definitions and resets names are unique and a lookup gives the last definition since the last reset |
| SymbolIndex.SymbolTable.FindIndex | src/codegen/binary_emitter.c:256-287 | the probe ends and gives the index a linear scan gives, for every name and every hash function |
| SymbolIndex.SymbolTable.DefineSymbol | src/codegen/binary_emitter.c:592-638 | redefines a known name in its place with all its fields or appends and indexes a new one, moving no other symbol and keeping the index complete, below its growth limit and a power of two in size |
| SymbolIndex.SymbolTable.Rehash | src/codegen/binary_emitter.c:201-224 | rebuilds a complete index with the new bucket count |
| SymbolIndex.SymbolTable.Clear | src/codegen/binary_emitter.c:404-427 | drops symbols and index together |
| SymbolIndex.FreeBucket | src/codegen/binary_emitter.c:228-254 | every probe sequence meets an empty bucket |
| SymbolIndex.MaskedIs | src/codegen/binary_emitter.c:228-287 | for every bucket count the table can have, masking the hash is taking the remainder |
| Reachability.NeededIsLeast | src/codegen/code_generator_flow.c:215-402 | the functions reached from main and the exported ones by calls and addresses taken, a name standing for the first function that has it, form the least set holding those roots and closed under references |
| Reachability.OrderIsNeeded | src/codegen/code_generator_flow.c:340-391 | the breadth-first order holds exactly the needed functions, once each |
| Reachability.OrderInTurn | src/codegen/code_generator_flow.c:340-391 | the order is breadth first: what stands before a function that is no root is a root or is referred to no later in the order than that function |
| Reachability.StopsExactly | src/codegen/code_generator_flow.c:340-391 | the search is stopped exactly when a needed function has no IR or calls indirectly, and by such a function |
| Reachability.FirstOneCounts | src/codegen/code_generator_flow.c:340-391 | two programs that differ in the order of two calls, one failing and one keeping everything |
| Reachability.CollectReachable | src/codegen/code_generator_flow.c:215-402 | marks exactly the needed functions, or all without elimination, with top-level assembly or without roots; when a needed function has no IR or calls indirectly, the first such one in breadth-first order decides between failing and marking all |
| Reachability.Worklist.Mark | src/codegen/code_generator_flow.c:199-213 | a function is queued at most once, so the queue has room |
| Reachability.Worklist.Drain | src/codegen/code_generator_flow.c:340-391 | the queue is the breadth-first order of the needed functions up to the first that stops the search |
| WordCounter.CountIsStarts | examples/word_count/word_count.c:22-40 | the scalar count is the number of positions where a word starts |
| WordCounter.WordCount | examples/word_count/word_count.c:22-40 | the scalar loop computes it |
| WordCounter.PopCountIsCount | src/codegen/code_generator_ir.c:1384-1503 | the population count of the non-space mask without its own shift is the number of words starting in the chunk |
| WordCounter.CountChunk | src/codegen/code_generator_ir.c:1384-1503 | one vector round counts the chunk's words and computes the carry |
| WordCounter.CountWordStarts | src/codegen/code_generator_ir.c:1384-1503 | for every buffer the emitted counter adds the scalar count to the prior count, modulo 2^64 |
| AsmText.EmitEscapedStringBytes | src/codegen/code_generator.c:597-658 | the printed db line of every NUL-free string reads back as its bytes and terminator |
| AsmText.EmitStringByte | src/codegen/code_generator.c:613-641 | one byte, quoted or as a number, extends what the line reads back as by that byte |
| AsmText.DataLineKept | src/codegen/code_generator.c:291-358 | stripping leaves any line that reads as data unchanged, semicolons included |
| AsmText.DataLineKeptInPlace | src/codegen/code_generator.c:291-358 | so it does anywhere in a longer text |
| AsmText.StripTwice | src/codegen/code_generator.c:291-358 | stripping is idempotent |
| AsmText.StripKeepsNewlines | src/codegen/code_generator.c:291-358 | stripping keeps the number of newlines |
| AsmText.LineStripped | src/codegen/code_generator.c:313-343 | of a line, nothing is left when its first non-blank byte is a semicolon, all of it when no semicolon has an even number of quotes before it, and otherwise the bytes up to the last non-blank one before the first such semicolon |
| AsmText.OneResult | src/codegen/code_generator.c:313-343 | that leaves exactly one result |
| AsmText.NoCommentLeft | src/codegen/code_generator.c:319-331 | no semicolon with an even number of quotes before it survives |
| AsmText.StripAsmComments | src/codegen/code_generator.c:291-358 | the loops do this to every line of the text and keep every newline |

## Left out

- FunctionCorrectness.FunctionCorrect: excludes functions with a round in the double-load shape, which Promises.Loses describes on the IR; LossyRuns.CodeStopsLossy is about all functions; symbols are 64 bits wide, comparisons signed, and no label is spelled like the function's exit label.
- TreeCorrectness.BodyCorrect: about bodies whose case values fit 32 bits, which TreeCases.BodySmallExactly says are those whose compares exist; loop initializers and steps are assignments or expressions.
- CoffWriter.WriteObjectFile: beyond the format's limits the 32-bit sizes and offsets of the original wrap while they are summed up, and the file it then writes is not modelled.
- StackProbe.AllocatesExactly: signed overflow is undefined in C; it is modelled as wrap-around.
- CoffRoundTrip.RoundTrip: excludes section names that start with a slash and empty names, which the format's two name encodings cannot tell apart, and more than 0x7FFF sections.
- CallMoves.ArgumentsArrive: stated where the places agree; a word is one memory cell; 32-bit float moves, sources of copies below the stack pointer that overlap the bytes the call takes, and argument areas of two gigabytes are not modelled.
- AsmText.EmitEscapedStringBytes: strings without NUL bytes, which is what a C string can hold.
- IR loads, stores, calls, casts, allocations and the vector kernels other than the word counter: they would extend the IR's memory model, not the fusion logic.
- Rotate-add inside whole functions: RotateAdd states what the instruction's code does on its own; the IR of FunctionCorrect has no such instruction, and the optimizer pass that introduces it is not modelled.
- Floating point, narrower integer symbols, inline assembly, runtime traps, profiling hooks and debug tables.
- String and NULL literals as expressions, member access, indexing and function calls in the tree compiler.
- The names of labels: the tree compiler's are numbers, and the printed prefix is not modelled.
- The IR temp table's own hash index (src/codegen/code_generator_ir.c:30-101), which has the symbol index's structure; temps are looked up by name.
- Struct layout (src/codegen/code_generator_ops.c:1718-1783): one loop that rounds offsets up, as FramePlan.AlignedToPower already covers.
- Allocation failure, file errors and string interning: memory is available and a file is a byte sequence.
- The hash functions: every theorem holds for any hash.
- The parser, type checker, IR optimizer, linker, binary backend, command line, editor extension and scripts.
