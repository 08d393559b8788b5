# dvm, modelled and verified in Dafny

dvm is a small toolchain: a one-pass assembler, a linker, an object file format with reader and writer, a loader, a
bytecode interpreter and an x86-64 block compiler. The stages meet at exact byte encodings. This project models each
stage, proves what it computes, and proves that the stages fit together.

| stage | specification and laws | as it runs (updates in place) |
|---|---|---|
| words, bytes | `Words` | |
| instruction set, fetch | `Isa` | |
| memory, interpreter | `Memory`, `Vm`, `Effects`, `Stores`, `ControlFlow`, `Separation`, `Escapes`, `Frames` | `VmRun` |
| assembler | `Asm`, `Labels`, `TwoPass`, `CodeLabels`, `Relocs`, `SymIndices`, `DataSections`, `Exports`, `Acceptance`, `Addressing`, `Sources` | `Assembler` |
| object file format | `Objects`, `Format`, `FormatLaws`, `FileLayout` | `FileIo` |
| linker | `Linker`, `LinkLaws`, `LinkNames`, `LinkSuccess`, `Incremental`, `Origins` | `LinkerRun` |
| loader | `Loader`, `LinkLoad`, `Meaning`, `RunTime` | `LoaderRun` |
| block compiler | `X86`, `Jit`, `Blocks`, `BlockLaws`, `Native`, `NativeBlocks`, `NativeStubs` | `JitCompiler` |
| system calls, threads | `Syscalls`, `Mutex`, `CounterProgram` | `Syscalls.Kernel` |
| thread registry | `Registry` | `Registry.ThreadList` |
| all stages | `Toolchain`, `CodeOperands`, `EntryPoint`, `Pointers` | |

Code that works step by step is a class or a method with loops, proved equal to a specification function; the laws are
lemmas about those functions. Registers and memory words are integers in range with wrap-around written out. A fault of
C (an abort, undefined behaviour, a write outside a buffer) is an explicit outcome.

`dafny verify dfyconfig.toml` checks everything.

Main results:

* **Assembler.** On success the text decodes, with the interpreter's fetch, to the source's instruction list with every
  label at its final offset, for any mix of forward and backward references (`TwoPass.AssembleRefines`); the data
  sections hold the directives' bytes in source order (`DataSections.SectionContents`).
* **Instructions.** Every instruction is given by what it does to numbers, bits and bytes, in `Effects`: a comparison
  and the jump behind it together decide as the jump's name says (`Effects.CompareThenJump`).
* **Control flow.** From the first byte of an assembled, self-contained program no run leaves instruction boundaries
  (`CodeLabels.AssembledControlFlow`), and the same holds after linking and loading it (`Toolchain.LoadedControlFlow`).
  Every call is closed by exactly one return or throw, at the right place (`ControlFlow.CallReturns`). These laws are
  about a machine whose bytecode and control state no store reaches. `Separation` puts both into the one memory the
  interpreter has, as words of the thread record. The laws carry over to every run whose stores miss bytecode and record
  (`Separation.RunAbstracts`), and with stores that go anywhere a run stays on instruction boundaries if and only if
  every control word stored over becomes an instruction boundary, the shadow stack pointer a place in its array
  (`Separation.ControlFlowIff`).
* **Linking.** When linking in two steps is linking in one, exactly (`Incremental.IncrementalLink`); after link and load
  every relocated field holds what its symbol means, for well-behaved objects (`LinkLoad.LinkLoadReference`) and for any
  whose relocation sites are in bounds and disjoint, with less than 2^32 bytes of code (`Meaning.LinkLoadMeaning`), and
  every other byte is the input's (`LinkLoad.LinkLoadElsewhere`). In memory, reading through any stored pointer gives
  the bytes of the definition its symbol stands for, told by its position in the input (`RunTime.PointerReads`), and for
  a label of the source the bytes of the directive behind it (`Pointers.LabelPointsAtDirective`).
* **Files.** Writing and reading round-trip, the format is canonical exactly for NUL-free names, truncated files are
  rejected (`Format.ReadWrite`, `FormatLaws.Canonical`, `FormatLaws.TruncatedRejected`).
* **Block compiler.** Emitted bytes, decoded and executed as x86-64, simulate the interpreter
  (`Jit.BlockSimulation`, and through the block table in any reachable context, `BlockLaws.NativeSimulates`). Executed
  from memory, the trampoline of a compiled block leads into its code (`NativeBlocks.TrampolineRuns`), and that of any
  other block to the compile handler with that block's offset (`NativeStubs.UncompiledCallsHandler`).
* **Threads.** Under every schedule of any number of interpreters the mutex-protected counter is right, mutual
  exclusion holds and nothing deadlocks (`Mutex.CounterWhenFree`, `Mutex.CounterAtEnd`, `Mutex.MutualExclusion`,
  `Mutex.Progress`).

Where the code departs from what its comments or documentation say, the model follows the code, and a lemma states
exactly when the intended property holds:

* `inc/linker.h:11-12` says an extern is matched with a GLOBAL of another input. The code takes the first symbol of the
  name, LOCAL or not, so an extern is bound to a global if and only if some object exports its name
  (`LinkNames.ExternBinding`, with the two objects of `LinkNames.ExternBindsToLocal`), and a global defined later
  replaces the first LOCAL of its name (`LinkNames.LocalKeptIff`).
* `inc/linker.h:15` promises an error on duplicate globals. A full symbol table drops definitions silently, so two
  definitions can pass (`LinkNames.MergeFailsIff`, `LinkNames.FullTableHidesDuplicate`).
* Linking step by step is not always linking at once: a global without a section can take over an imported name
  (`Incremental.IncrementalLink`, `LinkLaws.SectionlessGlobalBreaksLaw`).
* `src/asm.c:98-107` records a code relocation only if the label is already extern at the reference
  (`Relocs.OperandRelocatedIff`, `Relocs.LateExternIsNotRelocated`). Such an operand stays 0, which is right if and only
  if the definition ends up at offset 0 of the code (`CodeOperands.LateExternIff`, `CodeOperands.LateExternGoesWrong`).
* `src/asm.c:622` encodes `lea` with base 0 (`Addressing.LeaRightIff`).
* Code operands of labels the source defines carry no relocation (`src/asm.c:80-85`), so they are right if and only if
  the object's code comes first (`CodeOperands.CodeOperandIff`). Linked behind one byte of code, `f: jmp f` jumps
  to 0 while f is at 1 (`CodeOperands.LocalJumpGoesWrong`).
* `src/main.c:78` starts a program at its entry point by moving the origin of all its jumps, so they are right if and
  only if the entry point is at offset 0 (`EntryPoint.JumpFromEntryIff`). The source `add; f: add; main: jmp f` goes
  inside an instruction with its first step (`EntryPoint.EntryLeavesBoundaries`).
* `src/asm.c:179` skips declared but undefined globals, which shifts the symbol indices of later labels
  (`SymIndices.RelocIndexIff`); the source `global g; mov ax, d; .data; d: db 7; e:` loads the address of e
  (`SymIndices.RelocationNamesWrongSymbol`).
* `inc/vm.h:65` calls the shadow stack ROP-safe. `src/vm.c:128` stores through any address, and `src/syscall.c:247`
  gives a thread the address of its own record, where instruction pointer, shadow stack and shadow stack pointer lie.
  With the bytecode in place a run stays on instruction boundaries if and only if, step by step, ip and every live
  return address that are not what the instruction itself leaves are boundaries and the pointer is in the array
  (`Separation.ControlFlowIff`); for one word stored over the record, if and only if that word may hold the stored value
  (`Separation.StoreIff`). Two programs fail that:
  `call f, f; f: mov di, (second word of the shadow stack); mov ax, (bytecode + 1); mov [di], ax; ret` returns into the
  middle of an instruction (`Escapes.StoreIntoShadowEscapes`), and
  `mov di, (ip of the record); mov ax, (bytecode + 1); mov [di], ax` goes there without touching the shadow stack
  (`Escapes.StoreIntoIpEscapes`).
* `src/jit.c:182-206` copies rcx into the shift's source instead of the reverse (`Jit.ShiftRightIff`).
* `src/jit.c:92-108` leaves the callee's own trampoline as the return target of a compiled call, where
  `src/vm.c:201-208` leaves the address behind the call: right if and only if the callee is the block behind the call.
  It also overwrites rax, which holds ax (`NativeBlocks.CompiledCallIff`).
* `src/jit_trampoline.c:24` calls the compile stub 32 bytes, `src/jit_trampoline.c:117` gives it 64 and it takes 71, so
  each stub loses its tail to the next (`BlockLaws.StubWholeIff`). The 4096th stub would run past its arena, so only
  4095 blocks can be made (`BlockLaws.BlockGetIff`).
* `inc/dvm_fmt.h:9-24` omits the entry point record and the relocation kind byte that reader and writer use.

## Model

| member | source | states |
|---|---|---|
| Isa.DecodeEncode | src/vm.c:41-48 | the interpreter's operand fetch reads back exactly the instruction that was encoded, at any offset of any code |
| Isa.DecodeAllEncodeAll | src/vm.c:41-55 | a linear sweep with the fetch widths recovers a whole encoded program from any of its boundaries |
| Memory.LoadAfterStore | src/vm.c:264-266 | a store followed by a load of the same width gives the value truncated to that width |
| Memory.LoadIsLe | src/vm.c:264-266 | a load reads the little-endian number of the bytes at its address |
| Effects.Arithmetic | src/vm.c:125-144 | moves, and sums, differences, negation and products modulo 2^64, the signed product included, and nothing else changes |
| Effects.Division | src/vm.c:136-142 | DIV and MOD give quotient and remainder of one division with the remainder below the divisor; a zero divisor stops the thread |
| Effects.SignedDivision | src/vm.c:139-141 | IDIV rounds toward zero; it has no result exactly for a zero divisor and for the least integer by -1 |
| Effects.BitByBit | src/vm.c:147-150 | AND, OR and XOR act bit by bit, NOT flips every bit |
| Effects.ShiftsAndTruncations | src/vm.c:151-331 | shifts multiply or divide by 2 to the low six bits of the count, the arithmetic one the signed value; truncations keep the low 8, 16 or 32 bits |
| Effects.CompareThenJump | src/vm.c:157-187 | after CMP each conditional jump is taken if and only if the relation in its name holds of the two signed words, JMP always |
| Effects.CompareFlags | src/vm.c:157-167 | CMP's flags: equal, less signed, less unsigned, and signed difference out of range |
| Effects.TestThenJump | src/vm.c:168-187 | after TEST, JE is taken if and only if no bit is set in both words, and the other jumps compare accordingly |
| Effects.LoadStep | src/vm.c:127-289 | each load reads its 1, 2, 4 or 8 bytes at base plus signed displacement, zero- or sign-extended as its name says, and stops the thread if they are not mapped |
| Effects.StoreStep | src/vm.c:128-296 | each store leaves the low bytes of its source at base plus signed displacement and changes no other byte |
| Effects.LeaStep | src/vm.c:319-325 | LEA computes base plus signed displacement modulo 2^64 |
| Effects.PushStep | src/vm.c:190-196 | PUSH and ENTER store a word below sp; ENTER stores bp, points bp at it and leaves room for its operand |
| Effects.PopStep | src/vm.c:192-198 | POP and LEAVE read back the word at sp or bp and set sp right above it |
| Effects.AllocaStep | src/vm.c:310-317 | ALLOCA lowers sp by the least multiple of 8 that holds ax bytes and returns sp in ax |
| Effects.FloatMoves | src/vm.c:233-239 | raw words move between floating-point registers, immediates and memory unchanged |
| Effects.OutsideResults | src/vm.c:222-336 | where results of system calls and floating-point operations go, and that HALT alone ends a run |
| VmRun.VMThread.Spush | src/vm.c:25-31 | pushes on the shadow stack in place, or reports the overflow at depth 2048 and changes nothing |
| VmRun.VMThread.Spop | src/vm.c:33-39 | pops the last pushed word, or reports underflow |
| VmRun.VMThread.Call | src/vm.c:201-208 | CALL and CALLR leave the error target below the return address and continue at the target |
| VmRun.VMThread.Return | src/vm.c:209-219 | RET and THROW drop both words and continue at the upper or the lower one |
| VmRun.VMThread.StepOnce | src/vm.c:122-336 | one dispatch on the thread's own fields is the specified step: registers, shadow stack, memory and fault |
| VmRun.VMThread.Run | src/vm.c:51-58 | repeated dispatch without interference equals the fold of the specified step |
| VmRun.VMThread.constructor | src/vm.c:356-361 | a created thread has zero registers, ip at the bytecode and both stack pointers at the stack top |
| ControlFlow.StepControl | src/vm.c:175-219 | the complete effect of any instruction on ip and shadow stack, by kind |
| ControlFlow.RunStaysOnBoundaries | src/vm.c:175-219 | whole-run control-flow integrity with bytecode and shadow stack apart from memory: in every reachable state ip and every shadow-stack word are instruction boundaries |
| ControlFlow.NoUndefinedDispatch | src/vm.c:48 | so, under the same separation, dispatch never meets an undefined opcode, and runs off the code only at its end |
| ControlFlow.InsideCall | src/vm.c:201-219 | while a call is open no instruction changes its return addresses or the shadow stack below, bytecode and shadow stack being apart from memory |
| ControlFlow.CallReturns | src/vm.c:201-219 | the first state back at the caller's depth comes by RET right after the call or by THROW at its error target, with the caller's shadow stack intact, bytecode and control state being apart from memory |
| ControlFlow.DepthCountsOpenCalls | src/vm.c:25-39 | in every reachable state the depth is twice the calls minus returns and throws, at most 2048, the shadow stack and its pointer being apart from memory |
| Stores.StoreFrame | src/vm.c:123-332 | an instruction other than a system call changes memory only in the range given by its operand registers |
| Frames.SparedIsUntouched | src/vm.c:190-198 | if the thread's own store ranges and all other writes miss the saved words of open frames, these keep their values |
| Frames.FramesLinked | src/vm.c:194-198 | in any run whose stores miss the saved slots, the saved base pointers of all open frames form a chain in memory |
| Frames.LeaveRestores | src/vm.c:194-198 | in any such run each LEAVE restores the sp and bp its matching ENTER saw, under any nesting |
| Separation.StepAbstracts | src/vm.c:25-58 | with bytecode and thread record in one memory, one dispatch whose stores miss both is a step of the machine that keeps them apart from memory, and leaves the record in step with it |
| Separation.RunAbstracts | src/vm.c:25-58 | so is every run in which no store of any thread covers bytecode or record, whatever else other threads write |
| Separation.ControlFlowIff | src/vm.c:175-219 | with the bytecode in place, whatever is stored anywhere: every state of a run has ip and all return addresses on instruction boundaries if and only if, step by step, each control word that is not what the instruction itself leaves is a boundary and the shadow stack pointer is in its array |
| Separation.StoreIff | src/vm.c:128 | a word store over any word of the thread's own record, in any state of the program, keeps it on boundaries if and only if it stores a boundary over ip or a live return address, or a shadow stack pointer with boundaries below it, or hits a word that is none of these |
| Separation.SeparatedControlFlow | src/vm.c:175-219 | control-flow integrity in one memory for every run whose stores miss bytecode and record |
| Escapes.StoreIntoShadowEscapes | src/vm.c:128 | a structured program that, alone and from its first byte, stores over its return address and returns into the middle of an instruction |
| Escapes.StoreIntoIpEscapes | src/vm.c:128 | a structured program that, alone and from its first byte, stores over the ip of its record and so goes on in the middle of an instruction |
| Frames.SaveRestore | src/vm.c:190-193 | pushing any register list and popping it in reverse restores all of them and sp, whatever the body does to registers |
| Labels.RunKeeps | src/asm.c:39-73 | over any source the table has distinct names, stable indices, definitions that never change, and EXTERN implies no section and no offset |
| Labels.StatusIsFirstDefinition | src/asm.c:39-62 | the final entry of a name is determined by its first definition line alone |
| DataSections.SectionContents | src/asm.c:387-417 | on success each data section is the bytes of its directives in source order: little-endian numbers cut to their width, strings with their terminating 0 |
| DataSections.LabelledDirective | src/asm.c:373-417 | a label right in front of a directive ends up in its section, at the offset of the directive's bytes |
| Exports.SymbolIff | src/asm.c:171-189 | a defined name has one symbol, at its first definition, global if and only if some `global` line for it is not undone by an `extern` line before the definition; imports have one extern symbol, other names none |
| Acceptance.LineAcceptedIff | src/asm.c:310-635 | a line is accepted if and only if it stands in a section of the right kind and buffers, labels, patches and relocations have room for what it adds |
| Acceptance.AcceptedIff | src/asm.c:137-167 | a source is accepted if and only if all its lines are and every unresolved reference ends extern or suitably defined; the object is then within the format's limits |
| TwoPass.AssembleRefines | src/asm.c:76-167 | one-pass backpatching refines two-pass layout: the text is the encoding of the source's instructions with final label offsets, and fetching it gives them back |
| CodeLabels.RunResolved | src/asm.c:137-167 | on success every code label is extern or defined in the code section |
| CodeLabels.AssembledIsStructured | src/asm.c:76-108 | every code operand of a self-contained program is an instruction boundary of that program |
| CodeLabels.AssembledControlFlow | src/vm.c:175-219 | control-flow integrity of assembler output over every run, whatever other threads and system calls write outside bytecode and shadow stack |
| Relocs.AssembleRelocs | src/asm.c:98-118 | the relocation table lists exactly the relocated operands in source order, each index naming the referenced label |
| Relocs.AssembleSitesOrdered | src/asm.c:98-134 | relocation sites are in bounds, disjoint and increasing |
| Relocs.OperandRelocatedIff | src/asm.c:98-107 | an operand is relocated if and only if it is a data reference or its label is extern at that line |
| Relocs.LateExternIsNotRelocated | src/asm.c:98-107 | a source that assembles although its call to a later-declared extern gets no relocation |
| SymIndices.RelocIndexIff | src/asm.c:171-189 | relocation j of an assembled object names the label it was made for if and only if no undefined global comes before that label in the table |
| SymIndices.RelocationNamesWrongSymbol | src/asm.c:179 | a concrete source that assembles and whose relocation names another symbol |
| SymIndices.RelocatedIsWritten | src/asm.c:98-135 | the label of every relocation is extern or defined in the end, so a symbol is written for it |
| SymIndices.AlignedIff | src/asm.c:177-185 | every written label keeps its own index through asm_to_prog if and only if no undefined global precedes a written label |
| SymIndices.ObjectRelocsNameTheirLabels | src/asm.c:171-189 | with every declared global defined, each relocation of the object names the referenced symbol |
| Addressing.DisplacementAdds | src/vm.c:269-272 | the stored 32-bit displacement is added as the signed number the source wrote |
| Addressing.MemoryOperand | src/asm.c:433-518 | long and zero-displacement forms of a load or store reach base plus displacement with the mnemonic's width and sign |
| Addressing.OperandsKept | src/asm.c:422-635 | every other source instruction is encoded with its own mnemonic, registers, immediate and label offsets |
| Addressing.LeaRightIff | src/asm.c:612-624 | the encoded lea computes what its source says on all register files if and only if the base is ax |
| Assembler.Buf.Write | src/asm.c:9-13 | appends bytes to a section buffer in place, refusing where C would run past the buffer |
| Assembler.AsmCtx.LabelDefine | src/asm.c:39-62 | in-place label definition equals the specified table update |
| Assembler.AsmCtx.LabelRefCode | src/asm.c:76-108 | emits a known offset or a placeholder with a patch, and a relocation for an extern |
| Assembler.AsmCtx.LabelRefData | src/asm.c:111-135 | always emits a relocation, and a patch while the label is undefined |
| Assembler.AsmCtx.CompileLine | src/asm.c:323-635 | one source line on the mutable context equals the specified line step |
| Assembler.AsmCtx.PatchesResolve | src/asm.c:137-167 | accepts exactly when every patch is resolvable, and then the text is the one with all patches applied |
| Assembler.AsmCtx.Compile | src/asm.c:310-638 | the whole assembly on mutable buffers succeeds exactly when the specification does, with the same state |
| Format.ReadWrite | src/dvm_io.c:20-132 | reading what was written returns the program (names cut at their first NUL, an entry point always present) and stops exactly behind it |
| FormatLaws.ReadLonger | src/dvm_io.c:84-132 | what was accepted or overran stays so when more bytes follow |
| FormatLaws.TruncatedRejected | src/dvm_io.c:84-132 | every proper prefix of a written file is rejected |
| FormatLaws.ReadIff | src/dvm_io.c:84-132 | the reader accepts exactly the files laid out as a program within the limits, with names of up to 63 bytes of any value, and reads that program |
| FormatLaws.Canonical | src/dvm_io.c:20-132 | an accepted file is the rewriting of what was read followed by the unread rest if and only if no name read holds a NUL |
| FileLayout.WrittenFile | src/dvm_io.c:20-82 | where magic, entry record, sections, every symbol and every relocation lie in a written file, in literal bytes and little-endian numbers |
| FileIo.OutFile.DvmWrite | src/dvm_io.c:20-48 | the sequence of stream writes appends exactly the specified bytes |
| FileIo.InFile.FrSym | src/dvm_io.c:109-119 | one symbol record: accepted, rejected, or stored past its 64-byte name field |
| FileIo.InFile.DvmRead | src/dvm_io.c:84-132 | the sequence of stream reads accepts, rejects or overruns as specified and leaves the stream where specified |
| LinkLaws.MergeKeeps | src/linker.c:100-135 | throughout pass 3 a global is the first symbol of its name, no symbol is extern, and indices keep their names |
| LinkLaws.LinkedObject | src/linker.c:100-176 | a linked object has no extern, unique globals that lookups find, relocation indices in the table, and table sizes within limits |
| LinkSuccess.LinksIff | src/linker.c:100-176 | a link succeeds if and only if the definitions merge, every import is provided by a first entry with a section, every relocation names a symbol the merged table holds, and there are at most 2048 relocations |
| LinkLaws.EntryChosen | src/linker.c:182-200 | the given entry name, or without one `_start` and then `main`: the first of them whose first symbol lies in the code gives the entry offset, else it is 0 |
| LinkLaws.TwoSteps | src/linker.c:54-204 | linking S onto the link of P agrees with linking P and S at once while the imports of P stay met in the merged table, and otherwise the latter fails; the first entry name does not matter |
| Incremental.IncrementalLink | src/linker.c:54-204 | the two agree in success and every field if and only if it is not so that the two-step link succeeds while S exports, only without a section, a name that P imports and does not export |
| Incremental.PlacedGlobalsLink | src/linker.c:54-204 | the law holds for every S whose globals have sections |
| LinkLaws.RelinkIdentity | src/linker.c:54-204 | relinking a linked object alone gives the same sections, symbols and relocations |
| LinkLaws.SectionlessGlobalBreaksLaw | src/linker.c:121-130 | two concrete objects on which linking in two steps succeeds and linking at once fails |
| LinkNames.MergeIsAddAll | src/linker.c:104-135 | pass 3 over objects is adding all definitions one after the other |
| LinkNames.MergeFailsIff | src/linker.c:119-133 | for any objects, pass 3 fails if and only if some global follows a global of its name that has a section and was kept by the table |
| LinkNames.DuplicateGlobalFails | src/linker.c:121-125 | while the table has room, a second global after one with a section always makes the link fail |
| LinkNames.FullTableHidesDuplicate | src/linker.c:46-52 | three concrete objects with a global defined twice that link, since 1024 locals fill the table |
| LinkNames.SlotFate | src/linker.c:119-134 | the final value of any table entry: itself, or for the first entry of its name the last global of the name |
| LinkNames.OvertakenIff | src/linker.c:126-129 | a local entry is replaced if and only if it is the first of its name and a global of that name follows |
| LinkNames.LocalKeptIff | src/linker.c:126-134 | a local definition keeps its own entry in the output exactly unless that happens |
| LinkNames.ExternBinding | src/linker.c:138-151 | the index an extern is resolved to holds the first definition of its name, or the last global of the name, and is a global if and only if some object exports the name |
| LinkNames.ExternBindsToLocal | src/linker.c:144-149 | two concrete objects where an import is bound to the other's private symbol |
| Origins.StandsForOne | src/linker.c:138-151 | in a link that succeeds every symbol stands for a definition: an extern for the last global of its name or else the first definition, a global or first definition for the last global behind it, any other for itself |
| Origins.FinalStandsFor | src/linker.c:100-151 | and the output entry it ends up with is that definition, moved to its object's place |
| LinkLoad.RelsOrdered | src/linker.c:153-176 | rebasing keeps relocation sites in bounds, disjoint and ordered across objects |
| LinkLoad.RelsDisjoint | src/linker.c:153-176 | rebasing keeps sites in bounds and disjoint across objects, whatever the order of their tables |
| LinkLoad.LinkLoadReference | src/dvm_io.c:175-200 | after link and load, each relocation of object i stores at its rebased site the address, or the 4-byte code offset, of the symbol it means |
| Meaning.ResolvedIsFinal | src/linker.c:100-151 | the merged entry of any symbol of any object, given by the input definitions alone |
| Meaning.LinkLoadMeaning | src/dvm_io.c:175-200 | after link and load, for any objects with disjoint relocation sites in bounds, in any order, and less than 2^32 bytes of code, each relocation stores the address or code offset of what its symbol finally is |
| LinkLoad.LinkLoadElsewhere | src/dvm_io.c:164-200 | every code byte outside the relocation sites is the input object's byte |
| LinkLoad.LinkedLoadsIff | src/dvm_io.c:164-190 | the output of a link loads if and only if it has code and every relocation refers to a section that exists and is not empty |
| LinkLoad.DefinitionByte | src/linker.c:88-98 | the offset stored for a symbol is where its object's bytes lie in the output section, without wrap-around |
| RunTime.PointerReads | src/dvm_io.c:164-200 | with the loaded program in memory, every 8-byte relocation is a pointer through which the bytes of the definition its symbol stands for are read |
| RunTime.OffsetReads | src/dvm_io.c:191-199 | every 4-byte relocation is the distance from the start of the code to the definition its symbol stands for |
| Pointers.LabelPointsAtDirective | src/asm.c:111-135 | assembled, linked with anything and loaded, `mov r, label` holds the address of the bytes of the directive behind the label |
| LinkerRun.LinkJob.CopySections | src/linker.c:78-98 | passes 1 and 2: the output arrays hold the concatenated sections and every base is recorded |
| LinkerRun.LinkJob.Define | src/linker.c:119-134 | one definition: duplicate error, replacement in place, or append |
| LinkerRun.LinkJob.MergeObjects | src/linker.c:104-136 | pass 3 in nested loops equals the specified merge of all objects |
| LinkerRun.LinkJob.ResolveExterns | src/linker.c:138-151 | pass 4 in place equals the specified resolution of all symbol maps |
| LinkerRun.LinkJob.MapRelocs | src/linker.c:153-176 | pass 5 equals the specified relocations, failing exactly when one is unmapped or the table is full |
| LinkerRun.LinkJob.Entry | src/linker.c:184-200 | the entry point is the first candidate that names a code symbol |
| LinkerRun.DvmLink | src/linker.c:54-204 | all passes together compute the specified link |
| LinkerRun.PassByPass | src/linker.c:138-176 | resolving and remapping object by object or pass by pass gives the same relocations or the same failure |
| Loader.RelocateSpec | src/dvm_io.c:175-200 | with disjoint sites every site holds its value and every other byte is unchanged |
| Loader.RelocationOrderIrrelevant | src/dvm_io.c:175-200 | the loaded code does not depend on the order of the relocation table |
| Loader.LoadsIff | src/dvm_io.c:150-190 | a program loads if and only if it has code and every relocation names a symbol that is not extern and lies in a non-empty section; sections and entry are kept |
| LoaderRun.RelocateInPlace | src/dvm_io.c:175-200 | the in-place relocation loop equals the specified relocation and fails exactly when it does |
| LoaderRun.DvmLoad | src/dvm_io.c:150-209 | loading equals the specified load, rejecting empty code |
| Toolchain.LoadedProgram | src/dvm_io.c:150-209 | assembled, linked alone and loaded, the code is the encoding of the source's instructions with relocated 8-byte immediates |
| Toolchain.LoadedControlFlow | src/main.c:72-81 | end to end: started at its entry point, at offset 0, no run of the loaded program leaves instruction boundaries or meets an undefined opcode |
| CodeOperands.CodeOperandIff | src/asm.c:80-85 | an unrelocated code operand whose label the source defines is that label's offset in the linked output if and only if the object's code comes first |
| CodeOperands.LocalJumpGoesWrong | src/asm.c:80-85 | a concrete object, linked second, whose loaded jump to its own label goes to 0 while the label is at 1 |
| CodeOperands.LateExternIff | src/asm.c:87-107 | an unrelocated code operand whose label no line defines holds 0, and is the code offset of what the import is bound to if and only if that is a definition at offset 0 of the code |
| CodeOperands.LateExternGoesWrong | src/asm.c:98-107 | two concrete objects whose loaded jump goes to 0 while its target is at 6 |
| EntryPoint.JumpFromEntryIff | src/main.c:78 | started at an entry point, a taken jump lands at its operand's place in the code section if and only if the entry offset is 0 |
| EntryPoint.EntryLeavesBoundaries | src/main.c:72-81 | a concrete source that assembles to a structured program, links with its entry point at offset 4, loads anywhere, and leaves its instruction boundaries in its first step |
| X86.ImulIsMul | src/jit.c:164-173 | the signed multiplication emitted for MUL and IMUL gives the interpreter's unsigned product modulo 2^64 |
| Jit.EmittedRuns | src/jit.c:144-206 | the bytes emitted for an integer instruction decode as x86-64 and have its stated native effect |
| Jit.NativeIsResult | src/jit.c:144-206 | that effect keeps the VM registers equal under the register map and leaves every other x86 register alone |
| Jit.ShiftRightIff | src/jit.c:182-206 | the translation of a shift is right on all register files if and only if its source is cx |
| Jit.BlockSimulation | src/jit.c:130-206 | forward simulation for every straight-line block: emitted bytes and interpreter end in related registers, nothing else changed on either side |
| Blocks.PutTwice | src/jit.c:27-39 | writing in pieces moves the code arena exactly when writing at once does |
| BlockLaws.BlockGetTable | src/jit_trampoline.c:134-159 | getting a block keeps offsets distinct, trampolines intact and earlier entries unchanged |
| BlockLaws.CompileBlockInv | src/jit.c:130-257 | compiling keeps the table invariant, and the recorded pointer is into the current arena if and only if the native size of the bytecode block fits in what is left |
| BlockLaws.ServeAllKeeps | src/jit_trampoline.c:134-163 | over any sequence of requests no handed-out trampoline or native pointer changes |
| BlockLaws.Trampolines | src/jit_trampoline.c:11-21 | in any reachable context trampolines are disjoint and jump to native code once compiled and to the stub before |
| BlockLaws.StubWholeIff | src/jit_trampoline.c:40-105 | a compile stub is whole if and only if it is the newest |
| BlockLaws.NativeSimulates | src/jit.c:130-257 | in any reachable context the bytes at a compiled block's native offset simulate the interpreter on its straight-line part |
| BlockLaws.BlockGetIff | src/jit_trampoline.c:134-159 | in any reachable context a block is found or made if and only if it is known or fewer than 4095 exist |
| BlockLaws.UnhandledIff | src/jit.c:139-251 | compiling aborts if and only if it meets an untranslated opcode before the block ends |
| BlockLaws.ArenaSize | src/jit.c:27-39 | in any reachable context the code arena holds one megabyte times 2 to the number of moves, and all emitted code fits in it |
| Native.StraightRuns | src/jit.c:144-206 | straight-line code runs from memory as from its byte sequence |
| NativeBlocks.TrampolineTarget | src/jit_trampoline.c:18-21 | the address in a compiled block's trampoline, less the base of the current mapping, is the offset at which the block's bytes begin |
| NativeBlocks.TrampolineRuns | src/jit.c:130-257 | started at the trampoline, the processor runs the straight-line part of the block as the interpreter does, in rax, rbx, rcx, rdx, rdi, rsi, r8 and r9 |
| NativeBlocks.NativeCall | src/jit.c:92-108 | a compiled call lowers r14 by 16, leaves the error target below and the callee on top, goes to the callee and writes nothing else |
| NativeBlocks.NativeReturn | src/jit.c:110-125 | compiled RET and THROW drop both words and go to the upper or the lower one |
| NativeBlocks.NativeHalt | src/jit.c:82-85 | a compiled HALT restores rbp and returns to the word above it |
| NativeBlocks.FloatDecodes | src/jit.c:207-228 | the bytes for FADD and FMUL are ADDSD and MULSD on the same registers |
| NativeBlocks.CompiledCallIff | src/jit.c:230-242 | in any reachable context a compiled call goes where the interpreter goes, but its return target is right if and only if the callee is the block behind it, and ax survives only by accident |
| NativeStubs.UncompiledCallsHandler | src/jit_trampoline.c:40-105 | the trampoline of a block not yet compiled leads to the compile handler with the context and the block's offset as arguments and nine registers saved |
| JitCompiler.JitBuf.Alloc | src/jit.c:27-39 | reserves bytes, moving to a mapping of twice the size when they do not fit, contents kept |
| JitCompiler.JitBuf.Straight | src/jit.c:144-228 | the byte-by-byte emitters write exactly the specified bytes |
| JitCompiler.JitBuf.Call | src/jit.c:92-108 | the call sequence writes exactly the specified bytes |
| JitCompiler.JitCtx.BlockGet | src/jit_trampoline.c:134-159 | linear search and creation on mutable arenas equal the specification |
| JitCompiler.JitCtx.CompileLoop | src/jit.c:139-251 | the compile loop over the bytecode equals the specified translation and stops where it stops |
| JitCompiler.JitCtx.CompileBlock | src/jit.c:130-257 | returns existing native code or compiles, records and redirects, as specified |
| Syscalls.Kernel.Call | src/syscall.c:263-350 | the dispatcher in place equals the specified reply for mutex and atomic calls |
| Syscalls.MutexLifetime | src/syscall.c:263-320 | a created mutex is free, a lock shuts everyone out until its holder unlocks, and destroying it restores the state |
| Syscalls.FailingCalls | src/syscall.c:105-350 | results of calls on handle 0, of a failed allocation and of unknown numbers, with nothing changed |
| Syscalls.AtomicCalls | src/syscall.c:326-343 | both atomic operations return the old number, leave sum or replacement, and change no other byte and no mutex |
| Syscalls.AddConserves | src/syscall.c:326-331 | cell plus deltas still to come is conserved modulo 2^64 under every schedule |
| Syscalls.AllAdded | src/syscall.c:326-331 | when all threads are done the cell is its first value plus all deltas modulo 2^64 |
| Syscalls.OneWinner | src/syscall.c:333-343 | of any racers exactly one compare-exchange sees the expected value, and its value stays |
| CounterProgram.SourceAssembles | test/test_syscall.c:510-529 | the shared-counter source assembles, to the code of the interleaving theorems |
| Mutex.TurnKeeps | src/syscall.c:278-304 | every turn of every thread keeps the invariant, and only a thread at a held lock cannot take its turn |
| Mutex.CounterWhenFree | src/syscall.c:278-304 | under every schedule, whenever the mutex is free the counter is its first value plus the threads past their critical section |
| Mutex.MutualExclusion | src/syscall.c:278-304 | under every schedule at most one thread is between lock and unlock |
| Mutex.CounterAtEnd | test/test_syscall.c:530-541 | when all N threads have halted the counter has grown by N |
| Mutex.Progress | src/syscall.c:278-304 | no schedule deadlocks, and none is longer than twelve turns a thread |
| Registry.ExactlyRegistered | src/vm.c:341-354 | after any sequence of additions and removals the list holds exactly once each thread added and not yet removed |
| Registry.ThreadList.Add | src/vm.c:341-346 | prepends in the heap, keeping the list acyclic |
| Registry.ThreadList.Remove | src/vm.c:348-354 | unlinks in the heap; an absent thread changes nothing |

## Left out

- Tokenizing, number and string parsing, `.equ`, diagnostics: the assembler model starts from parsed lines.
- Files, memory mapping and page protection: streams are byte sequences, section and arena addresses are parameters. The
  block compiler makes its arena executable and not writable after each block and never writable again; that is not
  modelled.
- Floating point: registers hold raw words, and results of floating-point instructions come from outside. The bytes
  emitted for FADD and FMUL are modelled and decoded (`NativeBlocks.FloatDecodes`), their execution is not.
- System calls other than the four of a mutex and the two atomics: in `Vm` a system call may return any word and leave
  any memory behind.
- IDIV of the least integer by -1, MOD by zero, unmapped accesses: undefined in C, explicit faults here. Signed overflow
  of IMUL and NEG is taken to wrap.
- A stub is executed up to its call of the compile handler, not behind it, where all but the newest go on in the next
  stub (`BlockLaws.StubWholeIff`).
- Loader.RelocateSpec: a site past the end of the code overwrites other memory in C and nothing here; sites are required
  to be disjoint and in bounds, which assembler and linker are proved to guarantee.
- LinkLoad.LinkLoadReference: requires name-hygienic objects (LOCAL names disjoint from GLOBAL and EXTERN names);
  `Meaning.LinkLoadMeaning` is the statement for any objects whose sites are in bounds and disjoint.
- ControlFlow.RunStaysOnBoundaries: programs without CALLR, started at offset 0, since jumps are relative to the entry
  address; bytecode and control state are apart from memory. `Separation.RunAbstracts` says when a run in one memory is
  such a run, and `Separation.ControlFlowIff` when any run keeps to its instructions.
- Separation.ControlFlowIff: the bytecode stays in place; a store over it changes the program and is not followed. Data
  registers may change arbitrarily between steps, which covers stores over their words of the record.
- Separation.StoreIff: word stores to a whole word of the record; stores of other widths and across two words are
  covered by `Separation.ControlFlowIff` only.
- Pushing on the shadow stack (`src/vm.c:30`) is modelled as moving the pointer after the store; C leaves the order
  open, which matters only if the pointer has been made to point at itself.
- Toolchain.LoadedControlFlow: one object with entry offset 0, since a later object's jumps to its own labels go
  elsewhere (`CodeOperands.LocalJumpGoesWrong`); no undefined global comes before a label that a code
  operand is relocated to, since its relocation would name another symbol (`SymIndices.RelocIndexIff`).
- VmRun.VMThread.Run: runs for as many steps as results of outside calls are supplied; the C loop runs until HALT.
- Names longer than their fields: cut by the assembler, an overrun in the reader (`NameOverrun`), not modelled
  elsewhere.
- Host threads and memory ordering: threads interleave instruction by instruction, which sequential consistency asks
  for.
- Command line, disassembly and dump, build files, Windows branches.
