# A verified model of the DCPU-16 toolchain

This project models the cores of the DCPU-16 toolchain in Dafny and proves what they are for: the linker
moves code without changing what any pointer or label denotes, separately assembled programs link to the
program assembled as one, with its short literals folded where the linker compresses it, the machine does with an
assembled line what the line says, and it keeps its interrupt and skip rules over every run. What instructions,
conditions and expression operators compute is given by laws of arithmetic and bits.

**How to read it.** An object's meaning is its `View` (module `BinImages`): every word is a literal, or, if the
adjustment table lists it, a pointer to an address of a named bin. Insertion, removal, flattening, the jump
table, resolution, compression and `offset()` are each specified by functions on values, proved in terms of
views, and carried out in place by methods on the class `Bin` that are proved against those functions.

* Linker bins: `BinImages`, `Splicing`, `Removal`, `RemovalMeaning`, `Meaning`, `Bins`.
* Linker passes: `Flattening`, `FlattenMeaning`, `SectionMeaning`, `FlattenTheorem`, `FileTables`, `Linker`,
  `JumpTable`, `JumpWriter`, `Resolving`, `ResolutionMeaning`, `Resolver`, `OpenCode`, `Offsetting`,
  `Compression`, `CompressionExact`, `Compressor`, `CompressedCode`.
* Assembler: `Bits`, `Expressions`, `ExpressionLaws`, `Assembly`, `AssemblerHalts`, `AssemblyMeaning`,
  `AssemblyRecords`, `PositionIndependence`, `Assembler`, and, together with the linker, `Programs`, `ObjectView`,
  `SeparateAssembly`, `SeparateLinking`, `SeparateTheorem`, `ProgramLinker`; from source lines through the
  compression pass: `LineCode`, `ShortCode`, `LinkedLines`, `CompressedTheorem`.
* Virtual machine: `Machine` (the steps as functions), `Vm` (the machine in place), `Operands`, `ArithmeticLaws`,
  `Instructions`, `SpecialInstructions`, `Conditions`, `Skipping`, `SkipLoop`,
  `InterruptSafety`, `HandlerReturn`, `SkippedInterrupt`, `CarryStep`, `MultiPrecision`, `MultiPrecisionMemory`.
* Encoding: `Dcpu`, `Encoding`, `Disassembler`, and `AssembledCode` (from source lines to the machine).
* Companions: `ObjectFile`, `ObjectBytes`, `ObjectLoading` (from the assembler through a file to the linker),
  `Scopes`, `Keyboard`.

`dafny verify dfyconfig.toml` checks the whole project.

**Modelling decisions.** Linked lists and simclist lists are sequences; their element copies are values.
Sixteen-bit wrap-around is written out with `Wrap`. Every halt, failed assertion or null dereference of the
source is an explicit `None` or `false`. Sorting is stable. A table that is still null in the source is an
empty table. A list that is being iterated over refuses insertions, as simclist does, so the outputs of a
section body are not added while the second loop of `bins_flatten` runs. The machine's environment (devices
and hooks) acts between the parts of a cycle, where the hooks are called, by raising interrupts and writing
registers or memory.

**Where code and documentation differ**, the model follows the code: an imported slot is written as 0 and not
as 0xFFFF (libdcpu-ci-asm/aout.c:574 sets a field that the writing pass does not look at); `keepOptional` keeps
the entries but still resolves them (libdcpu-ld/ldbins.c:985); the clear request of the keyboard does not empty
its queue; `vm_disassemble` does not restore the cycle count.

## Model

| member | source | states |
|---|---|---|
| `BinImages.SortSorts` | libdcpu-ld/ldbin.c:269-272 | sorting a table by address gives an ascending table with the same entries, counted |
| `Splicing.ViewOfRepoint` | libdcpu-ld/ldbin.c:363-411 | the repointing loop over one bin maps every pointer of its view by the location map of the insertion and changes no literal |
| `Splicing.ViewOfInsert` | libdcpu-ld/ldbin.c:174-199 | `bin_insert` seen as cells: the target's view with the copied stretch spliced in, every pointer mapped; slots stay in range and distinct |
| `Meaning.InsertKeepsMeaning` | libdcpu-ld/ldbin.c:174-446 | for any set of uniquely named bins with distinct slots: every old and every copied place, in whichever bin, holds the image of its old cell after the insertion, so every pointer denotes the image of its old target |
| `Meaning.InsertMovesLabels` | libdcpu-ld/ldbin.c:252-318 | a table entry is in the target's table afterwards if and only if it is an old entry moved by the location map or an entry that the copying loop takes along, transplanted; entries inside the source are taken along exactly if they are in the copied stretch, to the images of their places |
| `Meaning.EndLabelIsShifted` | libdcpu-ld/ldbin.c:276-285 | when a bin is appended, a label of the target stays in its table where it is if and only if a word follows it there; one at the very end is shifted behind the appended words |
| `Meaning.EndLabelIsTaken` | libdcpu-ld/ldbin.c:290-316 | a label at the very end of the appended bin is taken along to the end of the target |
| `Meaning.EndPointerIsLeftBehind` | libdcpu-ld/ldbin.c:363-407 | a pointer into the appended bin, in whatever bin it stands, is taken along if and only if it points to a word; one behind the last word keeps pointing to the bin left behind |
| `Removal.ViewOfRemove` | libdcpu-ld/ldbin.c:213-236 | the bin that `bin_remove` cuts, seen as cells: the window is gone and every pointer into the bin and behind the window is lowered, as long as behind the window the bin has only pointers into itself |
| `Meaning.RemoveKeepsMeaning` | libdcpu-ld/ldbin.c:458-589 | with any number of live bins, every place outside the window keeps its cell, pointers into the bin lowered, if and only if behind the window the bin has only pointers into itself and at those addresses no other bin has a pointer into it; the linker then does not halt |
| `Meaning.RemoveKeepsTargets` | libdcpu-ld/ldbin.c:553-587 | under that condition a pointer to a word outside the window denotes the same word afterwards, whichever bins the two are in |
| `RemovalMeaning.WrongSlotIsLowered` | libdcpu-ld/ldbin.c:564 | a concrete bin of which the removal from another bin makes a literal of the pointer and a pointer of the literal |
| `Meaning.RemoveMovesLabels` | libdcpu-ld/ldbin.c:458-513 | exactly the window's entries leave a table; each survivor names the same word |
| `Bins.InfoInsertPlain` | libdcpu-ld/ldbin.c:269-318 | the two loops over a plain table give the shifted old entries followed by the transplanted ones; output tables are not shifted |
| `Bins.RepointBin` | libdcpu-ld/ldbin.c:377-411 | the in-place repointing loop over one bin's adjustments computes the specified image |
| `Bins.InfoInsertAdjustment` | libdcpu-ld/ldbin.c:320-445 | the adjustment case: copied entries, every listed bin repointed once, then the target |
| `Bins.Insert` | libdcpu-ld/ldbin.c:174-199 | `bin_insert` in place: target, source and every other listed bin end up as the specified images |
| `Bins.ScanFinal` | libdcpu-ld/ldbin.c:473-513 | the deletion range found by the del_start/del_end scan of an ascending table is exactly the window |
| `Bins.InfoRemove` | libdcpu-ld/ldbin.c:458-535 | the scan over the sorted table deletes exactly the entries of the window and lowers the later ones (not in the adjustment table) |
| `Bins.RetargetBin` | libdcpu-ld/ldbin.c:553-587 | the retargeting loop over one bin; it reports the halt of the workaround for issue 191 exactly when a slot would leave its bin |
| `Bins.Remove` | libdcpu-ld/ldbin.c:213-236 | `bin_remove` in place on any list of bins, with the exact condition under which the linker survives it |
| `FlattenMeaning.FilesAreConcatenated` | libdcpu-ld/ldbins.c:734-754 | the first loop of `bins_flatten` refines concatenation: it never halts, cells are the objects' cells one after another with each pointer increased by the base of the object it points into, tables are concatenated and moved by the bases |
| `SectionMeaning.SectionsAreSpliced` | libdcpu-ld/ldbins.c:756-787 | inserting section bodies at the output points in any descending order yields the code with every body spliced at its recorded point, and pointers mapped to the final places; of several bodies at one address the one inserted last comes first, and a section taken by several outputs is spliced at each, with pointers into it going to the copy that is inserted first |
| `SectionMeaning.FlattenedPlace` | libdcpu-ld/ldbins.c:756-787 | every place of the code and of every inserted section holds its original cell at its final place, its own pointer moved along |
| `SectionMeaning.LabelsAreMoved` | libdcpu-ld/ldbin.c:269-286 | after all insertions the labels are exactly those of the code and of every spliced body, each at the final place of the word it named |
| `FlattenTheorem.FlatteningConcatenates` | libdcpu-ld/ldbins.c:711-805 | without sections, `bins_flatten` succeeds and is concatenation, for cells and for every table; the outputs end up in descending order |
| `FlattenTheorem.FlatteningSplices` | libdcpu-ld/ldbins.c:711-805 | with sections and any output points, the flattened bin is the concatenated code with all bodies spliced in and all pointers at their final places, and every table lists exactly the labels of the code and the bodies at their final places |
| `Linker.InsertListed` | libdcpu-ld/ldbin.c:155-158 | appending or inserting a whole listed bin in place computes the specified link state |
| `Linker.ClearListed` | libdcpu-ld/ldbin.c:115-119 | removing all words of a listed bin in place, with its halting condition |
| `Linker.LinkerState.Flatten` | libdcpu-ld/ldbins.c:711-805 | `bins_flatten` in place: halts exactly when the specification does, and leaves one fresh bin with the specified contents |
| `Linker.LinkerState.Associate` | libdcpu-ld/ldbins.c:567-591 | `bins_associate` in place: every adjustment of every bin points into its own bin |
| `FileTables.FlatFrom` | libdcpu-ld/ldbin.c:269-318 | every entry of a flattened table comes from one object and is moved by its base |
| `FileTables.FlatHas` | libdcpu-ld/ldbin.c:269-318 | every entry of an object is in the flattened table, moved by the object's base |
| `JumpTable.JumpTableIsBuilt` | libdcpu-ld/ldbins.c:869-909 | after any number of rounds: the table words sit contiguously from the table start, the k-th points to the final place of the k-th exported function although later insertions moved it, the k-th jump entry names its table word, and every other pointer still denotes its word |
| `JumpTable.JumpTableMovesLabels` | libdcpu-ld/ldbins.c:884-888 | the labels of the other tables move with their words; outputs stay |
| `JumpWriter.MoveTemp` | libdcpu-ld/ldbins.c:884-888 | `bin_move` of one zero word from a temporary bin is the specified insertion; removing it from the temporary bin retargets nothing |
| `JumpWriter.WriteJump` | libdcpu-ld/ldbins.c:814-909 | `bins_write_jump` in place on the flattened bin, including the missing table start and a table that does not fit |
| `JumpWriter.StartIsFirst` | libdcpu-ld/ldbins.c:837-853 | the table goes where the first entry without a name says, and there is none exactly if all entries have names |
| `JumpWriter.TableFitsIff` | libdcpu-ld/ldbins.c:869-909 | the loop succeeds if and only if there is nothing to export or the start is inside the bin and all words fit; every export adds one word and renames nothing |
| `Resolving.SeekFindsFirst` | libdcpu-ld/ldbins.c:1008-1009 | `list_seek` finds the first entry of that label, or there is none |
| `Resolving.ResolveLinks` | libdcpu-ld/ldbins.c:987-1190 | resolution halts exactly when one label cannot be resolved, touches only the slots of labels, and leaves all of them right if and only if no jump or missing label comes behind a provided one |
| `ResolutionMeaning.SlotIsResolved` | libdcpu-ld/ldbins.c:1005-1141 | by what the provided and the jump table list: the slot of a required or optional label becomes a pointer to the first provided label of its name; if there is none, the address of the first jump entry, or zero where missing labels are not allowed, both of them a pointer exactly if a provided label comes before; where missing labels are allowed, the slot of one stays as it was |
| `ResolutionMeaning.HaltsIff` | libdcpu-ld/ldbins.c:1005-1151 | the linker halts if and only if a label is both provided and a jump, is required and neither while missing labels are not allowed, has no name, or has its slot outside the bin, save for optional labels far behind the end |
| `ResolutionMeaning.TablesAreTidied` | libdcpu-ld/ldbins.c:1068-1190 | each option: which required and optional entries are kept, the provided table kept or emptied, all other tables as before but for the adjustments added |
| `Resolving.LateJumpIsRelocated` | libdcpu-ld/ldbins.c:1048-1059 | a concrete bin whose jump label, coming behind a provided one, becomes a relocatable pointer instead of an absolute address |
| `OpenCode.ResolveOpen` | libdcpu-ld/ldbins.c:987-1190 | resolving a bin that has the cells of a program except at the empty slots of its labels, each required one provided at one place and each optional one provided at one place or nowhere, gives exactly the cells of the program, with zero for the optional labels that are missing |
| `Resolver.ResolveEntry` | libdcpu-ld/ldbins.c:1005-1065 | one round of either loop in place, with the adjustment record that is never cleared |
| `Resolver.DeleteResolved` | libdcpu-ld/ldbins.c:1068-1079 | the deletion loop keeps exactly the unmatched entries where missing labels are allowed |
| `Resolver.Resolve` | libdcpu-ld/ldbins.c:987-1190 | `bins_resolve` in place computes the specified bin or halts |
| `Offsetting.MovedPointwise` | libdcpu-ld/ldpolicy.c:195-203 | one pass over the adjustments moves every slot once and nothing else |
| `Offsetting.MovedIsPlaced` | libdcpu-ld/ldpolicy.c:195-205 | moving placed code from one position to another is placing it there, modulo 0x10000 |
| `Offsetting.Policy.Offset` | libdcpu-ld/ldpolicy.c:188-206 | one `offset()` call in place |
| `Offsetting.Policy.OffsetAll` | libdcpu-ld/ldpolicy.c:188-206 | any sequence of `offset()` calls leaves every adjusted word at its linked value plus the last position and touches nothing else |
| `Compression.FoldKeepsInstruction` | libdcpu-ld/ldbins.c:1293-1309 | folding a literal keeps the opcode, both operand values as the machine reads them, the b operand's word and the labels |
| `Compression.FoldsRightly` | libdcpu-ld/ldbins.c:1239-1309 | the pass folds an instruction exactly if its literal is short and neither required, optional nor adjusted |
| `Compression.ShortIff` | libdcpu-ld/ldbins.c:1293-1299 | the pass finds the operand code of a literal exactly if one of the codes from 0x20 on stands for it |
| `Compression.CompressKeepsMeaning` | libdcpu-ld/ldbins.c:1200-1316 | a bin laid out as a program, the words of whose [register + next word] operands do not look like instructions of more than one word (a condition that can be checked on the program before the pass), ends up laid out as the program with every foldable literal folded: the same instructions, operand values, labels and pointer targets; the result is the number of words saved |
| `CompressionExact.CompressionIsExact` | libdcpu-ld/ldbins.c:1200-1316 | any bin laid out as a program ends up laid out as a program with the same instructions, operand values, labels and pointer targets if and only if, followed through the loop, the folding branch is only taken where an instruction starts and no literal is looked for behind the end |
| `CompressionExact.MisfoldBreaks` | libdcpu-ld/ldbins.c:1293-1309 | once an operand word is folded into, what the pass ends with is not the program, however the pass goes on |
| `CompressedCode.CompressOpen` | libdcpu-ld/ldbins.c:1200-1316 | compressing code whose required labels are still open: under the same condition the pass leaves the code of the folded program, open at the same labels, with every provided label at its folded instruction |
| `Compressor.IndexIsNotMeasured` | libdcpu-ld/ldbins.c:1232-1238 | a concrete program with such an operand that the pass corrupts |
| `Compressor.Compress` | libdcpu-ld/ldbins.c:1200-1316 | `bins_compress` in place on the flattened bin computes the specified bin and count, or fails |
| `Compressor.IsProtected` | libdcpu-ld/ldbins.c:1249-1291 | the three searches find out whether the word is required, optional or adjusted |
| `Expressions.EvaluateAgrees` | libdcpu-pp-expr/ppexpr.c:60-133 | the value of an expression depends on nothing but the labels it mentions |
| `Expressions.LabelFreeIsConstant` | libdcpu-pp-expr/ppexpr.c:60-133 | a label-free expression has the same value, or error, wherever the code is |
| `ExpressionLaws.ErrorIff` | libdcpu-pp-expr/ppexpr.c:60-133 | an operator has no value exactly if an operand that it needs has none, or at a division by zero |
| `ExpressionLaws.SubtractionUndoes` | libdcpu-pp-expr/ppexpr.c:79-82 | (l - r) + r and (l + r) - r are l, for all expressions that have values |
| `ExpressionLaws.ProductIsSum` | libdcpu-pp-expr/ppexpr.c:83-84 | l * 0 is 0, and l * (n + 1) is l * n + l |
| `ExpressionLaws.QuotientAndModulus` | libdcpu-pp-expr/ppexpr.c:85-94 | quotient times divisor plus modulus is the dividend, and the modulus is smaller than the divisor |
| `ExpressionLaws.Comparisons` | libdcpu-pp-expr/ppexpr.c:95-106 | exactly one of less, equals and greater is one, and the other comparisons are their complements |
| `ExpressionLaws.Shifts` | libdcpu-pp-expr/ppexpr.c:123-126 | shifting by less than sixteen places is multiplying or dividing by a power of two |
| `ExpressionLaws.BitwiseOperators` | libdcpu-pp-expr/ppexpr.c:107-112 | and, or and xor, bit by bit |
| `ExpressionLaws.BooleanOperators` | libdcpu-pp-expr/ppexpr.c:113-122 | the truth tables, zero being false |
| `Assembler.OutputList.Emit` | libdcpu-ci-asm/aout.c:310-328 | `aout_emit` appends to the output list |
| `Assembler.OutputList.GetLabelAddress` | libdcpu-ci-asm/aout.c:334-381 | the address of the first definition of a label, or an error |
| `Assembler.OutputList.EvaluateAll` | libdcpu-ci-asm/aout.c:414-627 | the evaluation pass: words, all eight tables and the halting conditions |
| `Assembler.OutputList.Write` | libdcpu-ci-asm/aout.c:384-712 | `aout_write` in place computes the specified object |
| `AssemblyMeaning.AssembledDescribed` | libdcpu-ci-asm/aout.c:414-703 | the object described item by item: the word of every item at its address, and the exact adjustment, required and provided tables |
| `AssemblyRecords.AssembledRecords` | libdcpu-ci-asm/aout.c:440-604 | the exact section, output, jump, optional and call tables of the object, item by item |
| `AssemblerHalts.AssembledIff` | libdcpu-ci-asm/aout.c:414-627 | the assembler succeeds if and only if no label is used or exported that is neither imported nor defined, every expression has a value, imported labels and directives for the linker come only with an object file to be written, and no section starts behind an output or a kernel call |
| `AssemblerHalts.AddressIsFirst` | libdcpu-ci-asm/aout.c:334-381 | the address of a label is behind all words that come before its first definition |
| `AssemblerHalts.AddressIff` | libdcpu-ci-asm/aout.c:334-381 | a label has an address if and only if it is defined |
| `AssemblyMeaning.SlotIsLocal` | libdcpu-ci-asm/aout.c:594-617 | an address is listed as an adjustment if and only if its word is the address of a label of the object itself |
| `PositionIndependence.AssemblyMoves` | libdcpu-ci-asm/aout.c:414-627 | assembling at another offset moves every table entry and adds the distance to exactly the adjusted words if and only if every expression other than a plain label has the same value at both offsets; it then succeeds just as often |
| `PositionIndependence.PortableIsSteady` | libdcpu-pp-expr/ppexpr.c:60-133 | which holds at all offsets when every expression is a plain label or label-free |
| `PositionIndependence.ComputedAddressIsNotListed` | libdcpu-ci-asm/aout.c:530-545 | the word l+1 depends on the position and is not listed as an adjustment |
| `Programs.WholeAddress` | libdcpu-ci-asm/aout.c:334-381 | a label of concatenated programs is at its program's base plus its own address |
| `ObjectView.ObjectIsCode` | libdcpu-ci-asm/aout.c:414-703 | an assembled object, associated with its bin, is the program with its own labels as pointers and imports left open |
| `ObjectView.PassSucceeds` | libdcpu-ci-asm/aout.c:414-627 | a program all of whose labels exist assembles |
| `SeparateAssembly.ObjectsAreLinkable` | libdcpu-ci-asm/aout.c:594-617 | the objects of separable programs are bins whose pointers and labels stay inside their objects |
| `SeparateTheorem.SeparateAssemblyIsSound` | libdcpu-ld/ldbins.c:711-1078 | separate assembly: assembling each program, associating, flattening and resolving gives exactly the words and pointers of assembling all programs as one, at any position; nothing halts |
| `ProgramLinker.LinkPrograms` | dtld/main.c:235-260 | the same end to end and in place, for objects without sections, with the optimizer at its default level, where it does nothing, and the short literals turned off: association, flattening, resolution and any sequence of offsets leave the words of the whole program assembled at the last position |
| `ShortCode.ShortInsts` | libdcpu-ld/ldbins.c:1239-1309 | the instructions of source lines whose short literals are folded in the source are the instructions of the lines, folded; no label denotes another instruction |
| `LinkedLines.FlatHoldsOpen` | libdcpu-ld/ldbins.c:711-805 | the flattened bin of separately assembled source programs holds the instructions of all their lines, but for the required labels, and every provided label is at the instruction that follows its definition |
| `CompressedTheorem.CompressedAssemblyIsSound` | dtld/main.c:235-260 | separate assembly with the short literals on, the default: the objects flatten, compress and resolve without halting, and the linked words are, at any position, those of all programs assembled as one from sources whose short literals are folded; the result of the pass is the number of words saved |
| `CompressedTheorem.HarmlessIsCompressible` | libdcpu-ld/ldbins.c:1230-1238 | the condition on the flattened bin holds for all sources whose [register + next word] operands are constants that do not look like longer instructions |
| `ProgramLinker.LinkShortPrograms` | dtld/main.c:235-260 | the same end to end and in place |
| `Dcpu.FieldsOfCreate` | libdcpu/dcpu.h:235-241 | the bit fields of a created instruction word are the ones it was created from |
| `Dcpu.CreateOfFields` | libdcpu/dcpu.h:235-241 | every word is created from its own bit fields |
| `Dcpu.FieldsIff` | libdcpu/dcpu.h:235-241 | the fields of a word are the opcode, b and a if and only if the word is op + 32 * b + 1024 * a |
| `Encoding.DisassemblyUndoesAssembly` | libdcpu-ci-asm/assem.c:548-580 | the words of any list of labels, directives and instructions, in memory anywhere and walked by the disassembler, give back the opcodes, operand codes and next words in order, ending behind the last word |
| `AssembledCode.LineIsNext` | libdcpu-ci-asm/assem.c:548-580 | assembler and machine agree: when the machine comes to the place of an instruction line of an assembled program in memory, it is about to execute the opcode of the line with the registers, addresses, indices and literals that its parameters mean |
| `AssembledCode.LabelMeansLine` | libdcpu-ci-asm/assem.c:551-555 | a label in an operand is the address of its line, bracketed the word at that address |
| `AssembledCode.JumpReachesLabel` | libdcpu-ci-asm/assem.c:548-580 | SET PC, label executed in an assembled program brings the machine to the line of the label |
| `AssembledCode.TextIsThere` | libdcpu-ci-asm/assem.c:489-525 | the characters of each text of DAT are in memory one after another, behind the parameters before it |
| `Disassembler.ProcessLine` | libdcpu-ci-asm/assem.c:486-592 | for instructions the opcode, then the second parameter's word, then the first's, are appended to the output list; for DAT the characters of texts and the expressions in order, halting exactly at a parameter without one; for labels the definition; for directives their item |
| `Disassembler.Disassemble` | libdcpu-vm/dcpudis.c:35-169 | `vm_disassemble` in place: the decoded fields and the operand values; PC and SP are put back, the cycle count has grown by one for every next word, so the machine is as before exactly if the instruction has none |
| `Vm.VirtualMachine.constructor` | libdcpu-vm/vm.c:95-136 | the machine after a reset |
| `Vm.VirtualMachine.ConsumeWord` | libdcpu-vm/vm.c:236-241 | the next word is read and PC moved |
| `Vm.VirtualMachine.ResolveValue` | libdcpu-vm/vm.c:243-332 | every operand code read with its side effects |
| `Vm.VirtualMachine.FindStore` | libdcpu-vm/dcpuops.c:52-108 | every operand code as a place to store to, with its side effects, and while skipping |
| `Operands.Reads` | libdcpu-vm/vm.c:243-332 | for each of the twelve operand forms, in terms of registers and memory: the value read, and PC, SP and the cycles behind it |
| `Operands.Writes` | libdcpu-vm/dcpuops.c:51-108 | for each form that can be written: exactly the one register, word or special register that changes |
| `Operands.ReadingAgrees` | libdcpu-vm/dcpuops.c:51-108 | reading an operand and loading from its place give the same word and leave the machine in the same state, for every code below the literals |
| `Instructions.ComputingRuns` | libdcpu-vm/dcpuops.c:218-489 | the whole state after any instruction that computes a value, with operands of any form: a is read first, then b, the result is written to b, then EX set, and the cycles added |
| `Instructions.RegisterIsSet` | libdcpu-vm/dcpuops.c:218-229 | SET of a register: it holds the value of the source, whatever its form, and nothing else but PC, SP and the cycles has changed |
| `Instructions.PushThenPop` | libdcpu-vm/vm.c:279-294 | the word pushed by one SET is what the next SET pops, with SP as before |
| `ArithmeticLaws.Adding` | libdcpu-vm/dcpuops.c:231-244 | ADD: the result and EX are the exact sum |
| `ArithmeticLaws.Subtracting` | libdcpu-vm/dcpuops.c:246-259 | SUB: adding back gives the operand, and EX is 0xFFFF exactly if it was smaller |
| `ArithmeticLaws.WithExcess` | libdcpu-vm/dcpuops.c:572-602 | ADX and SBX: the sum and difference with EX, and the new EX with the old one taken as signed |
| `ArithmeticLaws.Multiplying` | libdcpu-vm/dcpuops.c:261-274 | MUL: the result and EX are the full product |
| `ArithmeticLaws.MultiplyingSigned` | libdcpu-vm/dcpuops.c:276-290 | MLI: the result and EX are the full signed product |
| `ArithmeticLaws.Dividing` | libdcpu-vm/dcpuops.c:292-397 | DIV and MOD: quotient times divisor plus remainder is the dividend, and EX is the next sixteen bits of the quotient |
| `ArithmeticLaws.DividingByZero` | libdcpu-vm/dcpuops.c:292-397 | DIV, DVI, MOD and MDI by zero give zero, in EX too where they set it |
| `ArithmeticLaws.DividingSigned` | libdcpu-vm/dcpuops.c:317-341 | DVI rounds towards zero, except for the one quotient that does not fit |
| `ArithmeticLaws.NextBits` | libdcpu-vm/dcpuops.c:317-341 | EX of DVI by a positive number: the next sixteen bits of the quotient, a negative dividend taken modulo 2 to the power 64 |
| `ArithmeticLaws.NoExcess` | libdcpu-vm/dcpuops.c:317-341 | EX of DVI by a negative number is zero |
| `ArithmeticLaws.SignedRemainder` | libdcpu-vm/dcpuops.c:343-377 | MDI: the remainder of the signed dividend by the unsigned divisor, never negative |
| `ArithmeticLaws.ShiftingRight` | libdcpu-vm/dcpuops.c:441-454 | SHR: the quotient by the power of two, rounded down |
| `ArithmeticLaws.ShiftedOut` | libdcpu-vm/dcpuops.c:441-454 | EX of SHR: the bits shifted out; beyond sixteen places copies of the sign bit come behind them |
| `ArithmeticLaws.ShiftingSigned` | libdcpu-vm/dcpuops.c:456-474 | ASR: the result and EX are the signed quotient by the power of two, rounded down, with sixteen more bits |
| `ArithmeticLaws.ShiftingLeft` | libdcpu-vm/dcpuops.c:476-489 | SHL: the result and EX are the low 32 bits of the product by the power of two |
| `ArithmeticLaws.LogicBits` | libdcpu-vm/dcpuops.c:399-439 | AND, BOR and XOR, bit by bit |
| `Vm.VirtualMachine.OpArithmetic` | libdcpu-vm/dcpuops.c:218-489 | SET to SHL, ADX and SBX: value, EX, cycles and skip |
| `Vm.VirtualMachine.OpBranch` | libdcpu-vm/dcpuops.c:491-570 | IFB to IFU: the skip flag |
| `Conditions.ConditionRuns` | libdcpu-vm/dcpuops.c:491-570 | the whole state after a condition: the flag is clear exactly if the operands share a bit or not, are equal or not, or are in the order asked for, for the signed ones after adding 0x8000 to both |
| `Conditions.ExactlyOneRuns` | libdcpu-vm/dcpuops.c:511-560 | of IFE, IFG and IFL on the same values exactly one lets the next instruction run |
| `Conditions.OppositesRun` | libdcpu-vm/dcpuops.c:491-529 | IFN lets it run exactly if IFE does not, and IFC exactly if IFB does not |
| `Conditions.LessIsBorrow` | libdcpu-vm/dcpuops.c:551-560 | IFL lets it run if and only if SUB of the same values leaves the borrow in EX |
| `Conditions.TrueSkipsNothing` | libdcpu-vm/dcpuops.c:491-570 | a condition that holds, run to the end of its cycles, leaves the machine at the next instruction, not skipping |
| `Conditions.FalseSkipsOneChain` | libdcpu-vm/dcpuops.c:491-570 | one that does not hold passes further conditions and one other instruction, and nothing more |
| `Vm.VirtualMachine.OpStep` | libdcpu-vm/dcpuops.c:604-634 | STI and STD |
| `SpecialInstructions.SetAndStep` | libdcpu-vm/dcpuops.c:604-634 | the whole state after STI and STD: as after SET, then I and J one up or one down |
| `Vm.VirtualMachine.OpJsr` | libdcpu-vm/dcpuops.c:636-646 | JSR pushes PC and jumps |
| `SpecialInstructions.SubroutineReturns` | libdcpu-vm/dcpuops.c:636-646 | JSR, any subroutine that keeps the stack, and SET PC, POP: execution goes on behind the JSR with SP as before the call |
| `Vm.VirtualMachine.OpRfi` | libdcpu-vm/dcpuops.c:680-692 | RFI pops A and PC and turns the queue off |
| `Vm.VirtualMachine.OpIaq` | libdcpu-vm/dcpuops.c:694-713 | IAQ turns the queue on or off |
| `Vm.VirtualMachine.OpHwq` | libdcpu-vm/dcpuops.c:728-766 | HWQ reports the device's numbers |
| `SpecialInstructions.DeviceIsQueried` | libdcpu-vm/dcpuops.c:728-766 | A and B together are the identifier, X and Y the manufacturer, C the version; without such a device no register changes |
| `SpecialInstructions.DevicesAreCounted` | libdcpu-vm/dcpuops.c:715-726 | HWN writes the number of devices to its operand |
| `SpecialInstructions.HandlerIsGivenBack` | libdcpu-vm/dcpuops.c:665-678 | IAG writes to its operand what IAS has set |
| `SpecialInstructions.UnknownHalts` | libdcpu-vm/vm.c:574-597 | an opcode outside the instruction set halts the machine behind the instruction word |
| `Vm.VirtualMachine.RaiseInterrupt` | libdcpu-vm/vm.c:159-234 | `vm_interrupt`: queued, overflowing, ignored, or dispatched past a skipped chain |
| `SpecialInstructions.InterruptIsQueued` | libdcpu-vm/vm.c:168-179 | with queueing on the message becomes the last of at most 255, and one more halts the machine |
| `SpecialInstructions.InterruptIsDelivered` | libdcpu-vm/vm.c:181-233 | with queueing off: ignored without a handler; otherwise PC and then A are pushed, A is the message, PC the handler and queueing on |
| `Vm.VirtualMachine.ShiftQueue` | libdcpu-vm/vm.c:361-365 | the first message leaves the queue and the others move up |
| `Vm.VirtualMachine.DoCycle` | libdcpu-vm/vm.c:334-606 | `vm_cycle`: sleeping, delivering a message, fetching and executing |
| `SpecialInstructions.OldestIsDelivered` | libdcpu-vm/vm.c:344-379 | a machine that is awake and delivers takes the oldest message and executes the first instruction of the handler in the same cycle |
| `SkipLoop.TurnAdvances` | libdcpu-vm/vm.c:193-221 | one turn of the loop moves PC by the word and the next words of both operand fields, costs a cycle for each of them, and changes nothing else |
| `SkipLoop.LoopIsDecided` | libdcpu-vm/vm.c:193-221 | the loop over a skipped chain ends within 0x10000 turns or never |
| `Skipping.ExecuteSkipped` | libdcpu-vm/dcpuops.c:42-63 | a skipped instruction other than INT changes nothing but PC, the cycle count and, if it is no condition, the skip flag; PC moves by one word less than the length if the destination is a literal |
| `Skipping.PassedWhole` | libdcpu-vm/dcpuops.c:42-63 | for every word at PC: it is passed, by its decoded length, with the skip flag kept exactly by conditions, if and only if it is a valid instruction other than INT that does not name a literal as its destination |
| `Skipping.SkipPassesOneChain` | libdcpu-vm/dcpuops.c:491-570 | from a failed condition, any number of further conditions and one other instruction are passed; skip is cleared only at the end and the rest of the machine is unchanged |
| `SkippedInterrupt.IntIsNotSkipped` | libdcpu-vm/dcpuops.c:656-663 | INT in a chain that should be skipped: queued, overflowing or ignored, the flag stays set and the chain goes on behind it; dispatched, the address behind it is saved and the handler entered with the flag clear; it hangs if and only if it is dispatched and only conditions follow |
| `InterruptSafety.RunIsSafe` | libdcpu-vm/vm.c:334-379 | over every run, with interrupts raised and registers or memory written between any two parts of a cycle: at most 255 queued messages, each leaving once and in order, and nothing dispatched while delivery is off |
| `InterruptSafety.PartsMakeTheCycle` | libdcpu-vm/vm.c:334-379 | without such hooks the parts make up `vm_cycle` |
| `InterruptSafety.DispatchesAreSeparated` | libdcpu-vm/dcpuops.c:680-713 | between two dispatches of any run there is an RFI or an IAQ with zero |
| `HandlerReturn.ReturnUndoesDispatch` | libdcpu-vm/vm.c:224-232 | after any handler with a balanced stack and untouched saved words, RFI restores PC, A, SP and the skip flag with delivery on if and only if the machine was not skipping and the operand of RFI is not POP; of a machine that was skipping the flag is lost |
| `HandlerReturn.ReturnWithPop` | libdcpu-vm/dcpuops.c:680-692 | with POP as its operand RFI takes the wrong words |
| `MultiPrecision.AddingWords` | libdcpu-vm/dcpuops.c:231-244 | a run of ADD and then ADX instructions in memory, with any operands, storing to different places other than EX and PC outside the code: the machine gets behind them, the places hold the sum of what they held and of the operands read on the way, and EX is the exact carry |
| `MultiPrecisionMemory.AddingInMemory` | libdcpu-vm/dcpuops.c:231-244 | two numbers of any number of words in memory, added by ADD and ADX with absolute addresses: the sum modulo the radix, the carry in EX, and no other word changed |
| `MultiPrecision.SubtractingWords` | libdcpu-vm/dcpuops.c:572-602 | the same for SUB and SBX, with the exact borrow in EX |
| `MultiPrecisionMemory.SubtractingInMemory` | libdcpu-vm/dcpuops.c:572-602 | two numbers in memory subtracted; EX is 0xFFFF if and only if the first one is the smaller |
| `ObjectFile.DecodeEncode` | libdcpu-ci-objfmt/ldata.c:21-56 | a record of 259 bytes reads back as it was written |
| `ObjectBytes.EntryIsInFile` | libdcpu-ci-objfmt/ldata.h:21-36 | every entry of an object has its 259 bytes in the file: the label, zeros, the mode of its table and its address |
| `ObjectBytes.FileEnds` | libdcpu-ci-objfmt/objfile.c:293-298 | behind all records the file has 259 zeros and then the code |
| `ObjectBytes.CodeIsInOrder` | libdcpu/iio.c:51-77 | each word of the code is two bytes at its position, the high or the low one first as the tools are told |
| `ObjectFile.LoadOfSave` | libdcpu-ci-objfmt/objfile.c:31-176 | loading a saved file into existing lists, with an offset and only some tables asked for: exactly what each list becomes |
| `ObjectFile.EntryComesBack` | libdcpu-ci-objfmt/objfile.c:31-176 | every entry but a section comes back in its place with its label and its address moved by the offset |
| `ObjectFile.RoundTrip` | libdcpu-ci-objfmt/objfile.c:178-299 | all eight tables come back in order if and only if labels are present everywhere but in the adjustment table and no two consecutive sections start at one address |
| `ObjectFile.WriteRecord` | libdcpu-ci-objfmt/ldata.c:35-56 | the label is copied into a zeroed buffer and the record appended |
| `ObjectFile.SaveFile` | libdcpu-ci-objfmt/objfile.c:178-299 | `objfile_save`: the records of the eight tables, the end record and the code; it fails if and only if a label is absent in a table other than the adjustment and jump tables |
| `ObjectFile.LoadFile` | libdcpu-ci-objfmt/objfile.c:31-176 | `objfile_load`: the loop over the records, and the offset moved on by the words of the code |
| `ObjectLoading.AssembledObjectLoads` | libdcpu-ld/ldbins.c:268-313 | the bin and the list of sections that `bins_load` makes of a saved object file are those of the assembled object, for labels of at most 255 non-zero characters and sections with words between them; a jump export without a label comes back with an empty one |
| `Scopes.ScopesAreTransparent` | libdcpu-pp/ppimpl.c:513-629 | any well-nested conditional closes its scopes, prints its nesting tree with inactive parts contributing nothing, and leaves behind exactly the handlers computed from the tree, so that the handlers, counted, are restored if and only if there are none |
| `Scopes.RestoredIff` | libdcpu-pp/ppimpl.c:537-629 | a scope that contains only scopes registering no text twice restores the handlers if and only if it does not register a text twice itself |
| `Scopes.UntidyIsRestored` | libdcpu-pp/ppimpl.c:575-629 | a concrete conditional that leaves a handler behind, and a scope around it that deletes the handler again |
| `Scopes.Preprocessor.PushScope` | libdcpu-pp/ppimpl.c:513-521 | a scope is pushed with the current output length |
| `Scopes.Preprocessor.FlipScope` | libdcpu-pp/ppimpl.c:526-532 | a scope is popped and its opposite pushed |
| `Scopes.Preprocessor.RegisterHandler` | libdcpu-pp/ppimpl.c:537-570 | handlers of the same text are hidden in the scope |
| `Scopes.Preprocessor.PopScope` | libdcpu-pp/ppimpl.c:575-629 | the scope's output is cut if inactive, its handlers deleted and the hidden ones restored |
| `Keyboard.Buffer.Append` | libdcpu-vm/hwkeyboard.c:44-70 | the ring buffer refines a queue of 99 keys that drops the oldest |
| `Keyboard.Buffer.Store` | libdcpu-vm/hwkeyboard.c:194-211 | the oldest key is handed out, or zero |
| `Keyboard.Buffer.Clear` | libdcpu-vm/hwkeyboard.c:187-193 | clearing zeroes the cells and leaves as many keys queued as before |
| `Keyboard.NothingIsLost` | libdcpu-vm/hwkeyboard.c:44-70 | without overflow every key is handed out once and in order |

## Left out

- `bins_sectionize` and the moving of words into section bins that are not yet listed.
- Debugging symbols (libdcpu-ld/ldbin.c:600-691, and the symbol lists of the assembler).
- Calling conventions, `.CALL` resolution, policy scripts other than `offset()`, and the Lua optimizer.
- `.ORIGIN`, `.SEEK`, `.INCBIN`, `.FILL`, extension and relocation tables in the assembler.
- The parser: lines and parameters come as values, already in source order; register names come as operand codes.
- Devices other than the keyboard buffer, fire and radiation, printing and dumping; a hardware interrupt only
  costs cycles in `Machine.HardwareInterrupt`, its handler acts as a separate environment step.
- Vm.VirtualMachine.DoCycle: hooks are no-ops in it; in the runs of `InterruptSafety` they act between its parts,
  and those called by a store inside an instruction only watch.
- Sorting by address is stable in the model; simclist's need not be, so where two entries of a table have one
  address, only which entries a table has is the source's, not their order.
- ObjectBytes.EntryIsInFile: addresses in records are in the order of the host, which is taken to be a processor that
  puts the low byte first; code has the order that the tools are told, the same for writer and reader.
- Shift amounts of 32 and more, and overflow of a signed product, are undefined in C; the model takes shift
  amounts modulo 32 and products modulo 0x10000.
- Bins.Insert: words beyond 0x10000 are not modelled; like the source's callers it requires the result to fit.
- Linker.LinkerState.Flatten: requires that all code fits into 0x10000 words.
- CompressionExact.CompressionIsExact: that only instructions are folded follows from the preserved program for
  programs whose pointers are below 0x7C00; a higher pointer can look like an instruction with a literal, and its
  word, once folded into, is lowered again by later removals, so it may end up as the right address by chance.
- CompressedTheorem.CompressedAssemblyIsSound: programs of labels, instructions, imports and exports; the pass would
  take data words for instructions.
- ObjectLoading.AssembledObjectLoads: requires words between sections; the loader drops a section that starts where
  the one before it starts.
- Scopes.ScopesAreTransparent: flipping outside all scopes, where the source dereferences a null pointer, does nothing.
- Disassembler.Disassemble: requires the instruction to lie inside memory; the source reads behind its array otherwise.
- JumpWriter.WriteJump: the source prints the label of an entry before it looks whether it is null; labels that come
  from object files are not, and the model takes an absent label like an empty one.
- ObjectFile.SaveFile: requires labels of at most 255 characters; longer ones overflow the source's buffer.
