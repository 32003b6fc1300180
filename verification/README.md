# RRISC back end: verified model

RRISC is a 12-bit processor with an assembler, a relocating linker, two simulators, an integer runtime
written in its own machine code, a 48-bit software float format and a small C library.  This project
models those parts in Dafny and proves what they promise, for all inputs, all programs and all runs.

One instruction set (`Isa`, `Machine`) gives the words a meaning.  Everything that produces or executes
words is stated against it:

* **Linker** (`Linker`, `LinkMethods`; theorems in `Relaxation`, `Symbols`, `Optimality`, `Emission`,
  `LinkMerge`, `LinkGuarantees`, `Flatten`, `BranchMeaning`).  Records become items, items are laid out,
  symbols resolved, short branches grown until nothing changes, words patched and emitted.  Relaxation is a sound fixpoint with a
  real termination measure whose bound is tight; it is the least self-consistent choice of long branches
  whenever no branch can come back into reach, and that condition is exact arithmetic on the shortest layout;
  two of the linker's errors can never be reported; every piece stands whole and in link order in its section,
  and words, symbols and sizes come from one final layout; the image holds exactly what the sections emit; and a
  linked branch or load does on the processor what the assembly source says.
* **Flat assembler against object and link** (`Assembler`, `AssemblerMethods`, `ObjectShape`, `Programs`,
  `FlatRelax`, `LinkRelax`, `LinkRounds`, `FlatLink`, `FlatAgreement`, `LinkSucceeds`, `FlatSucceeds`, `FlatDiffers`,
  `Cascade`).  The flat relaxer splices statement lists and renumbers addresses in place; the linker grows
  index sets.  Both compute one abstract relaxation, round by round, so both give the same words.  The exact
  condition under which a program links alone, the exact condition under which it assembles flat, and the
  exact gap between the two in both directions are proved.  A program is given for each way in which one
  path accepts what the other refuses: `li` into r0, a load of or a relaxed branch to address 4096, no words
  at all, one relaxation step too many, one word too many.
* **Simulators** (`SimModel`, `Lockstep`, `Simulators`).  The Python CPU, which asks every device on a bus,
  and the C loop, which scans banks, run in lockstep and both refine `Machine.Step`.
* **Integer runtime** (`Librcc`): `__mul`, `__udiv`, `__umod`, `__div`, `__mod` as the 127 words of the
  assembled section, at any address, proved over the step function.
* **Synthetic instructions** (`Synthetic`): what `or` and `xor` do, and exactly when that is OR and XOR.
* **Floats** (`Float48`, `FloatLaws`, `FloatValues`, `FloatSums`, `LowPrec`): exact truncation of sums,
  products and quotients, error bounds, and the exact extent of a wrong-sign defect in addition.
* **Object text** (`Objfmt`, `ObjText`, `ObjRecords`, `ObjRoundTrip`, `ObjExact`, `ObjLayout`, `ObjErrors`):
  printing and parsing, with the exact class of object files that survive the round trip, the exact class of
  texts that parse, and the line of every error.
* **C library** (`Rlibc`; `Numerals` and `Sequences` are shared): `itoa` and `atoi` in 12-bit arithmetic.

Code that updates things in place is modelled in place: the two simulators are classes over arrays, the
image is an array that is filled, `itoa` walks and rewrites a buffer, the relaxers and parsers are loops.
Each such method is proved equal to a function, and the theorems are about the function.

## Where the code does not do what one would expect

Each of these is a proved statement, named in the table below.

* Adding two normals of one exponent and opposite signs is wrong whenever the first has the smaller
  significand: 1.0 + (-1.5) gives +1.5 (`FloatLaws.OneMinusOneAndAHalf`, `FloatSums.OppositeRightIff`).  On
  different exponents it is right exactly when alignment drops no set bit (`FloatSums.AlignmentRightIff`).
  Addition commutes on every other pair of words and on no such pair (`FloatLaws.AddCommutes`).
* `parse_object` reverses the sections on every pass (`ObjRoundTrip.RoundTrip`), and a path with a
  semicolon, a name with a blank and the like do not survive it (`ObjExact.RoundTripIff`).
* `or` and `xor` accept r4 as a source although their first word overwrites it (`Synthetic.OrMeans`).
* `li r0, label` becomes an object whose first linked word is a branch, while the flat assembler refuses it
  (`FlatDiffers.LoadIntoZeroDiffers`); a label at address 4096 links and wraps to 0, while the flat
  assembler refuses to load it (`FlatDiffers.FullImageDiffers`) or to relax a branch to it
  (`FlatDiffers.FullBranchDiffers`); statements without words make the flat
  assembler fail on an empty maximum (`FlatDiffers.OnlyLabelDiffers`); a user label such as `__br_0`
  diverts a relaxed branch of the flat image (`FlatDiffers.CollisionDiffers`).
* The linker's relaxation is least whenever every branch is safe: one out of reach stays out of reach however
  many of the others grow (`Optimality.RelaxationIsLeast`).  Which branches are safe is decided by their offset
  in the shortest layout and the number of branches they span (`Optimality.SafeIff`); with addends that do not
  point back across their branch all are.  On a section with an unsafe branch the loop relaxes one branch too
  many (`Optimality.InwardUnsafe`, `Optimality.InwardAddendNotLeast`).
* The linker's budget of rounds counts section pieces, not branches: a program that is one object links only
  if relaxation settles within 19 steps, however few words it has (`LinkSucceeds.LinksIff`).  Twenty branches
  in 900 words need 20 steps; the flat assembler has rounds enough for them and the linker reports an exhausted
  budget (`Cascade.TwentyBranches`).
* The flat assembler writes an image of more than 4096 words without complaint (`FlatDiffers.OversizedDiffers`).
* Overlapping banks are a bus conflict for the Python CPU and a first match for the C one
  (`SimModel.BusConflicts`); the two agree at every address exactly when no banks overlap
  (`SimModel.BusIsScanIff`).

## Model

| member | source | states |
|---|---|---|
| Isa.DecodeEncode | pytools/isa.py:52-71 | every instruction decodes back from the word it encodes to |
| Linker.RecordsToItems | pytools/link_core.py:105-159 | the record loop: items in order, each relocation taking its placeholder words off the end, an error when they are not there |
| Linker.LayoutSection | pytools/link_core.py:196-221 | offset of every item and the total, as prefix sums of item sizes |
| LinkMethods.CollectSymbols | pytools/link_core.py:232-258 | the placed symbols of all sections in order, externs left out, each at its explicit offset or where it stands |
| LinkMethods.BuildSymbolEnv | pytools/link_core.py:261-321 | the three dictionaries, or the first duplicate, computed by dictionary updates and a list of addresses per local name |
| LinkMethods.NamesAreDefs | pytools/link_core.py:292-318 | checking each local name once in insertion order is checking the definitions in order |
| Symbols.ResolveFinds | pytools/link_core.py:261-332 | a name resolves to the last local definition of its own file, else the last global one, else the first local one anywhere, else not at all |
| Symbols.BuildsIff | pytools/link_core.py:261-321 | the tables build exactly when no name has two addresses among the exported definitions or among the local ones, whatever their files; otherwise the error is a name that has, with the earlier and the later address |
| Symbols.ResolveTarget | pytools/link_core.py:286-332 | resolving a name inside one section gives the layout position of one symbol item, the same under every choice of long branches |
| LinkMethods.GrowSection | pytools/link_core.py:396-413 | one section's pass: the index set gains exactly the branches out of reach under the layout at the start of the round |
| LinkMethods.GrowAll | pytools/link_core.py:388-413 | the pass over all sections and its changed flag |
| LinkMethods.Relax | pytools/link_core.py:379-417 | the relaxation loop with its budget |
| Relaxation.RoundExtends | pytools/link_core.py:388-413 | a round only adds branches that were short, never removes one |
| Relaxation.RelaxLoopSettles | pytools/link_core.py:379-417 | on success every short branch reaches in the final layout with the final symbols, in every section |
| Relaxation.BudgetSuffices | pytools/link_core.py:385-417 | each changed round relaxes at least one more branch, so a budget above the number of short branches cannot run out |
| Cascade.BudgetTight | pytools/link_core.py:385-417 | for every n a section with n branches on which n rounds exhaust the budget and n + 1 succeed |
| Optimality.SafeIff | pytools/link_core.py:402-410 | being out of reach is never undone by relaxing other branches exactly when the shortest layout's offset is within reach on the target's side or beyond it by more than three words for every branch spanned |
| Optimality.OffsetIsDistance | pytools/link_core.py:402-410 | wherever the symbol table builds, the offset the linker computes is the distance that `SafeIff` speaks of |
| Optimality.RelaxationIsLeast | pytools/link_core.py:379-417 | when every branch is safe, the relaxed set is self-consistent and contained in every self-consistent set; no consistent layout is shorter |
| Optimality.LeastWithOutwardAddends | pytools/link_core.py:379-417 | addends that never point back across their branch make every branch safe, so relaxation is least |
| Optimality.InwardUnsafe | pytools/link_core.py:402-410 | the branch of the next row's section that is out of reach only until the other grows |
| Optimality.InwardAddendNotLeast | pytools/link_core.py:402-410 | a section with an addend across its branch on which the loop relaxes a branch it need not |
| Emission.EmitConsecutive | pytools/link_core.py:468-482 | a section emits each address from its base on exactly once, as many as its layout says |
| Emission.EmitHasItem | pytools/link_core.py:420-482 | the words of every item stand at its own offset in what its section emits |
| Emission.ItemsKeepSize | pytools/link_core.py:105-159 | flattening keeps size: a relocation adds nothing to the words it covers |
| Emission.RelaxedGrowth | pytools/link_core.py:196-221 | every relaxed branch adds exactly three words, before any position |
| LinkGuarantees.LinkedSectionSize | pytools/link_core.py:485-560 | the reported size of a section is words, zeros and branches of its records in all objects plus three per relaxed branch |
| LinkGuarantees.UnreachableErrors | pytools/link_core.py:442-554 | no link ever reports a branch out of range after relaxation or a section end out of range; the budget error needs at least 4 branches per piece plus 16 |
| LinkGuarantees.LinkedImage | pytools/link_core.py:485-545 | without overlaps the image holds exactly the word each section emits for each address, zero elsewhere, and at most 4096 words |
| Linker.FillImage | pytools/link_core.py:534-545 | the list filled in place holds the last word emitted for each address, or the first address beyond 12 bits is an error |
| Linker.ImageMeans | pytools/link_core.py:534-545 | for any list of writes, overlapping ones too: the image ends at the highest address written, holds the last word written to each and 0 elsewhere; otherwise the first address beyond 12 bits is the error |
| LinkMethods.EmitOne | pytools/link_core.py:468-482 | the emission loop of a section |
| LinkMethods.EmitSections | pytools/link_core.py:524-529 | the emission loop over sections |
| LinkMethods.CollectPieces | pytools/link_core.py:489-494 | the pieces of all inputs in order, or the first relocation error |
| LinkMethods.Link | pytools/link_core.py:485-560 | the whole link, stage by stage, equal to the function the theorems speak of |
| LinkMerge.OrderIsFirstAppearance | pytools/link_core.py:169-179 | the sections of a link are exactly the names of its pieces, in order of first appearance |
| LinkMerge.PiecesInOrder | pytools/link_core.py:489-494 | the pieces are the sections of the objects, object after object and section after section, each flattened from its own records under its own file name |
| LinkMerge.LinkedPieces | pytools/link_core.py:496-560 | what a successful link is: one section for each name by first appearance, in it every piece of that name whole and right after the earlier ones, as long as they are together, each section at the first base given for it or 0, relaxed within four rounds per piece and sixteen; words, symbols and sections all come from that one final layout |
| LinkMerge.LinkedSymbols | pytools/link_core.py:232-258 | the symbols listed are exactly those that a symbol item which is no extern defines, each at its explicit offset from the base or at its place in the final layout |
| LinkMerge.BasesAssigned | pytools/link_core.py:182-193 | a section lies at the first base given for it, and at 0 without one, whatever the other sections |
| LinkMerge.PatchMeaning | pytools/link_core.py:335-376 | the value split over the two immediates of a load, jump or call, a branch whose fields encode the distance, an error exactly when that is out of reach; all other bits as they were |
| BranchMeaning.ShortMeaning | pytools/link_core.py:446-454 | one step through a short branch reaches the target or the next word, changing nothing else |
| BranchMeaning.LongMeaning | pytools/link_core.py:455-464 | four steps through a relaxed branch reach the target with r4 spent, one step passes it |
| BranchMeaning.LinkedBranch | pytools/link_core.py:442-464 | from every linked branch, relaxed or not, the processor goes to the symbol's final address plus the addend mod 4096 when the condition holds and to the next item otherwise; T, memory and registers stay, but r4 |
| Flatten.LoadRecords | pytools/asm_obj_emit.py:128-142 | the three records of `li rd, label` flatten to one item that covers both words, in reversed order |
| Flatten.ItemsRecorded | pytools/link_core.py:105-159 | flattening loses nothing: the records, each with all its fields and in order, can be told from the items, zeros as words |
| Flatten.RelocEmitted | pytools/link_core.py:432-441 | for every kind of relocation the placeholder words are patched in the order in which they were recorded |
| BranchMeaning.LinkedLoad | pytools/link_core.py:345-441 | two steps through a linked load put the symbol's final address plus addend into rd and change nothing else, whatever was relaxed in between |
| BranchMeaning.LinkedWord | pytools/link_core.py:420-441 | in every link without overlaps a plain word stands unchanged at its address, and a 12-bit relocation is its symbol's final address plus the addend mod 4096 |
| Assembler.AssignAddresses | pytools/asm.py:584-709 | addresses by a running counter, or the first duplicate label |
| Assembler.RecomputeAddrs | pytools/asm.py:815-828 | addresses overwritten one after the other, an old address kept only when it is ahead |
| Assembler.SpliceAll | pytools/asm.py:837-902 | violating branches replaced from the last to the first, skip labels numbered in that order |
| Assembler.RelaxChunk | pytools/asm.py:837-903 | at most twenty rounds of splicing and renumbering |
| AssemblerMethods.EncodeImage | pytools/asm.py:907-925 | the address map and the image filled from it, or the first encoding error |
| AssemblerMethods.AssembleFlat | pytools/asm.py:724-740 | flat assembly from statements to words |
| AssemblerMethods.EmitRecords | pytools/asm_obj_emit.py:151-183 | records with an accumulator, a cursor and the last source position |
| AssemblerMethods.AssembleToObject | pytools/asm_obj_emit.py:186-224 | assembly to an object file, from statements on |
| ObjectShape.ObjectBlocks | pytools/asm_obj_emit.py:151-224 | an object is one section made of the blocks of its statements in order: its labels, its source position exactly when that differs from the last statement with an operation, and what the operation emits |
| ObjectShape.ObjectSymbols | pytools/asm_obj_emit.py:41-55 | every label has a symbol record, and every symbol is global exactly when some `.global` or `.globl` names it and no later directive does, local otherwise |
| ObjectShape.RecordsReach | pytools/asm_obj_emit.py:159-183 | for statements at ascending addresses, with gaps or without, the records before a statement fill the section exactly up to its address |
| FlatRelax.FlatRelaxed | pytools/asm.py:837-903 | after any rounds the spliced statement list is the program with exactly the abstractly relaxed branches expanded, with fresh labels, as many as branches relaxed, and right addresses |
| LinkRounds.LoopIs | pytools/link_core.py:379-417 | the linker's relaxed indices are those of the abstractly relaxed statements, and settled |
| FlatLink.FlatEqualsLink | pytools/asm.py:724-925 | if the one-object link of a program succeeds, flat assembly yields the same words exactly when no `li` names r0, no `li` or relaxed branch refers to address 4096, and there are words; otherwise it fails |
| FlatSucceeds.FlatIff | pytools/asm.py:724-925 | a program assembles flat exactly when its labels are distinct and defined, no `.word` is empty, relaxation settles in 20 steps, there are words and every address taken fits; its words are those of the abstract relaxation |
| FlatSucceeds.FlatButNotLinked | pytools/asm.py:837-925 | a program that assembles flat has an object, and that fails to link exactly when relaxation takes all 20 steps or the image is longer than 4096 words |
| Cascade.CascadeSettles | pytools/asm.py:837-903 | a program for every n whose relaxation takes exactly n steps, one branch each |
| Cascade.CascadeLinks | pytools/link_core.py:379-417 | it links for n up to 19; from 20 on the budget is exhausted |
| Cascade.CascadeFlat | pytools/asm.py:837-903 | it assembles flat exactly for n up to 20 |
| Cascade.TwentyBranches | pytools/link_core.py:379-417 | 20 branches: flat assembly succeeds and the link reports an exhausted budget |
| Cascade.BudgetPerPiece | pytools/link_core.py:510-511 | for every number of pieces there is a link with four branches a piece and sixteen more that exhausts the budget: the bound of `UnreachableErrors` is exact |
| FlatAgreement.FlatAgrees | pytools/asm.py:724-925 | a program of 1 to 4095 words without `li r0` that links alone assembles flat to the same words |
| LinkSucceeds.LinksIff | pytools/link_core.py:485-560 | an assembled program links alone at base 0 exactly when its labels are defined, abstract relaxation settles in 19 steps and it has at most 4096 words; with all labels defined the error tells the last two apart |
| FlatDiffers.LoadIntoZeroDiffers | pytools/asm.py:1076-1088 | `li r0, label` links but does not assemble flat |
| FlatDiffers.FullImageDiffers | pytools/asm.py:1076-1088 | a load of a label at address 4096 links but does not assemble flat |
| FlatDiffers.FullBranchDiffers | pytools/asm.py:854-902 | a relaxed branch to a label at address 4096 links but does not assemble flat |
| FlatDiffers.OversizedDiffers | pytools/asm.py:907-925 | programs of any number of words above 4096 that assemble flat but do not link |
| FlatDiffers.OnlyLabelDiffers | pytools/asm.py:907-925 | statements without words link to an empty image but do not assemble flat |
| FlatDiffers.CollisionDiffers | pytools/asm.py:854-902 | with a user label `__br_0` the flat words differ from the linked ones |
| Synthetic.OrMeans | pytools/asm.py:1123-1134 | three steps put the OR into rx exactly when r4 as a source does no harm, and nowhere when rx is r0 or r7; r4 holds the AND; only rx, r4, T and pc change |
| Synthetic.XorMeans | pytools/asm.py:1136-1149 | the same for XOR in four steps |
| SimModel.BusIsScan | pytools/sim.py:25-71 | on disjoint banks asking every device is scanning for the first, for reads and writes |
| SimModel.BusIsScanIff | pytools/sim.py:43-61 | the bus reads as the scan does at every address exactly when no two banks overlap |
| SimModel.BusConflicts | pytools/sim.py:43-61 | two banks over one address are a conflict when read |
| SimModel.ReadIs | pytools/sim.py:43-61 | where one bank alone covers an address both simulators read its stored word, RAM or ROM, or 0 from io; where none does, all ones |
| SimModel.WriteIs | pytools/sim.py:63-71 | after a store each bank holds the word if it is RAM and covers the address, on the bus; in the scan only the first that covers it does; every other word stays |
| Lockstep.BorrowBit | sim2.c:267-271 | bit 12 of a difference of words is the comparison the Python step makes |
| Lockstep.StepCounts | sim2.c:249-316 | a step retires one instruction and takes one cycle, two for a load from or a store to memory |
| Lockstep.StepAgrees | sim2.c:249-321 | on disjoint banks one Python step and one turn of the C loop reach the same state, halting and counters included |
| Lockstep.RunsAgree | pytools/sim.py:373-380 | from equal states both simulators agree after every number of steps and on how a run ends under a cycle limit |
| Lockstep.StepRefines | pytools/sim.py:248-339 | a step of the simulators is a step of the abstract processor on the flat memory the banks make up |
| Lockstep.RunRefines | sim2.c:249-321 | over a whole run, however it ends, the state is that of the abstract processor after as many steps as instructions were retired |
| Lockstep.CRunMeans | sim2.c:249-321 | a run has halted below the limit, or stopped at once when the limit is reached, or retired one instruction a turn |
| Lockstep.CellIs | sim2.c:137-191 | the flat memory holds at each address the word of the only bank there, writable exactly for RAM, an io page, or nothing |
| Simulators.PyCpu.constructor | pytools/sim.py:190-203 | the state a new CPU starts in |
| Simulators.PyCpu.RdMem | pytools/sim.py:43-61 | the bus answer over all devices, a conflict included |
| Simulators.PyCpu.WrMem | pytools/sim.py:63-71 | every writable device at the address takes the word, all others stay |
| Simulators.PyCpu.WrReg | pytools/sim.py:205-207 | r0 and r7 stay, other registers take the low twelve bits |
| Simulators.PyCpu.Step | pytools/sim.py:248-339 | the in-place step reaches the state of the step function or reports its conflict |
| Lockstep.PyTurnsSuffice | pytools/sim.py:373-380 | under a cycle limit a run is over after as many turns as cycles are left |
| Simulators.PyCpu.Run | pytools/sim.py:373-380 | after any number of turns, with or without a cycle limit, the run loop has halted, stopped, hit a conflict or is still running as the run function says |
| Simulators.CMachine.constructor | sim2.c:236-248 | the state the C program starts in |
| Simulators.CMachine.RdMem | sim2.c:137-168 | the first bank that covers the address answers |
| Simulators.CMachine.WrMem | sim2.c:170-191 | the first bank that covers the address takes the word if it is RAM |
| Simulators.CMachine.WrReg | sim2.c:79-83 | r0 and r7 stay, other registers take the low twelve bits |
| Simulators.CMachine.Turn | sim2.c:249-316 | one in-place turn reaches the state of the turn function |
| Simulators.CMachine.RunLoop | sim2.c:249-321 | after any number of turns, with or without a cycle limit, the loop has ended or is still running as the run function says |
| Librcc.MulCorrect | lib/librcc.s:48-59 | from any state, after 6*r2+5 steps: r2 = r2*r3 mod 4096, return to r5, memory and r3, r5, r6 unchanged |
| Librcc.UnsignedCorrect | lib/librcc.s:63-101 | floor quotient or remainder after 6*q+9 steps, 0 for divisor 0 after 4; memory and r3, r5, r6 unchanged |
| Librcc.DivCorrect | lib/librcc.s:105-160 | truncating signed quotient mod 4096 (0 for divisor 0, whatever the stack), return to r5, r5 and r6 restored, no memory but the three stack slots changed |
| Librcc.ModCorrect | lib/librcc.s:164-207 | remainder with the dividend's sign mod 4096 (0 for divisor 0, whatever the stack), return to r5, r5 and r6 restored, no memory but the two stack slots changed |
| Librcc.TruncLaw | lib/librcc.s:105-207 | a = (a/b)*b + a%b with a remainder smaller than b and of a's sign, as section 6.5.5 of ISO/IEC 9899:1999 asks |
| Librcc.DivModLaw | lib/librcc.s:105-207 | running both routines on one pair of words satisfies that law mod 4096, -2048 / -1 included |
| Librcc.MinByMinusOne | lib/librcc.s:105-207 | run on -2048 and -1 the routines leave the wrapped quotient -2048 and the remainder 0 |
| Librcc.LibraryFits | lib/librcc.s:48-207 | at every address there is a memory that holds the code, with any stack clear of it |
| Float48.UnpackPack | pytools/float48.py:32-45 | packing then unpacking gives the three fields back |
| Float48.PackUnpack | pytools/float48.py:32-45 | unpacking then packing gives the four words back |
| Float48.FinishShape | pytools/float48.py:168-172 | the closing range check gives a well-formed word, infinite exactly from exponent 2047 on and zero exactly up to 0 |
| Float48.FaddBits | pytools/float48.py:125-172 | the addition with its swap and its normalising loop |
| FloatLaws.AddCommutes | pytools/float48.py:104-172 | addition commutes on all words, specials and signed zeros included, except exactly on two normals of one exponent, opposite signs and different significands |
| FloatLaws.AddNan | pytools/float48.py:104-172 | a sum is a NaN exactly for a NaN operand or opposite infinities |
| FloatLaws.SpecialSums | pytools/float48.py:104-122 | in both orders zero plus a normal is the normal and an infinity plus anything but a NaN or its opposite is that infinity; a sum of zeros is negative exactly when both are |
| FloatLaws.SpecialDifferences | pytools/float48.py:175-177 | the same for differences |
| FloatLaws.ResultsCanonical | pytools/float48.py:104-249 | every NaN result is the one quiet NaN and every zero result has no significand, for sums, differences, products and quotients |
| FloatLaws.MulNan | pytools/float48.py:180-192 | a product is a NaN exactly for a NaN operand or zero times infinity; otherwise the signs multiply, an infinite operand gives an infinity and a zero one a zero |
| FloatLaws.DivNan | pytools/float48.py:213-231 | a quotient is a NaN exactly for a NaN operand, 0/0 or inf/inf; otherwise the signs multiply, an infinite dividend or a zero divisor gives an infinity, a zero dividend or an infinite divisor a zero; it raises exactly for a significand of zero in a normal divisor under a normal dividend |
| FloatLaws.OneMinusOneAndAHalf | pytools/float48.py:133-162 | 1.0 + (-1.5) is +1.5, and in the other order -0.5 |
| FloatValues.TruncationUnique | pytools/float48.py:8-13 | a number has at most one truncation to 36 significant bits |
| FloatValues.MulTruncates | pytools/float48.py:194-210 | the product of normals is the exact product cut toward zero to 36 bits, then range checked |
| FloatValues.DivTruncates | pytools/float48.py:233-249 | the quotient of normals is the exact quotient cut toward zero to 36 bits, then range checked |
| FloatSums.NormaliseKeeps | pytools/float48.py:161-166 | the normalising loop keeps the number and ends with the leading bit set, or the number is below every normal |
| FloatSums.AddTruncates | pytools/float48.py:144-153 | the sum of normals of one sign is the exact sum cut toward zero to 36 bits, then range checked |
| FloatSums.OppositeExact | pytools/float48.py:154-166 | on one exponent with the first significand no smaller the difference is exact, +0 when it cancels, a signed zero when below every normal |
| FloatSums.OppositeWithinOneUlp | pytools/float48.py:138-166 | on different exponents the sign is right and the magnitude exceeds the exact one by less than one unit in the last place of the larger operand |
| FloatSums.OppositeWrong | pytools/float48.py:133-162 | on one exponent with the first significand smaller the result has the wrong sign and the magnitude of the masked negative |
| FloatSums.OppositeRightIff | pytools/float48.py:133-162 | on one exponent and opposite signs addition is right exactly when the first significand is no smaller and the sum does not underflow |
| FloatSums.AlignmentRightIff | pytools/float48.py:138-166 | on different exponents and opposite signs addition is right exactly when aligning the smaller operand drops no set bit and the sum does not underflow |
| FloatSums.SubTruncates | pytools/float48.py:175-177 | the difference of normals of opposite signs is the exact one cut toward zero |
| FloatSums.SubRightIff | pytools/float48.py:175-177 | on one sign and one exponent subtraction is right exactly when the first significand is no smaller and the difference does not underflow; x - x is +0 |
| LowPrec.LowMulIsTopMul | tools/tests/float/run_float_tests.py:395-423 | the 12-bit product is the 36-bit product of the operands' top words |
| LowPrec.LowMulBounds | tools/tests/float/run_float_tests.py:395-423 | it never exceeds the exact product in magnitude and is more than 1 - 2^-10 times it |
| LowPrec.LowDivBounds | tools/tests/float/run_float_tests.py:368-392 | the 12-bit quotient is within 3 parts in 2048 of the exact one, above by less than 1 part in 2048, and never fails |
| LowPrec.LowSpecials | tools/tests/float/run_float_tests.py:368-423 | on zeros, infinities and NaNs the 12-bit and 36-bit models agree |
| Objfmt.ParseQuoted | pytools/objfmt.py:282-304 | the unquoting loop |
| Objfmt.ParseObject | pytools/objfmt.py:307-392 | the parser: header, the loop over kept lines, sources in order, sections reversed, or the first error with its line |
| ObjText.UnquoteEscape | pytools/objfmt.py:168-181 | unquoting undoes quoting for every text, whatever follows |
| ObjRecords.RecordBack | pytools/objfmt.py:213-241 | every good record parses back from its line |
| ObjRoundTrip.RoundTrip | pytools/objfmt.py:196-392 | parsing a printed well-formed object gives it back with its sections reversed |
| ObjRoundTrip.RoundTripTwice | pytools/objfmt.py:525-531 | doing it twice is the identity |
| ObjExact.ParsedIsWellFormed | pytools/objfmt.py:307-513 | whatever text parses, it parses to a well-formed object |
| ObjExact.RoundTripIff | pytools/objfmt.py:196-392 | an object comes back, sections reversed, exactly when it is well formed |
| ObjExact.Normalised | pytools/objfmt.py:525-531 | reading, printing and reading again any text that parses only reverses the sections |
| ObjLayout.LayoutFree | pytools/objfmt.py:252-253 | blanks around a line and a comment after it change nothing, neither the object nor the error |
| ObjLayout.EndingsFree | pytools/objfmt.py:307-309 | nor do line endings: a newline, or a carriage return and a newline |
| ObjLayout.IntMeans | pytools/objfmt.py:256-279 | an integer is what its digits spell in the base its prefix announces, letters and prefix of either case, with its sign |
| ObjLayout.NumberRecords | pytools/objfmt.py:400-417 | a `word` line is accepted exactly with one integer, taken mod 4096, a `zero` line exactly with one that is not negative |
| ObjLayout.SymRecords | pytools/objfmt.py:418-434 | an accepted `sym` line has a name, one of the four linkages and at most one integer, and those are the record |
| ObjLayout.TargetRecords | pytools/objfmt.py:447-513 | an accepted `reloc` or `brel` line has a known kind, a symbol and at most one more word; no keyword but the six is accepted |
| ObjErrors.ParsesIff | pytools/objfmt.py:307-392 | a text parses exactly when its first line that is not blank is a header of version 1, every later one is allowed where it stands (sources and `section` outside sections, records and `endsec` inside) and the last section is ended |
| ObjErrors.FirstWrongLine | pytools/objfmt.py:307-392 | an error names the first wrong line: the lines up to it give the same error, and any fewer give none but a missing end |
| ObjErrors.UnterminatedLine | pytools/objfmt.py:385-386 | a missing `endsec` is reported at the last `section` line, with no `endsec` after it |
| Numerals.DecimalValue | pytools/objfmt.py:155-156 | a decimal numeral denotes its number, in digits, without leading zeros |
| Rlibc.WriteDigits | lib/rlibc.h:145-149 | the digit loop leaves the numeral reversed and touches nothing else |
| Rlibc.ReverseRange | lib/rlibc.h:150-156 | the in-place reversal |
| Rlibc.ShiftUp | lib/rlibc.h:159-164 | the shift that makes room for the sign |
| Rlibc.Itoa | lib/rlibc.h:127-167 | the decimal text of every 12-bit number, -2048 included, a zero word right after it, nothing else touched, at most six words |
| Rlibc.ReadDigits | lib/rlibc.h:117 | the digit loop computes the spelled number modulo 4096, as a signed word |
| Rlibc.Atoi | lib/rlibc.h:112-119 | blanks, sign, digits, the number reduced to twelve bits |
| Rlibc.ParsedMeans | lib/rlibc.h:112-119 | for every text: spaces and tabs, an optional minus sign, then digits up to the first word that is none, read as the wrapped number with its sign, 0 without a digit |
| Rlibc.ParsedText | lib/rlibc.h:112-167 | what `Itoa` leaves in a buffer reads back as the number, whatever follows |
| Rlibc.ThereAndBack | lib/rlibc.h:112-167 | atoi after itoa is the identity on all 4096 numbers |

## Left out

- The rcc compiler, its driver, the shell scripts and test runners.
- pytools/terminal.py and the UART of both simulators: memory is banks without a terminal, so the cooperative
  yield in the Python run loop and the SIXBIT table of the C one are not modelled.
- Simulators.PyCpu.Step: after a bus conflict only the conflict is specified, not how far the step had got;
  the exception ends the run.
- Simulators.PyCpu.Run: watched for a given number of turns, because a run without a cycle limit need not end.
- Simulators.CMachine.RunLoop: the same.
- Simulators.PyCpu.constructor: banks satisfy base + size <= 4096; beyond that the Python bus wraps the
  addresses and the C scan does not.
- Simulators.CMachine.constructor: the same.
- Macro, include, define and conditional processing of assembly text, listings, link maps, files: the model
  starts from tokenised statements, with the words of label-independent instructions given.
- Assembler.AssignAddresses: without `.org`, `.align`, `.base` and `.section`, and after text processing; the
  two assemblers are compared on programs of one section without address gaps, where equality is intended.
- AssemblerMethods.AssembleToObject: one section, and the list of source paths is a parameter.
- Label expressions and explicit branch offsets in the assembler.
- FlatLink.FlatEqualsLink: for programs that define none of the labels `__br_0` to `__br_<n-1>`, where n is the
  number of branches that relaxation makes long and so of labels that the flat relaxer makes up; other labels
  of that form, or any when nothing relaxes, do no harm.  The converse is left open: a colliding label need
  not change the words.  The last definition of a label wins, so one that stands before its branch and is
  never referred to is simply overridden; one that stands after its branch diverts it unless the two
  addresses coincide (`FlatDiffers.CollisionDiffers`); a statement that refers to one that stands before its
  branch gets the made-up label instead; and a diverted reference changes which branches the later rounds relax, so whether the words differ
  in the end depends on the whole run.
- FlatRelax.FlatRelaxed: the same, and no branch to such a label.
- FlatSucceeds.FlatIff: the same, and no reference to such a label.
- FlatAgreement.FlatAgrees: the same as for `FlatLink.FlatEqualsLink`.
- The assembler's statement objects are values in a sequence; sharing between lists is not modelled.
- Error values carry what the message reports, not its wording.  Section bases are natural numbers.
- Objfmt.ParseObject: integers are ASCII digits with an optional sign, a base prefix and single underscores;
  the Unicode digits and repeated base prefixes that Python's `int` also accepts are read as malformed.
- `section_symbols`, `section_words` and the disassembler; `from_float`, `to_float` and the rest of the
  host-float helpers: float words are given a real value directly.
- The assembly float routines under lib/float; only their integer models are covered.
- Optimality.RelaxationIsLeast: for one section.  Safety of every branch is sufficient; on a section with an
  unsafe branch the outcome depends on which other branches the loop has to relax anyway.
- FloatSums.OppositeWithinOneUlp: the bound is one-sided and stated up to underflow, where the result is the
  zero of the larger operand's sign.
- lib/rlibc_io.h, lib/rlibc_host.h, lib/itoa.s, the rest of lib/rlibc.h, Forth and the demos.
