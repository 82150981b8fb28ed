# Verified models of the stateful components

This project models ten stateful components of two code bases that share a repository, and proves
what each of them is for: the CBP-2016 branch prediction harness (`cbp/`) and SimpleScalar with its
detector of ineffectual instructions (`simplescalar-a1/`). `dafny verify dfyconfig.toml` checks
everything. Nothing here executes the original programs.

| file | component |
|---|---|
| `Bits.dfy` | bitwise operators of C on natural numbers, with a width only where the source truncates |
| `FoldedHistory.dfy` | the compressed branch histories |
| `TagePredictor.dfy` | the TAGE predictor over four of them, its tables and counters |
| `Bt9Reader.dfy` | the windowed reader of a branch trace |
| `CbpSimulation.dfy` | the simulation loop: reader, predictor, marking table and counters together |
| `IrDetector.dfy`, `IrLaws.dfy`, `IrDefects.dfy` | the instruction window, operand rename tables and branch table of the detector; its steps in terms of counts and entries; where it departs from its comments |
| `Memory.dfy` | the inverted page table of the simulated memory |
| `Numbers.dfy` | 64-bit integers to text and back |
| `Crc.dfy` | the table-driven CRC |
| `ExoChains.dfy`, `Exo.dfy`, `ExoLaws.dfy` | EXO terms: linked element chains, printer, lexer, reader; their texts, character by character |
| `Eio.dfy` | recording and replaying one system call |
| `Sigreturn.dfy` | the call that sets what a transaction does not hold |
| `Checkpoint.dfy` | dumping a machine to text and restoring it |
| `SimEio.dfy` | the instruction loop of the simulators, for any instruction set, on a live host or on a trace |
| `Lockstep.dfy`, `Divergence.dfy` | a run and the replay of its trace: how long they stay in the same state; one that does not |
| `Replay.dfy` | trace files: a simulation that writes one, and a simulation on it |
| `Resume.dfy` | going on from a later checkpoint |
| `EventQueue.dfy` | the time-ordered event queue |
| `Eval.dfy` | the expression evaluator |
| `Wrappers.dfy` | an optional value and the ranges of machine words, shared by the others |

Each component is a class, or a set of methods, in the form the source has: arrays updated in place,
linked lists relinked pointer by pointer, loops, recursion over shared state. The contract of each
method ties its new state to a function of the old one, and the lemmas prove what that function is
for. The mathematical partner of each component is independent of its code: a fold computed from
scratch, a flat map from addresses to bytes, long division of polynomials, a grammar, the set of
events whose time has come. What a step does is stated once more in plain terms, counts, table
entries, bits, bytes and characters, for all states and inputs (`IrLaws`, `ExoLaws`, `UpdatePredictor`,
`ReplayIs`, `StepIs`, `ContextBytes`, `TokenIs`, `ParsedIs`, `BitIs`).

## What the proofs found in the code

The models follow the code. Where it does not do what its comments or its design suggest, a lemma
says exactly when it does, and where an input or a run is needed to see it, another one names it.

- `cbp/sim/predictor.h:220` cuts the path history with `TRUNCATE(path_history, LOG_TAGGED << 1)`. The
  macro does not parenthesise its argument, so the mask has 14 bits; the comment at line 101 speaks of
  a 10-bit vector (`PathBit`, `PathFitsTenBits`, `PathOutgrowsTenBits`).
- `cbp/sim/predictor.cc:30-31` looks at an alternate entry that does not exist when there is none. That
  read is a parameter, `stray`, of the prediction, and `Predictor.ChooseDirection` says what either value
  leads to.
- `cbp/sim/bt9_reader.h:1603` does not move a window of size 1, so that the loop over it never ends
  (`WindowOfOne`); the simulation needs a size of at least 2.
- `simplescalar-a1/ir_detector.cpp:201-202` tests `mem_out1` twice and `mem_out2` never. That makes no
  difference to a removal that can reach no slot named by the entry of its second memory output only
  (`GuardsAgree`), and it does make one on a run of eight instructions (`SecondOutputIsForgotten`).
- `simplescalar-a1/ir_detector.cpp:189` takes producer index 0 for none although slot 0 is a slot
  (`SlotZeroKeepsItsConsumers`, and the run of `SlotZeroIsForgotten`).
- `simplescalar-a1/ir_detector.cpp:520-546` invalidates the rename entries of the evicted instruction
  after the new one was renamed, and both have the head slot as their index, so a register or address
  that both write loses its new entry, and no other does (`WrittenRegisterSurvives` and
  `WrittenAddressSurvives`, with the runs of `RegisterIsLost` and `AddressIsLost`).
- `simplescalar-a1/ir_detector.cpp:132-137` compares floating-point registers with themselves, so that
  the check for writes that change nothing is wrong exactly for the numbers that change a register
  (`FloatCheckSeesNoChange`), and no such write is ever renamed (`FloatWritesAreMissed`,
  `FloatWriteIsLost`).
- `simplescalar-a1/misc.c:839-857` reports ERANGE for the most negative 64-bit value, which it returns
  correctly (`Numbers.SignedRoundTrip`).
- `simplescalar-a1/libexo/libexo.c:1092-1124` never consumes the delimiter of an empty blob, so that
  exactly the terms without one can be read back (`EmptyBlobIsNotConsumed`, `ReadUndoesPrintExactly`).
- `simplescalar-a1/misc.c:808-829` settles an open base before it skips a sign, so that `-0x10` is read as
  zero, up to the `x` (`SignMakesDecimal`; `ParsedSignedIs` says the value of every string).
- `simplescalar-a1/eio.c:383` cuts the number of pages to an `int` (`AllPagesRead`).
- `simplescalar-a1/eio.c:604-613` does not record registers 22 to 31, the floating-point registers and
  the next program counter, which replay therefore cannot restore (`ReplayGivesWholeState`). The call
  that changes them is `sigreturn()`, and `simplescalar-a1/target-alpha/syscall.c:930-945` repairs it
  from an address that the replay has overwritten by then (`SigreturnByTrace`, `SigreturnRepaired`, and
  the inputs of `SigreturnFails` and `SigreturnHolds`). So the replay of a run is in the same state at
  every instruction if and only if the context at that address is the right one for each `sigreturn()`
  (`Lockstep`, `SigreturnDecides`); it dies later in the run when the program puts what was lost into a
  register that is checked (`LossIsFatal`).
- `simplescalar-a1/target-alpha/alpha.h:343-344` recognises `exit()` by V0 alone, while
  `simplescalar-a1/target-alpha/syscall.c:919-923` also takes the number from A0, for `syscall()`. A run
  that ends in `exit()` through `syscall()` has no transaction for it, and its replay looks for one
  (`ExitReplays`, an if-and-only-if).
- `simplescalar-a1/eio.c:815-840` looks for the transaction of the last call made before a checkpoint; a
  checkpoint made before the first call cannot be resumed (`ResumeFromCheckpoint`, `NeverForward`).
- `simplescalar-a1/eventq.c:255-269` tells callbacks the time of servicing, not the time they were
  scheduled for (`ServiceTwice`, an if-and-only-if).
- `simplescalar-a1/eval.c:211-223` marks an empty peek buffer with the token for an invalid character,
  so that the evaluator passes over such characters instead of refusing them (`JunkBeforeSum`,
  `JunkBeforeProduct`, `JunkAtEnd`); operators of one level group to the right (`MinusGroupsRight`,
  `QuotientGroupsRight`).

## Model

| member | source | states |
|---|---|---|
| `FoldedHistories.RegisterIsFold` | cbp/sim/predictor.h:65-71 | after every run of outcomes from the zero state, for every original length below 128 and compressed length 1 to 31, the incrementally updated register is the exclusive or of the last outcomes, outcome i at bit i mod c, computed from scratch |
| `FoldedHistories.FoldStepTracks` | cbp/sim/predictor.h:65-71 | one update turns the fold of a history into the fold of the shifted history |
| `FoldedHistories.FoldStepBit` | cbp/sim/predictor.h:67-70 | bit by bit, an update rotates the register by one, brings the new outcome in at bit 0 and takes the leaving one out at bit o mod c, and leaves no bit above the width |
| `FoldedHistories.PushRotatesFold` | cbp/sim/predictor.h:59-71 | pushing one outcome onto a history rotates its from-scratch fold by one bit |
| `FoldedHistories.HistoryIsRecent` | cbp/sim/predictor.h:222-224 | entry i of the shift register is the outcome i branches ago, and not-taken before the first |
| `FoldedHistories.FoldedHistory.Setup` | cbp/sim/predictor.h:72-82 | a new register holds the fold of the empty history |
| `FoldedHistories.FoldedHistory.Update` | cbp/sim/predictor.h:65-71 | the four statements in place keep the register equal to the fold of the history it is given |
| `TagePredictor.TableIndex` | cbp/sim/predictor.h:148-157 | every index computed for a tagged table is below the table size |
| `TagePredictor.BaseIndex` | cbp/sim/predictor.h:124-127 | every base table index is below the table size |
| `TagePredictor.Tag` | cbp/sim/predictor.h:174-180 | every computed tag fits its ten bits |
| `TagePredictor.BaseIndexIs` | cbp/sim/predictor.h:124-127 | the base table index is the address modulo 8192 |
| `TagePredictor.TagBit` | cbp/sim/predictor.h:174-180 | bit k of a tag, for k below ten, is bit k of the address, exclusive or bit k of the first folded history and bit k - 1 of the second; no other bit is set |
| `TagePredictor.RotateLeftBit` | cbp/sim/predictor.h:141-143 | thirteen bits rotate left by the bank number |
| `TagePredictor.PathHistHashBit` | cbp/sim/predictor.h:135-145 | of histories up to thirteen bits, the hash of the path is its low bits, as many as the history is long, rotated by the bank number |
| `TagePredictor.TableIndexBit` | cbp/sim/predictor.h:148-157 | bit k of a table index, for k below thirteen, is the exclusive or of address bits k and k + 10 + bank, bit k of the folded history, and a bit of the path |
| `TagePredictor.FirstMatch` | cbp/sim/predictor.h:239-247 | the bank found is the first whose tag matches, or there is none |
| `TagePredictor.AllocationIsExclusive` | cbp/sim/predictor.h:183-212 | an allocation overwrites exactly one longer-history entry whose useful count is 0 with a fresh weak entry, or, when there is none, lowers the useful count of all of them by one and touches nothing else |
| `TagePredictor.AllocationIsFound` | cbp/sim/predictor.cc:67-79 | after an allocating update, and before the histories shift, looking the branch up again gives the new entry as provider and the old provider as alternate |
| `TagePredictor.OtherwiseTagsStay` | cbp/sim/predictor.cc:67-88 | every other update leaves provider and alternate of the same branch as they were |
| `TagePredictor.UpdatedRowIsFound` | cbp/sim/predictor.cc:67-88 | in terms of the row and tags from before an update: exactly one entry besides the provider changes and is then found first, with the old provider as alternate; or provider and alternate are found again, and only useful counts of candidates fell, and only when none was free |
| `TagePredictor.UpdatedRowIs` | cbp/sim/predictor.cc:67-88 | in numbers, the whole row behind an update: a wrong prediction not of bank 0 allocates, unless the provider is as good as new and was right; the first candidate with useful count 0 becomes a new entry with counter 0 or -1 and this branch's tag, or all candidates lose one useful count; banks behind the provider stay |
| `TagePredictor.TrainedIs` | cbp/sim/predictor.cc:71-88 | one training of the entry that provides, in numbers |
| `TagePredictor.OutcomeIsLearned` | cbp/sim/predictor.cc:71-79 | trained with one outcome n times, however it was predicted, the counter moves n steps towards it, as far as -8 or 7; from eight on it predicts it |
| `TagePredictor.UsefulnessIsLearned` | cbp/sim/predictor.cc:81-88 | over any run of branches on which the alternate said otherwise, the useful count goes up with every right prediction to at most 3, and down with every wrong one to at least 0 |
| `TagePredictor.PathBit` | cbp/sim/predictor.h:214-220 | behind any run of branches the path history is one address bit of each of the last fourteen, the latest lowest, and nothing else |
| `TagePredictor.PathFitsTenBits` | cbp/sim/predictor.h:101-220 | behind at least fourteen branches it fits the ten bits that its comment speaks of if and only if that bit is clear in the branches ten to thirteen before the last |
| `TagePredictor.PathOutgrowsTenBits` | cbp/sim/predictor.h:101-220 | eleven branches at addresses with that bit set take it out of the ten bits, whatever it held before |
| `TagePredictor.UpdatedRowInRange` | cbp/sim/predictor.h:115-122 | tagged counters stay in -8..7 and useful counts in 0..3 |
| `TagePredictor.Predictor.constructor` | cbp/sim/predictor.h:268-272 | all twelve folded registers start as folds of the empty history, and every counter, tag and useful count at 0, for any history lengths below 128 and any initial path history |
| `TagePredictor.Predictor.FindTPred` | cbp/sim/predictor.h:235-258 | provider and alternate are the first and the second matching bank |
| `TagePredictor.Predictor.SelectIndices` | cbp/sim/predictor.cc:17-19 | the saved indices are those of this branch, all within their tables |
| `TagePredictor.Predictor.LookUp` | cbp/sim/predictor.cc:17-21 | indices, provider and alternate all belong to this branch |
| `TagePredictor.Predictor.GetPrediction` | cbp/sim/predictor.cc:14-36 | in terms of the table entries: without a provider the base counter decides; with a negative bias the provider; otherwise the provider, unless the alternate is as good as new, which then decides; the direction is added to those predicted so far, and the look-up is left in place for the update |
| `TagePredictor.Predictor.ChooseDirection` | cbp/sim/predictor.cc:23-35 | which of provider, alternate and base table decides, in terms of their counters, for every value of the bias and of the counter read out of bounds |
| `TagePredictor.Predictor.LeastUseful` | cbp/sim/predictor.h:185-196 | the search finds the first candidate whose useful count is 0, or reports a positive minimum exactly when there is none |
| `TagePredictor.Predictor.DecrementCandidates` | cbp/sim/predictor.h:199-201 | every candidate loses one useful count and no entry outside the row changes |
| `TagePredictor.Predictor.AllocTaggedEntry` | cbp/sim/predictor.h:183-212 | the row of the branch becomes the specified allocation, and nothing else changes |
| `TagePredictor.Predictor.Overwrite` | cbp/sim/predictor.h:202-209 | exactly one entry becomes the fresh one |
| `TagePredictor.Predictor.UpdateBaseTable` | cbp/sim/predictor.h:161-171 | the counter at the address modulo 8192 moves by one towards the outcome, within -2..1, and no other |
| `TagePredictor.Predictor.UpdateHistory` | cbp/sim/predictor.h:214-233 | the history shifts and all twelve registers again hold its folds |
| `TagePredictor.Predictor.UpdateBias` | cbp/sim/predictor.cc:44-65 | when the provider's counter is 0 or -1 and its useful count 0: the bias falls, to -8 at least, if the alternate says the same, rises, to 7 at most, if the alternate says otherwise and is right, and stays if it is wrong; otherwise it stays; and whether such a provider was right |
| `TagePredictor.Predictor.TrainProvider` | cbp/sim/predictor.cc:71-88 | the provider's counter goes up to at most 7 if the branch was taken and down to at least -8 if not; its useful count moves, within 0..3, exactly when prediction and alternate differ, up if and only if the prediction was right; its tag stays |
| `TagePredictor.Predictor.UpdateTables` | cbp/sim/predictor.cc:67-88 | allocation and training turn the row of the branch into the specified one; the base counter moves towards the outcome, within -2..1, only when no bank matched |
| `TagePredictor.Predictor.UpdatePredictor` | cbp/sim/predictor.cc:41-91 | a whole update keeps every invariant of the predictor and records the outcome; in numbers, what becomes of the provider's counter, useful count and tag, of the base counter and of the bias; and the tags of this branch find in the row what they should |
| `Bt9Reader.DistinctSlots` | cbp/sim/bt9_reader.h:1606-1612 | two entries of one window never share a slot of the ring |
| `Bt9Reader.LastShift` | cbp/sim/bt9_reader.h:1598-1613 | the loop ends by the exception exactly when the sequence runs out just as a full window has been consumed |
| `Bt9Reader.WindowOfOne` | cbp/sim/bt9_reader.h:1598-1676 | with a window of size 1 the loop over a sequence that is not empty loads its first entry in every round, and after any number of rounds has not ended |
| `Bt9Reader.Reader.Store` | cbp/sim/bt9_reader.h:1606-1612 | one more entry lands in its slot, and every other entry of the window stays |
| `Bt9Reader.Reader.Fill` | cbp/sim/bt9_reader.h:1601-1613 | filling leaves entry i in slot i mod size for the whole window, and the end-of-file flag up exactly when the sequence ended inside it |
| `Bt9Reader.Reader.constructor` | cbp/sim/bt9_reader.h:1574-1592 | the first window is the beginning of the sequence |
| `Bt9Reader.Reader.ShiftWindow` | cbp/sim/bt9_reader.h:1598-1614 | the window moves by half its size and stays a segment of the sequence |
| `Bt9Reader.Reader.MoveToNext` | cbp/sim/bt9_reader.h:1621-1634 | the iterator ends only at the end of the sequence, and the window moves exactly when it is used up; the assertion in the shift never fires |
| `Bt9Reader.Reader.Load` | cbp/sim/bt9_reader.h:1641-1676 | which accesses throw, and that the others give the entry of the sequence |
| `CbpSimulation.ClassesSumToTotal` | cbp/sim/main.cc:233-253 | the four class counters sum to the total, for branches and for mispredictions |
| `CbpSimulation.MissesAreDistinctPcs` | cbp/sim/main.cc:210-253 | the MISS count is the number of distinct conditional branch addresses |
| `CbpSimulation.MissIsUnseen` | cbp/sim/main.cc:203-216 | an address is missing from the marking table exactly when it was not seen |
| `CbpSimulation.MarkAfter` | cbp/sim/main.cc:210-230 | 0, 1 and 2 mean seen only not-taken, only taken, and both, after every branch |
| `CbpSimulation.ConditionalsAre` | cbp/sim/main.cc:193-204 | of any sequence of branches the conditional ones are all counted, in order, the one behind n others as the n-th |
| `CbpSimulation.CountIs` | cbp/sim/main.cc:203-253 | a class counter is the number of positions whose branch had been seen taken before or not, and not taken before or not, as the class says; of all, or of those with a wrong prediction |
| `CbpSimulation.TotalIs` | cbp/sim/main.cc:233-244 | the totals are the number of branches and of wrong predictions |
| `CbpSimulation.Statistics.CountersAre` | cbp/sim/main.cc:233-253 | all ten counters, as numbers of positions in the trace, without the marks |
| `CbpSimulation.Statistics.constructor` | cbp/sim/main.cc:85 | an empty table and zero counters match the empty trace |
| `CbpSimulation.Statistics.Record` | cbp/sim/main.cc:203-254 | table and all ten counters match the trace extended by one branch |
| `CbpSimulation.Statistics.LookUpAndMark` | cbp/sim/main.cc:203-230 | the class flags are those of the trace so far and the table those of the extended one |
| `CbpSimulation.Statistics.CountMisprediction` | cbp/sim/main.cc:233-243 | exactly the counter of the branch's class goes up on a wrong prediction |
| `CbpSimulation.Statistics.CountBranch` | cbp/sim/main.cc:244-253 | exactly the counter of the branch's class goes up |
| `CbpSimulation.PredictAndTrain` | cbp/sim/main.cc:203-254 | one conditional branch is predicted, trained and counted; predictor and statistics agree on every branch, outcome and predicted direction so far |
| `CbpSimulation.Simulate` | cbp/sim/main.cc:97-272 | for every window size from 2 on, the loop visits every entry once and in order, predictor and statistics have seen exactly its conditional branches, with the directions that the predictor gave,, and it ends by out_of_range exactly in the stated cases |
| `IrDetector.Decremented` | simplescalar-a1/ir_detector.cpp:185-212 | the recursive removal terminates for every window, however stale or cyclic its producer links, because the total of all consumer counts falls; it lowers counts, never below 0, and changes nothing else |
| `IrDetector.DecrementedOne` | simplescalar-a1/ir_detector.cpp:189-210 | the same for one producer; its slot is occupied, so the assertion never fires |
| `IrDetector.StepKeepsInv` | simplescalar-a1/ir_detector.cpp:351-558 | processing any instruction keeps the whole invariant: valid rename entries name an occupied slot whose instruction lists that register or address among its outputs; a branch's count is the number of its instances in the window; with a constant target all of them went there; mid = head + w/2 mod w |
| `IrDetector.Run` | simplescalar-a1/ir_detector.cpp:351-558 | the invariant holds after every run from setup |
| `IrDetector.SetupInv` | simplescalar-a1/ir_detector.cpp:119-125 | the initial state has the invariant |
| `IrDetector.BeforeInsertPends` | simplescalar-a1/ir_detector.cpp:476-518 | after the rename update and the middle check the invariant holds as if the new instruction already stood in the head slot |
| `IrDetector.InsertSettles` | simplescalar-a1/ir_detector.cpp:520-557 | evicting the oldest instruction and writing the slot settles the invariant |
| `IrDetector.WriteRegKeepsOrt` | simplescalar-a1/ir_detector.cpp:242-282 | renaming a register keeps every rename entry on an instruction that lists it |
| `IrDetector.WriteMemKeepsOrt` | simplescalar-a1/ir_detector.cpp:287-329 | the same for an address |
| `IrDetector.RefRegsKeepsOrt` | simplescalar-a1/ir_detector.cpp:217-225 | counting register references keeps the rename tables right |
| `IrDetector.RefMemsKeepsOrt` | simplescalar-a1/ir_detector.cpp:226-236 | counting memory references keeps the rename tables right |
| `IrDetector.InsertSettlesOrt` | simplescalar-a1/ir_detector.cpp:520-555 | invalidating the entries of the evicted instruction leaves no rename entry that names the overwritten slot wrongly |
| `IrDetector.SeeBranchPends` | simplescalar-a1/ir_detector.cpp:451-474 | a conditional branch enters the branch table with its count and its target status right |
| `IrDetector.InsertSettlesBranches` | simplescalar-a1/ir_detector.cpp:505-555 | eviction lowers exactly the count of the evicted branch |
| `IrDetector.HalfWayRound` | simplescalar-a1/ir_detector.cpp:109-117 | both circular pointers advance in step |
| `IrDetector.RemovalStaysInReach` | simplescalar-a1/ir_detector.cpp:185-212 | a removal changes only transitive producers of the removed instruction |
| `IrDetector.ReleaseIs` | simplescalar-a1/ir_detector.cpp:185-212 | without a producer a removal changes nothing; of one producer it lowers the count by one if there are several consumers, or one and a rename entry still names it; of the last consumer of an unnamed one it goes on with that one's producers; a count of 0 stays |
| `IrDetector.MiddleIs` | simplescalar-a1/ir_detector.cpp:492-502 | exactly when the branch in the middle may be removable and its target is still constant are its producers released, so that one with n at least 2 consumers has n - 1; otherwise nothing changes |
| `IrDetector.SlotZeroKeepsItsConsumers` | simplescalar-a1/ir_detector.cpp:189 | because producer index 0 reads as none, slot 0 never loses a consumer |
| `IrDetector.WrittenRegisterSurvives` | simplescalar-a1/ir_detector.cpp:520-546 | a register just written has a valid rename entry afterwards if and only if the evicted instruction does not list the same register |
| `IrDetector.Detector.constructor` | simplescalar-a1/ir_detector.cpp:119-125 | setup gives the initial state and its invariant |
| `IrDetector.Detector.DecrementConsumer` | simplescalar-a1/ir_detector.cpp:185-212 | the recursion in place computes the specified removal |
| `IrDetector.Detector.DecrementOne` | simplescalar-a1/ir_detector.cpp:189-210 | one step of it, with its assertion discharged |
| `IrDetector.Detector.RefUpdate` | simplescalar-a1/ir_detector.cpp:217-237 | reference flags and consumer counts as specified |
| `IrDetector.Detector.UrefCheck` | simplescalar-a1/ir_detector.cpp:242-282 | register renaming as specified, removing unreferenced producers |
| `IrDetector.Detector.UrefCheckMem` | simplescalar-a1/ir_detector.cpp:287-329 | memory renaming as specified |
| `IrDetector.Detector.Advance` | simplescalar-a1/ir_detector.cpp:109-117 | the pointer moves to the next slot of the ring, and its old value is returned |
| `IrDetector.Detector.NoteBranch` | simplescalar-a1/ir_detector.cpp:451-474 | the branch table and the candidate flag as specified |
| `IrDetector.Detector.MiddleCheck` | simplescalar-a1/ir_detector.cpp:492-502 | nothing changes unless the branch in the middle may be removable and its target is still constant; then, if it has one producer, with n consumers, n at least 2, that has n - 1 and nothing else changes; and in general its producers are released as specified |
| `IrDetector.Detector.Evict` | simplescalar-a1/ir_detector.cpp:518-546 | while the window fills up nothing leaves; afterwards exactly the valid entries that name the head slot and belong to an output of its instruction become invalid |
| `IrDetector.Detector.Enqueue` | simplescalar-a1/ir_detector.cpp:503-557 | branch accounting, eviction, slot overwrite and pointer advance, in the order of the source |
| `IrDetector.Detector.ProcessNewInstr` | simplescalar-a1/ir_detector.cpp:351-558 | the whole routine carries out one step of the specified machine, which IrLaws says in terms of counts and table entries, and keeps the invariant |
| `IrLaws.BranchIsPredicted` | simplescalar-a1/ir_detector.cpp:492-502 | a run of seven instructions in a window of six, with two branches to one place: behind six the producer that both read has two consumers, behind seven, with the second in the middle, one |
| `IrLaws.StepIs` | simplescalar-a1/ir_detector.cpp:351-558 | the order of one step: branch table, rename update, middle check, eviction, slot; the entry is that of the tables from before, and head, middle and count move on as they should |
| `IrLaws.PlainStep` | simplescalar-a1/ir_detector.cpp:351-558 | the whole state behind an instruction that reads and writes one register at most, while the window fills up |
| `IrLaws.EntryIs` | simplescalar-a1/ir_detector.cpp:356-367 | the new entry names what the instruction writes and the producers of what it reads; it is a removable branch if and only if the table has seen it, and to that place only |
| `IrLaws.EntryCheckIs` | simplescalar-a1/ir_detector.cpp:369-450 | which instructions are removed on entry, by the first class flag that is set: unchanged integer results, floating-point results that are numbers, words stored that were there, calls and jumps |
| `IrLaws.ReadsCount` | simplescalar-a1/ir_detector.cpp:217-225 | every register read adds one to the count of its producer and sets its reference flag, and nothing else changes in the registers |
| `IrLaws.LoadsCount` | simplescalar-a1/ir_detector.cpp:226-236 | the same for every address loaded that has a valid entry |
| `IrLaws.OverwriteIs` | simplescalar-a1/ir_detector.cpp:242-282 | the producers of an old value are released if and only if its entry is valid, never referenced and not paired |
| `IrLaws.RegWriteIs` | simplescalar-a1/ir_detector.cpp:242-282 | a register written names the head slot and the register it is written with |
| `IrLaws.MemWriteIs` | simplescalar-a1/ir_detector.cpp:287-329 | an address written names the head slot and, in 32 bits, the address it is written with |
| `IrLaws.RenamesAre` | simplescalar-a1/ir_detector.cpp:476-486 | all rename entries behind an instruction that is no store: written registers name the head slot and each other, read ones are referenced, loaded addresses are if valid; a removed instruction changes none |
| `IrLaws.StoresRename` | simplescalar-a1/ir_detector.cpp:476-486 | the same for a store |
| `IrLaws.CountsAre` | simplescalar-a1/ir_detector.cpp:217-329 | when no unused value is overwritten, every count goes up by the registers and addresses read of which the slot is the producer |
| `IrLaws.BranchIsSeen` | simplescalar-a1/ir_detector.cpp:451-474 | a branch enters the table with its target and a count of one, or is counted once more, another target being remembered for good |
| `IrLaws.BranchLeaves` | simplescalar-a1/ir_detector.cpp:503-517 | a branch that leaves is counted once less, and its target and status stay |
| `IrLaws.EvictionIs` | simplescalar-a1/ir_detector.cpp:518-546 | exactly the valid entries that name the head slot, of what the oldest instruction of a full window writes, become invalid |
| `IrLaws.InsertionIs` | simplescalar-a1/ir_detector.cpp:553-557 | the new entry takes the head slot, and both pointers go one slot on |
| `IrDefects.WrittenAddressSurvives` | simplescalar-a1/ir_detector.cpp:520-546 | an address just stored to has a valid rename entry afterwards if and only if the evicted instruction does not list the same address |
| `IrDefects.RegisterIsLost` | simplescalar-a1/ir_detector.cpp:520-546 | a run of two instructions, in a window of one, behind which the register just written has no valid entry |
| `IrDefects.AddressIsLost` | simplescalar-a1/ir_detector.cpp:520-546 | the same for an address |
| `IrDefects.GuardsAgree` | simplescalar-a1/ir_detector.cpp:199-202 | a removal that also tests the second memory output does the same as the code, from any producers inside a set closed under sources in which no slot is named by that output's entry only |
| `IrDefects.SecondOutputIsForgotten` | simplescalar-a1/ir_detector.cpp:199-202 | a run of eight instructions, in a window of five, behind which the two removals differ: the code takes away the last consumer of a value whose user is still named |
| `IrDefects.SlotZeroIsForgotten` | simplescalar-a1/ir_detector.cpp:189 | a run of three instructions behind which the producer in slot 0 keeps a consumer that is gone |
| `IrDefects.FloatCheckSeesNoChange` | simplescalar-a1/ir_detector.cpp:130-165 | the integer branch of the check is right; the floating-point branch says yes to every instruction that writes numbers to a register, and so is wrong exactly when such a write changes one |
| `IrDefects.FloatWritesAreMissed` | simplescalar-a1/ir_detector.cpp:389-424 | no floating-point operation or load that writes numbers is ever renamed |
| `IrDefects.FloatWriteIsLost` | simplescalar-a1/ir_detector.cpp:130-165 | a run of one instruction that changes a floating-point register and leaves no entry for it |
| `Memory.MacrosAreArithmetic` | simplescalar-a1/memory.h:106-130 | the shift, mask and or macros are division, remainder and sum |
| `Memory.SplitInverts` | simplescalar-a1/memory.h:106-117 | set, tag and offset determine an address, and MEM_PTE_ADDR inverts the split |
| `Memory.AccessPasses` | simplescalar-a1/memory.c:149-155 | of all sizes an int can have but the most negative, exactly the powers of two up to a page that divide the address pass the checks (and the empty access at address 0); every negative size is refused as one of the wrong size |
| `Memory.FaultIs` | simplescalar-a1/memory.c:149-155 | which fault: an access fault for a size that is no power of two up to a page, an alignment fault for an address that such a size does not divide |
| `Memory.AccessInOnePage` | simplescalar-a1/memory.c:149-155 | every access that passes lies inside one page and does not wrap |
| `Memory.Mem.constructor` | simplescalar-a1/memory.c:252-263 | a new memory is empty and reads as zero everywhere |
| `Memory.Mem.Translate` | simplescalar-a1/memory.c:79-107 | the page of the address, or none exactly when it is not mapped; the entry found is the first of its bucket then, the others behind it in their order and the other buckets untouched; one more miss and one more access are counted |
| `Memory.Mem.Page` | simplescalar-a1/memory.h:119-127 | the same with the first-entry shortcut, which counts no miss |
| `Memory.Mem.NewPage` | simplescalar-a1/memory.c:111-135 | one more zero page in front of its bucket, page_count one higher, and the flat contents unchanged |
| `Memory.Mem.MoveToFront` | simplescalar-a1/memory.c:94-100 | the three assignments turn the list into the same list with that entry first |
| `Memory.Mem.ReadByte` | simplescalar-a1/memory.h:151-154 | the byte of the flat map, zero where nothing was written; nothing is allocated |
| `Memory.Mem.Tickle` | simplescalar-a1/memory.h:133-137 | the address is mapped afterwards, by a new zero page exactly when it was not, and the flat contents stay |
| `Memory.Mem.WriteByte` | simplescalar-a1/memory.h:162-164 | exactly that byte of the flat map changes; a page is allocated exactly when there was none |
| `Memory.Mem.ReadBytes` | simplescalar-a1/memory.c:159-167 | a block of the flat map lands in the host buffer and nowhere else |
| `Memory.Mem.WriteBytes` | simplescalar-a1/memory.c:168-176 | exactly that block of the flat map is written |
| `Memory.Mem.Access` | simplescalar-a1/memory.c:141-219 | the fault that the checks give, with nothing changed, or the transfer of exactly the block; for every alignment and every size, negative ones included |
| `Memory.Mem.BCopy` | simplescalar-a1/memory.c:341-361 | a bytewise copy of any length and alignment never faults and transfers exactly the block |
| `Memory.Mem.BCopy4` | simplescalar-a1/memory.c:367-391 | on aligned addresses and whole words the same transfer as the bytewise copy; otherwise it is cut to whole words or faults on the first |
| `Memory.Mem.BZero` | simplescalar-a1/memory.c:394-411 | a block of zeros is written, of any length and alignment, without a fault |
| `Memory.Mem.StrCpyIn` | simplescalar-a1/memory.c:297-331 | the host string is written up to and with its terminator |
| `Memory.Mem.StrCpyOut` | simplescalar-a1/memory.c:297-318 | the simulated string is read up to and with its terminator, and the rest of the host buffer stays |
| `Memory.Mem.CopyBlock` | simplescalar-a1/memory.c:354-357 | one access of a copy extends it by one block, or faults and changes nothing |
| `Memory.MoveKeepsMembers` | simplescalar-a1/memory.c:94-100 | move-to-front keeps every entry in its own bucket with distinct tags |
| `Memory.NewKeepsMembers` | simplescalar-a1/memory.c:126-131 | so does a new entry |
| `Numbers.WrappedDigit` | simplescalar-a1/misc.c:581-583 | the digit computed from two values truncated to 32 bits, with wrap-around, is the decimal digit |
| `Numbers.LowDigit` | simplescalar-a1/misc.c:401-413 | low decimal digit and rest of a value whose top bit is set |
| `Numbers.HexStep` | simplescalar-a1/misc.c:643-644 | one turn of the hexadecimal loop takes off the low four bits |
| `Numbers.DecimalDigits` | simplescalar-a1/misc.c:572-588 | the digits written downwards into the buffer are the decimal digits, and nothing else is touched |
| `Numbers.FormatUnsigned` | simplescalar-a1/misc.c:591-600 | for all 2^64 values the text is the decimal numeral and fits in front of position 22 |
| `Numbers.FormatSigned` | simplescalar-a1/misc.c:547-570 | for all 64-bit signed values sign and text are the decimal numeral, the most negative value included |
| `Numbers.FormatHex` | simplescalar-a1/misc.c:615-646 | for all 2^64 values the text is the hexadecimal numeral, with one padding zero for zero |
| `Numbers.TwentyDigits` | simplescalar-a1/misc.c:591-646 | no 64-bit value has more than 20 decimal or 16 hexadecimal digits |
| `Numbers.CutoffIsExact` | simplescalar-a1/misc.c:932-949 | the cut-off test says exactly whether the next digit would pass the maximum |
| `Numbers.Accumulate` | simplescalar-a1/misc.c:932-956 | value of the longest digit run, and whether it passes the maximum, for every base and string |
| `Numbers.Open` | simplescalar-a1/misc.c:902-924 | panics on a null string and on bases out of range, reports a blank string, and otherwise gives the first position behind the blanks and the base |
| `Numbers.Atoq` | simplescalar-a1/misc.c:896-979 | the exact value up to 2^64-1, otherwise the maximum with ERANGE; panic and no conversion where the source has them |
| `Numbers.Atosq` | simplescalar-a1/misc.c:789-892 | the same with a sign, the magnitude limited to 2^63-1 |
| `Numbers.ParsedIs` | simplescalar-a1/misc.c:896-979 | behind white space the value of a string is the number that its digits spell, hexadecimal behind 0x if the base is 16 or open, never octal, with letters of either case; it ends behind the last digit, and 2^64 and more is cut to 2^64-1 with ERANGE |
| `Numbers.ParsedSignedIs` | simplescalar-a1/misc.c:789-892 | the same with one sign in front of the digits, and of 0x; an open base is settled before the sign, so that a sign makes it decimal |
| `Numbers.SignMakesDecimal` | simplescalar-a1/misc.c:808-829 | with an open base 0x10 is read as 16, and -0x10 as zero, up to the x |
| `Numbers.NotParsed` | simplescalar-a1/misc.c:902-924 | an empty string or a base out of range stops the program, a blank string converts nothing |
| `Numbers.RunSpells` | simplescalar-a1/misc.c:932-956 | every run of digits spells its value |
| `Numbers.NoLeadingZero` | simplescalar-a1/misc.c:572-646 | what is printed has no leading zero |
| `Numbers.RoundTrip` | simplescalar-a1/misc.c:896-979 | %lu and %lx text parses back to the value, in its base or with the base open, and stops right behind it |
| `Numbers.SignedRoundTrip` | simplescalar-a1/misc.c:789-892 | %ld text parses back to the value; ERANGE is reported exactly for the most negative one |
| `Crc.CrcIsRemainder` | simplescalar-a1/misc.c:1171-1189 | for every starting value and sequence of words the table-driven code gives the remainder of bit-by-bit long division by the generator |
| `Crc.CrcIsLinear` | simplescalar-a1/misc.c:1171-1189 | the CRC of a sum is the sum of the CRCs |
| `Crc.ByteIsEightSteps` | simplescalar-a1/misc.c:1183-1187 | one table look-up is eight shift-register steps with the byte at the top |
| `Crc.MessageDivides` | simplescalar-a1/misc.c:1171-1189 | the accumulator after a message, as remainders |
| `Crc.RemainderAppend` | simplescalar-a1/misc.c:1150-1168 | long division of a concatenation |
| `Crc.RemainderOfSum` | simplescalar-a1/misc.c:1150-1168 | long division is linear |
| `Crc.RemainderOfBits` | simplescalar-a1/misc.c:1150-1168 | a dividend that fits the register is its own remainder |
| `Crc.GeneratorIs` | simplescalar-a1/misc.c:1150-1168 | the remainder of x^32 is 0x04c11db7 |
| `Crc.TableAtOne` | simplescalar-a1/misc.c:1150-1168 | so is the table entry of the byte 1 |
| `Crc.LanesAreShifts` | simplescalar-a1/misc.c:1185 | the bytes of a word are taken low to high |
| `Crc.Generator.GenTab` | simplescalar-a1/misc.c:1150-1168 | the table holds the remainder of every byte |
| `Crc.Generator.Update` | simplescalar-a1/misc.c:1171-1189 | one call takes one word, and generates the table on the first |
| `Exo.ReadUndoesPrint` | simplescalar-a1/libexo/libexo.c:752-858 | printing a well-formed term and reading it back gives the same term, and the reader stops exactly behind it |
| `Exo.RoundTrip` | simplescalar-a1/libexo/libexo.c:877-1140 | the same anywhere inside a text |
| `Exo.ItemsRoundTrip` | simplescalar-a1/libexo/libexo.c:984-1012 | for lists, from any element on |
| `Exo.SlotsRoundTrip` | simplescalar-a1/libexo/libexo.c:1049-1086 | for arrays with empty slots, from any slot on, trailing empty slots restored |
| `Exo.BytesRoundTrip` | simplescalar-a1/libexo/libexo.c:1088-1124 | for blobs, from any byte on, with their line breaks |
| `Exo.SizeRoundTrip` | simplescalar-a1/libexo/libexo.c:1025-1046 | for the size in braces |
| `Exo.LexNumber` | simplescalar-a1/libexo/exolex.l:94-95 | a printed integer is one token with its own value |
| `Exo.LexAddress` | simplescalar-a1/libexo/exolex.l:93 | a printed address is one token with its own value |
| `Exo.LexName` | simplescalar-a1/libexo/exolex.l:105 | an identifier token is one token |
| `Exo.Lex` | simplescalar-a1/libexo/exolex.l:89-121 | every token but the end of the text is non-empty and inside the text |
| `Exo.EmptyBlobIsNotConsumed` | simplescalar-a1/libexo/libexo.c:1092-1124 | anywhere in a text, and for either value of the flag its printer does not set, an empty blob is read up to its delimiter, which stays unread: the lexer stays in blob mode and the next read fails |
| `Exo.EmptyBlobFails` | simplescalar-a1/libexo/libexo.c:984-1124 | a list or array with an empty blob anywhere inside cannot be read back |
| `Exo.ReadUndoesPrintExactly` | simplescalar-a1/libexo/libexo.c:752-1140 | of all terms of representable size, printed anywhere, exactly those without an empty blob come back as they were |
| `Exo.TermReads` | simplescalar-a1/libexo/libexo.c:877-1140 | of terms printed one after the other, each read gives the next and leaves the reader right behind it |
| `Exo.ManyRead` | simplescalar-a1/libexo/libexo.c:877-1140 | so do any number of reads, from any of the terms on |
| `Exo.AllReadBack` | simplescalar-a1/libexo/libexo.c:752-1140 | reading to the end of a text of printed terms gives exactly these terms if and only if none has an empty blob inside |
| `Exo.Printer.PrintLine` | simplescalar-a1/eio.c:622-623 | a term and an empty line are added to the output |
| `Exo.Printer.PrintTerm` | simplescalar-a1/libexo/libexo.c:752-858 | the printing loops produce the specified text |
| `Exo.Printer.PrintItems` | simplescalar-a1/libexo/libexo.c:789-802 | for lists |
| `Exo.Printer.PrintSlots` | simplescalar-a1/libexo/libexo.c:804-827 | for arrays, up to the last slot that is not empty |
| `Exo.Printer.LastUsed` | simplescalar-a1/libexo/libexo.c:808-814 | the last slot that is not empty |
| `Exo.Printer.PrintBlob` | simplescalar-a1/libexo/libexo.c:834-852 | for blobs, with a line break before every byte whose number is a multiple of 38, and for either value of the flag that an empty blob leaves unset |
| `Exo.Reader.ReadTerm` | simplescalar-a1/libexo/libexo.c:877-1140 | the recursive reader on its stateful stream reads the specified term and leaves the specified state |
| `Exo.Reader.ReadListTail` | simplescalar-a1/libexo/libexo.c:984-1012 | the element loop |
| `Exo.Reader.ReadSizedTail` | simplescalar-a1/libexo/libexo.c:1025-1128 | size, delimiters and the choice between array and blob |
| `Exo.Reader.ReadSlotsTail` | simplescalar-a1/libexo/libexo.c:1049-1086 | the slot loop |
| `Exo.Reader.ReadBytesTail` | simplescalar-a1/libexo/libexo.c:1088-1124 | the byte loop |
| `Exo.Reader.NextChar` | simplescalar-a1/libexo/exolex.l:153-163 | blanks are consumed, the next character is only looked at |
| `ExoLaws.AtomTextIs` | simplescalar-a1/libexo/libexo.c:759-788 | numbers are printed in decimal, addresses in hexadecimal behind 0x, tokens as they are |
| `ExoLaws.ListTextIs` | simplescalar-a1/libexo/libexo.c:789-802 | a printed list is its printed elements, with a comma and a space in between, in parentheses |
| `ExoLaws.ArrayTextIs` | simplescalar-a1/libexo/libexo.c:804-827 | a printed array is its size in braces and, in brackets, its slots up to the last used one, a space for an empty one |
| `ExoLaws.BytesAre` | simplescalar-a1/libexo/libexo.c:834-852 | byte i of a blob is two hexadecimal digits at 2 i + i / 38, with a line break in front of every multiple of 38 but 0 |
| `ExoLaws.BlobTextIs` | simplescalar-a1/libexo/libexo.c:834-852 | what is in front of the bytes of a printed blob, and behind them |
| `ExoLaws.AddressTokenIs` | simplescalar-a1/libexo/exolex.l:93 | any text with 0x and a hexadecimal digit is an address token up to the last such digit |
| `ExoLaws.NumberTokenIs` | simplescalar-a1/libexo/exolex.l:94-99 | digits are a number token up to the last, unless a point or an exponent makes them a floating point one |
| `ExoLaws.NameTokenIs` | simplescalar-a1/libexo/exolex.l:105 | a letter or underscore begins a name that goes on as long as letters, digits and underscores do |
| `ExoLaws.DelimiterIs` | simplescalar-a1/libexo/exolex.l:109-118 | each delimiter is a token, of which only < begins a blob |
| `ExoLaws.BlobTokenIs` | simplescalar-a1/libexo/exolex.l:89-118 | in a blob two hexadecimal digits are a byte and > ends it; anything else is an error |
| `ExoLaws.NumberIs` | simplescalar-a1/libexo/libexo.c:877-925 | a number token is read as what its digits spell, or rejected from 2^64 on |
| `ExoLaws.AddressIs` | simplescalar-a1/libexo/libexo.c:877-925 | so is an address token |
| `ExoLaws.GoesOnIs` | simplescalar-a1/libexo/libexo.c:984-1012 | behind an element one comma is skipped if there is one, with the white space around it; none can be inside an open blob |
| `ExoLaws.ItemsAre` | simplescalar-a1/libexo/libexo.c:984-1012 | for any text, the loop over elements gives a list and stops at a place if and only if these elements are listed up to there |
| `ExoLaws.ListReads` | simplescalar-a1/libexo/libexo.c:984-1012 | so does reading at an opening parenthesis |
| `ExoLaws.SlotsAre` | simplescalar-a1/libexo/libexo.c:1049-1086 | for any text, the loop over slots gives an array if and only if its slots are listed there, bare commas being empty slots and the ones left out, too |
| `ExoLaws.BytesAreRead` | simplescalar-a1/libexo/libexo.c:1088-1124 | for any text, the loop over bytes gives a blob if and only if its bytes are spelled there, those left out being zero |
| `ExoLaws.ArrayReads` | simplescalar-a1/libexo/libexo.c:1025-1086 | so for an array with its size |
| `ExoLaws.BlobReads` | simplescalar-a1/libexo/libexo.c:1025-1124 | and a blob with its size |
| `ExoChains.Chain` | simplescalar-a1/libexo/libexo.c:608-628 | the list of the first argument followed by that of the second, with only the tail pointer changed |
| `Eio.ReplayUndoesRecording` | simplescalar-a1/eio.c:571-811 | for every system call whose accesses succeed and whose reads come first, replaying its transaction from the same registers and memory contents passes every check, and gives the same memory contents, break and registers 0 to 21 |
| `Eio.ReplayGivesWholeState` | simplescalar-a1/eio.c:604-613 | the registers come out right altogether if and only if the call leaves alone what a transaction does not hold: registers 22 to 31, the floating-point registers with their control register, and the next program counter |
| `Eio.ReplayIs` | simplescalar-a1/eio.c:636-811 | in terms of the terms of a transaction, for any list of terms: exactly when its replay succeeds - count, program counter, 22 registers, every input byte, 23 addresses, records - and which break, registers and memory it leaves; exit() exactly for 1 in register 0 |
| `Eio.NothingToReplay` | simplescalar-a1/eio.c:648-677 | without a term a replay dies, unless the call is exit() |
| `Eio.LastByteStays` | simplescalar-a1/eio.c:781-807 | of bytes written one after the other to one address the last stays |
| `Eio.OtherBytesStay` | simplescalar-a1/eio.c:781-807 | and other addresses keep theirs |
| `Eio.PassingIsBounded` | simplescalar-a1/eio.c:491-565 | an access that passes is not larger than a page, and not empty unless it is at address 0 |
| `Eio.Coalesce` | simplescalar-a1/eio.c:529-558 | the list of records grows by exactly the bytes of the access, each at its own address; they go into the last blob if and only if they meet its end and there is room left of the 256 bytes more that each blob is given, and start a new one otherwise |
| `Eio.TouchesAppend` | simplescalar-a1/eio.c:532-539 | two accesses that meet, also across the end of the address space, are one |
| `Eio.InputsShow` | simplescalar-a1/eio.c:526-527 | what a call reads is what memory shows |
| `Eio.FlattenShows` | simplescalar-a1/eio.c:707-732 | if memory shows all recorded bytes, every record passes the input check |
| `Eio.TransactionPrints` | simplescalar-a1/eio.c:615-623 | a transaction of 64-bit values survives printing and reading if and only if none of its memory records is empty |
| `Eio.Tracer.MyMemFn` | simplescalar-a1/eio.c:491-565 | a read after a write stops; otherwise the access is performed, and its bytes are recorded in the right list |
| `Eio.Tracer.SysCall` | simplescalar-a1/eio.c:590-602 | a whole call: recorded inputs and outputs flatten to exactly its accesses, and memory has its stores |
| `Eio.Tracer.WriteTrace` | simplescalar-a1/eio.c:571-630 | the transaction holds the instruction count, program counter, input registers and memory, break, output registers and memory, and the call has had its effect |
| `Eio.Tracer.ReadTrace` | simplescalar-a1/eio.c:636-811 | the checking and writing loops end exactly as specified: exit, error exit, or the new state |
| `Eio.Tracer.CheckRegs` | simplescalar-a1/eio.c:691-705 | exactly the 22 traced registers, as addresses with these values |
| `Eio.Tracer.CheckInputs` | simplescalar-a1/eio.c:707-732 | passes exactly when every record is well formed and memory shows its bytes |
| `Eio.Tracer.WriteRegs` | simplescalar-a1/eio.c:759-779 | break and 22 registers taken from the record, no others changed |
| `Eio.Tracer.WriteOutputs` | simplescalar-a1/eio.c:781-807 | memory has the recorded bytes written in order |
| `Sigreturn.LoadsInputs` | simplescalar-a1/target-alpha/syscall.c:2557-2558 | what sigreturn() reads is the signal context, byte by byte |
| `Sigreturn.SigreturnByTrace` | simplescalar-a1/target-alpha/syscall.c:2560-2569 | replaying its transaction gives the registers of the context if and only if the context has the old values in every register that a transaction does not hold |
| `Sigreturn.SigreturnRepaired` | simplescalar-a1/target-alpha/syscall.c:930-945 | the repair reads the context from where A0 points after the replay, which is the A0 of the context: the registers are right if and only if the context at that place is the same |
| `Sigreturn.SigreturnFails` | simplescalar-a1/target-alpha/syscall.c:930-945 | a memory and registers for which the replay, and the repair too, lose the floating-point control register |
| `Sigreturn.SigreturnHolds` | simplescalar-a1/target-alpha/syscall.c:930-945 | a memory and registers for which the transaction is not enough and the repair gives every register |
| `Sigreturn.ContextFits` | simplescalar-a1/target-alpha/syscall.c:937-944 | the fields of a signal context are words of 64 bits |
| `Sigreturn.ContextBytes` | simplescalar-a1/target-alpha/syscall.c:592-602 | for every memory and address, byte k of a restored register is the byte in memory at 32 + 8 i + k for integer register i, 296 + 8 i + k for floating-point register i, 552 + k for the control register and 16 + k for the next program counter, from the address of the context on |
| `Sigreturn.SigreturnSets` | simplescalar-a1/target-alpha/syscall.c:2557-2569 | so are the registers behind the call itself |
| `Sigreturn.SigreturnJumps` | simplescalar-a1/target-alpha/syscall.c:2557-2569 | a context whose sc_pc is 4096 and whose sc_mask is 0 makes the next program counter 4096 |
| `Sigreturn.SysSyscall` | simplescalar-a1/target-alpha/syscall.c:915-949 | a system call while a trace is consumed: the replay of the transaction; and when the call is 103, or 0 with 103 in A0, the integer and floating-point registers, control register and next program counter are then the eight bytes each at their places in the signal context, otherwise as the replay left them |
| `Sigreturn.ReadContext` | simplescalar-a1/target-alpha/syscall.c:937-938 | the registers whose bytes are those at their places in the context, with memory unchanged |
| `Checkpoint.CheckpointRoundTrip` | simplescalar-a1/eio.c:205-466 | a checkpoint printed anywhere in a text, whatever follows it, is read back as it was: counters, all registers, break, segments, and the byte at every address, also on top of a memory that shows nothing the dumped one never wrote; fewer than 2^31 pages; the reader takes exactly the terms written |
| `Checkpoint.RestoreOver` | simplescalar-a1/eio.c:430-463 | writing the dumped bytes over such a memory reproduces the dumped one at every address |
| `Checkpoint.AppliedAgrees` | simplescalar-a1/eio.c:447-455 | writing bytes of a memory makes exactly those addresses agree with it |
| `Checkpoint.HeadReads` | simplescalar-a1/eio.c:219-284 | the eight terms in front of the pages pass the reader's checks and give the values they were made of |
| `Checkpoint.HeadMeans` | simplescalar-a1/eio.c:316-428 | which eight terms are accepted in front of the pages, and which of their values become which register, counter, break and segment |
| `Checkpoint.PageTouches` | simplescalar-a1/eio.c:286-298 | the bytes of a dumped page lie at the addresses MEM_PTE_ADDR gives it |
| `Checkpoint.AllPagesRead` | simplescalar-a1/eio.c:383 | the reader takes all the pages if and only if there are fewer than 2^31 |
| `Checkpoint.DumpPages` | simplescalar-a1/eio.c:286-298 | as many records as page_count says are printed, holding bytes of the memory only, and every byte ever written |
| `Checkpoint.DumpBucket` | simplescalar-a1/memory.h:140-142 | exactly the pages of one bucket are printed, in list order, at their own addresses |
| `Checkpoint.DumpOne` | simplescalar-a1/memory.h:114-116 | one more page adds its bytes, all at addresses of the address space, to what the dump shows |
| `Checkpoint.WriteHead` | simplescalar-a1/eio.c:219-284 | counters, registers, page count and segments are printed in front of the pages |
| `Checkpoint.WriteCheckpoint` | simplescalar-a1/eio.c:208-303 | the text is the head and the pages, and the count in the head is the number of pages that follow |
| `Checkpoint.ReadHead` | simplescalar-a1/eio.c:316-428 | exactly eight terms of the right shapes are taken, or the text is rejected |
| `Checkpoint.ReadPages` | simplescalar-a1/eio.c:430-463 | as many records as asked for are taken and written to memory in order, or the text is rejected at the first that is no page |
| `Checkpoint.Restore` | simplescalar-a1/eio.c:307-466 | registers, globals and memory as the text has them, or a rejection |
| `Checkpoint.LoadMachine` | simplescalar-a1/target-alpha/loader.c:170-180 | a new machine has the registers, globals and memory contents of the checkpoint, and the reader stands behind it |
| `Checkpoint.DumpThenRestore` | simplescalar-a1/eio.c:205-466 | dumping a machine to text and restoring the text into a new one gives the same counters, registers and the same byte at every address |
| `SimEio.RunSplits` | simplescalar-a1/sim-eio.c:498-601 | a run goes on from any of its states as it would have gone on there |
| `SimEio.StepIs` | simplescalar-a1/sim-eio.c:498-601 | one instruction, in terms of the register file: the instruction set is given registers with zero in integer and floating-point register 31, the four bytes at the program counter and the data; stores, registers, counts and program counters behind it; a call is answered with the count of this instruction |
| `SimEio.Register31DoesNotMatter` | simplescalar-a1/sim-eio.c:500-504 | machines that differ in integer and floating-point register 31 only take equal steps |
| `SimEio.ExitIs` | simplescalar-a1/target-alpha/syscall.c:919-923 | on a live host exactly 1 in V0, or 0 there and 1 in A0, is exit() |
| `SimEio.SigreturnAnswers` | simplescalar-a1/target-alpha/syscall.c:2557-2569 | 103 in V0, or 0 there and 103 in A0, sets every register from the context at A0 and leaves memory alone |
| `SimEio.AlikeRuns` | simplescalar-a1/sim-eio.c:498-601 | for every instruction set, machines with the same registers, counters, break and byte at every address run alike, on a live host and on a trace, whatever their page tables look like, and end alike |
| `SimEio.SameInstruction` | simplescalar-a1/sim-eio.c:545-576 | an instruction comes to the same on memories that show the same bytes |
| `SimEio.SameAnswer` | simplescalar-a1/target-alpha/syscall.c:915-949 | neither a host nor a trace tells such machines apart at a system call |
| `SimEio.RunKeeps` | simplescalar-a1/sim-eio.c:498-601 | every run counts its instructions, keeps registers and break within 64 bits and the next program counter one instruction ahead, and forgets no address |
| `SimEio.ReplayFits` | simplescalar-a1/eio.c:755-811 | what a replay takes from regular terms is words of 64 bits |
| `SimEio.Simulator.constructor` | simplescalar-a1/sim-eio.c:496 | the machine as it was loaded, with the next program counter four bytes behind the program counter |
| `SimEio.Simulator.Load` | simplescalar-a1/sim-eio.c:545-576 | the bytes at the given addresses, with memory contents unchanged |
| `SimEio.Simulator.Store` | simplescalar-a1/sim-eio.c:560-576 | memory has the stores written in order |
| `SimEio.Simulator.Clear` | simplescalar-a1/sim-eio.c:500-504 | integer and floating-point register 31 are zero, and every other register is as it was |
| `SimEio.Simulator.Decode` | simplescalar-a1/sim-eio.c:545-576 | what the instruction at the program counter comes to, for the bytes and data in memory |
| `SimEio.Simulator.Effect` | simplescalar-a1/sim-eio.c:560-576 | registers and memory as the instruction leaves them |
| `SimEio.Simulator.Execute` | simplescalar-a1/sim-eio.c:500-579 | one turn of the loop up to a system call: the count goes up, the instruction is executed with zero in registers 31, and registers and memory are those behind it, or, but for registers 31, untouched when it is a call or a fault |
| `SimEio.Simulator.GoOn` | simplescalar-a1/sim-eio.c:594-596 | the program counter moves on to the next program counter, and that to four bytes behind it |
| `Lockstep.Lockstep` | simplescalar-a1/sim-eio.c:391-395 | for every instruction set and every run on a live host, its trace replayed on a machine in the same state keeps that machine in the same state at every instruction if and only if at every system call the trace has a transaction that can be read and what sys_syscall leaves of it are the registers behind the call |
| `Lockstep.NextInStep` | simplescalar-a1/sim-eio.c:391-395 | the same for one instruction, and without a transaction the replay dies |
| `Lockstep.RestoresIs` | simplescalar-a1/target-alpha/syscall.c:926-949 | what sys_syscall leaves are the registers behind the call, as the next instruction finds them: for sigreturn() if and only if the signal context that its A0 names is the same as its own, for another call if and only if it leaves alone what a transaction does not hold |
| `Lockstep.SigreturnDecides` | simplescalar-a1/target-alpha/syscall.c:926-949 | on a host on which no other call touches what a transaction does not hold, what sys_syscall leaves is right at every call of a run if and only if the context of every sigreturn() is also at the place that its A0 names |
| `Lockstep.ReplayEnds` | simplescalar-a1/eio.c:636-811 | if that is so of all calls, the replay ends in the same state, or dies, when there are fewer transactions than calls |
| `Lockstep.ReplayOf` | simplescalar-a1/eio.c:636-811 | such a replay from the text: it dies if a transaction has an empty blob, and else goes on, exits or dies as the run does, except that it dies of an exit() made through syscall() |
| `Lockstep.ExitReplays` | simplescalar-a1/eio.c:648-677 | behind the same calls a replay exits where the run does if and only if exit() is called by its own number; called through syscall() it is not recognised, and the replay dies for want of a transaction |
| `Lockstep.DeathReplays` | simplescalar-a1/eio.c:648-677 | where the run dies of a fault, or of a system call that reads behind a write, the replay dies, too |
| `Lockstep.CallReplays` | simplescalar-a1/eio.c:636-811 | the transaction of a call, replayed from the registers of the call on memory with the same contents, gives its break, traced registers and memory contents |
| `Lockstep.MismatchIsFatal` | simplescalar-a1/eio.c:687-707 | a call that finds another program counter, or another value in a traced register, than its transaction has is not replayed |
| `Lockstep.TransactionOf` | simplescalar-a1/eio.c:529-558 | a transaction of 64-bit values can be printed, and has an empty blob only if its call made an empty access |
| `Lockstep.WhichCall` | simplescalar-a1/sim-eio.c:391-395 | every call of a run is made by one of its instructions |
| `Lockstep.TraceIs` | simplescalar-a1/eio.c:571-628 | all transactions of a run can be printed, with counts below the one that stands for none, and no empty blob unless a call made an empty access |
| `Divergence.LossIsFatal` | simplescalar-a1/eio.c:687-707 | there are a program, a run of it and a trace of that run that can be read, of which the replay from the same state dies: something is lost at a call in the middle, and the next call finds another register than its transaction |
| `Divergence.AnyTraceDies` | simplescalar-a1/eio.c:687-707 | so does the replay of any trace of that run: sigreturn() loses the floating-point control register, the next instruction moves it into V0, and the next call finds V0 different |
| `Divergence.TheTrace` | simplescalar-a1/eio.c:571-628 | there is a trace of that run, with no empty blob |
| `Divergence.FirstStep` | simplescalar-a1/target-alpha/syscall.c:926-949 | behind that call the control register is 1 on the host and 0 in the replay, and all else is the same |
| `Divergence.SigreturnIsLawful` | simplescalar-a1/target-alpha/syscall.c:2557-2569 | the accesses of sigreturn() succeed, and it leaves words of 64 bits |
| `Replay.RecordThenReplay` | simplescalar-a1/sim-eio.c:486-601 | a simulation of any number of instructions of any program, recorded behind an initial checkpoint, and a second simulation on that text by a new machine, which computes every register, store and call itself: if what sys_syscall leaves are the right registers at every call, it ends in the same state, registers, counters, break and the byte at every address, if and only if no transaction has an empty blob, and else dies; none has one unless a call made an empty access; it exits or dies where the first did, but dies of an exit() called through syscall() |
| `Replay.RecordCall` | simplescalar-a1/eio.c:571-628 | a system call, performed and printed as its transaction |
| `Replay.RecordTrap` | simplescalar-a1/sim-eio.c:391-395 | exit() ends the run without a transaction, and so does a call that reads behind a write, in an error exit; every other call is answered by the host and recorded |
| `Replay.RecordNext` | simplescalar-a1/sim-eio.c:498-601 | one turn of the loop while a trace is written is one step of the run |
| `Replay.Record` | simplescalar-a1/sim-eio.c:498-601 | the loop while a trace is written: the state after any number of instructions, exit(), or an error exit, and the transactions of exactly the calls made, in order |
| `Replay.NextTransaction` | simplescalar-a1/eio.c:655-677 | on the text of a trace each read gives the next transaction, up to the first with an empty blob or the end, where the read fails |
| `Replay.ReadTransaction` | simplescalar-a1/eio.c:655-656 | the next transaction if there is one that can be read |
| `Replay.ReplayCall` | simplescalar-a1/target-alpha/syscall.c:915-949 | a system call through sys_syscall on the text of a trace, with the sigreturn() repair, ends as the answer of the trace does; exit() reads nothing |
| `Replay.ReplayTrap` | simplescalar-a1/sim-eio.c:391-395 | the same for the next call of a simulator |
| `Replay.ReplayNext` | simplescalar-a1/sim-eio.c:498-601 | one turn of the loop while a trace is consumed is one step of the replay |
| `Replay.ReplayAll` | simplescalar-a1/sim-eio.c:498-601 | the loop while a trace is consumed: the state after any number of instructions, exit(), or an error exit, exactly as the run on the transactions that can be read |
| `Replay.WriteTraceFile` | simplescalar-a1/sim-eio.c:486-601 | the text is the initial checkpoint and the transactions of the run |
| `Replay.LoadTrace` | simplescalar-a1/target-alpha/loader.c:175-180 | a new machine with the registers, globals and memory contents of the initial checkpoint, the reader behind it; refused unless its count is -1 |
| `Replay.Boot` | simplescalar-a1/sim-eio.c:496 | a simulator at the beginning of a trace file |
| `Replay.ReadTraceFile` | simplescalar-a1/target-alpha/loader.c:163-215 | loading such a text and running the program on it ends as the run on its transactions from the state of the checkpoint; refused unless the count of the checkpoint is -1 |
| `Resume.CheckpointThenResume` | simplescalar-a1/target-alpha/loader.c:175-206 | for every program and every trace file: a simulation that writes a checkpoint in front of any instruction is not disturbed by it, and a new machine that loads the trace file and the checkpoint ends as the first does if a system call had been made by then, and otherwise cannot start |
| `Resume.ResumeFromCheckpoint` | simplescalar-a1/target-alpha/loader.c:175-206 | a machine that loads a trace file, and on top of it a checkpoint with the registers, counters, break and memory of a state that a replay has come to, goes on as that replay does if and only if it had made a call and the initial count is -1 |
| `Resume.LoadBoth` | simplescalar-a1/target-alpha/loader.c:175-206 | registers, counters and memory contents are those of the later checkpoint and the reader stands where the checkpointed machine had it, under exactly that condition |
| `Resume.MakeCheckpoint` | simplescalar-a1/sim-eio.c:506-543 | the checkpoint in front of an instruction holds the machine's state and leaves the machine in the same one |
| `Resume.RunTo` | simplescalar-a1/sim-eio.c:498-601 | any number of instructions from the beginning of a trace file |
| `Resume.RunCounts` | simplescalar-a1/eio.c:683-685 | a replay takes the transactions in order, with counts that go up to that of the last call |
| `Resume.ForwardInTrace` | simplescalar-a1/eio.c:814-840 | fast forward to the count of a checkpoint stops where the checkpointed replay stood, if and only if that had made a call |
| `Resume.ForwardTo` | simplescalar-a1/eio.c:814-840 | it stops behind the first transaction with the count it looks for |
| `Resume.NeverForward` | simplescalar-a1/eio.c:814-840 | it fails when no transaction has that count, as for a checkpoint made before the first call, whose count is -1 |
| `Resume.FastForward` | simplescalar-a1/eio.c:814-840 | the loop finds the specified place, or fails |
| `Resume.LoadCheckpoint` | simplescalar-a1/target-alpha/loader.c:183-200 | a checkpoint on top of a loaded machine gives the checkpoint's registers and memory contents |
| `EventQueue.InsertKeepsOrder` | simplescalar-a1/eventq.c:91-94 | a new event keeps the queue sorted by time, newest first at equal times, and every other event stays |
| `EventQueue.RemovalKeepsOrder` | simplescalar-a1/eventq.c:192-203 | so does taking one out |
| `EventQueue.DueIsAllDue` | simplescalar-a1/eventq.c:257 | the events serviced are exactly those whose time has come |
| `EventQueue.DueSplits` | simplescalar-a1/eventq.c:255-269 | servicing at t1 and then t2 takes the same events in the same order as servicing at t2 |
| `EventQueue.ServiceTwice` | simplescalar-a1/eventq.c:161-269 | and has the same effect if and only if the times are equal or no event due at t1 is a callback |
| `EventQueue.RunIs` | simplescalar-a1/eventq.c:161-179 | only callbacks see the time |
| `EventQueue.ActionIs` | simplescalar-a1/eventq.c:161-179 | each action by the one bit, cell or call that it changes; addition wraps at 32 bits |
| `EventQueue.BitIs` | simplescalar-a1/eventq.c:164-169 | behind any events a bit is set if and only if one of them sets it and none after that clears it, or it was set and none clears it |
| `EventQueue.CellAdds` | simplescalar-a1/eventq.c:173-175 | a cell that no event overwrites is the 32-bit sum of what it was and what the events add |
| `EventQueue.CellIs` | simplescalar-a1/eventq.c:170-175 | an overwritten one is that of the last value written and what is added after it |
| `EventQueue.Queue.constructor` | simplescalar-a1/eventq.c:66-73 | an empty queue |
| `EventQueue.Queue.Enqueue` | simplescalar-a1/eventq.c:76-105 | the event is inserted at its place, its descriptor comes from the free list or is fresh, and no descriptor is lost or shared |
| `EventQueue.Queue.Grab` | simplescalar-a1/eventq.c:79-86 | the first free descriptor, or a fresh one, in neither list afterwards |
| `EventQueue.Queue.Locate` | simplescalar-a1/eventq.c:90-93 | the place behind all strictly earlier events |
| `EventQueue.Queue.Splice` | simplescalar-a1/eventq.c:94-105 | the pointer assignments of an insertion give the list with the descriptor at its place |
| `EventQueue.Queue.Unlink` | simplescalar-a1/eventq.c:194-203 | the list without that descriptor, which is then in neither list |
| `EventQueue.Queue.Remove` | simplescalar-a1/eventq.c:223-252 | removed exactly when there is an event of that id, which then never acts; descriptors are conserved |
| `EventQueue.Queue.Execute` | simplescalar-a1/eventq.c:186-219 | the same, after the event acted at time 0 |
| `EventQueue.Queue.Service` | simplescalar-a1/eventq.c:255-269 | exactly the due events act, in order, and the later ones stay; a bit is set if and only if a due event sets it and no later due one clears it, or it was set and none clears it; lists stay sorted, separate and complete |
| `Eval.EvaluationIsTheGrammar` | simplescalar-a1/eval.c:938-1067 | for every string, the evaluation succeeds with a value and stops at a position exactly when the text up to there is a sentence of the right-recursive grammar with that value which nothing goes on with; the grammar says where one character that starts no token is passed over |
| `Eval.EvaluationFailsAsTheGrammar` | simplescalar-a1/eval.c:938-1067 | it fails with an error exactly when there is a sentence with that error, or a derivation that is stuck and makes it |
| `Eval.SyntaxErrors` | simplescalar-a1/eval.c:938-991 | the errors for an unmatched parenthesis and a missing term are reported exactly where a derivation is stuck at an unclosed parenthesis, or at a missing factor, and everything to the left of the place has a value |
| `Eval.ExprParses` | simplescalar-a1/eval.c:1037-1067 | every string begins with a sentence or a stuck derivation |
| `Eval.ExprComplete` | simplescalar-a1/eval.c:1037-1067 | every sentence gets its value or its error |
| `Eval.ExprSound` | simplescalar-a1/eval.c:1037-1067 | only sentences get a value |
| `Eval.MinusGroupsRight` | simplescalar-a1/eval.c:1056-1061 | t - u - w is t - (u - w), for all terms and any arithmetic |
| `Eval.QuotientGroupsRight` | simplescalar-a1/eval.c:1016-1027 | f / g / h is f / (g / h), for all factors, or a division by zero exactly when h or g / h is zero |
| `Eval.JunkBeforeSum` | simplescalar-a1/eval.c:211-223 | an invalid character between a factor and a plus or minus sign is ignored |
| `Eval.JunkBeforeProduct` | simplescalar-a1/eval.c:211-223 | in front of a multiplication or division sign it ends the expression |
| `Eval.JunkAtEnd` | simplescalar-a1/eval.c:1108-1121 | two invalid characters at the end of a string count as part of the expression |
| `Eval.Next` | simplescalar-a1/eval.c:121-205 | a token that is not the end is non-empty and inside the text |
| `Eval.Spelling` | simplescalar-a1/eval.c:107-112 | operators and parentheses have one spelling |
| `Eval.TokenIs` | simplescalar-a1/eval.c:90-201 | by ranges of characters: behind blanks and tabs, a letter, underscore or dollar sign begins an identifier, as long as these, digits and dots go on; a digit or dot begins a literal, as long as digits, dots, e, x, signs behind e and, behind an x, hexadecimal digits go on; every other character is a token of its own |
| `Eval.SomeEnd` | simplescalar-a1/eval.c:158-189 | every identifier and literal does end somewhere |
| `Eval.WholeIs` | simplescalar-a1/eval.c:938-1067 | a string that is one identifier or literal is evaluated as that, to its end |
| `Eval.SumIs` | simplescalar-a1/eval.c:1048-1067 | x + y and x - y, for all names: which operation on which values, and which of all errors |
| `Eval.ProductIs` | simplescalar-a1/eval.c:1008-1013 | x * y, in the same way |
| `Eval.QuotientIs` | simplescalar-a1/eval.c:1015-1027 | x / y, in the same way, with its different order of errors |
| `Eval.PrefixIs` | simplescalar-a1/eval.c:938-991 | -x, (x), and an unclosed (x |
| `Eval.ProductBindsOnTheRight` | simplescalar-a1/eval.c:996-1067 | x + y * z is x + (y * z) |
| `Eval.ProductBindsOnTheLeft` | simplescalar-a1/eval.c:996-1067 | x * y + z is (x * y) + z |
| `Eval.Evaluator.GetNextToken` | simplescalar-a1/eval.c:121-205 | the peeked token, or the next one of the text, with its spelling in the token buffer |
| `Eval.Evaluator.PeekNextToken` | simplescalar-a1/eval.c:211-223 | the next token without consuming it; an invalid one leaves the buffer empty and is consumed |
| `Eval.Evaluator.EvalFactor` | simplescalar-a1/eval.c:938-991 | value, error and position as the descent on the text gives them, whatever the peek buffer held |
| `Eval.Evaluator.EvalParen` | simplescalar-a1/eval.c:947-959 | the same behind an opening parenthesis, with the error of an unmatched one |
| `Eval.Evaluator.EvalTermLevel` | simplescalar-a1/eval.c:996-1032 | the same for terms |
| `Eval.Evaluator.EvalProduct` | simplescalar-a1/eval.c:1008-1013 | the right operand and the product, with the order in which an inner error and a symbol win |
| `Eval.Evaluator.EvalQuotient` | simplescalar-a1/eval.c:1015-1027 | the right operand and the quotient, with the order in which an inner error, a zero divisor and a symbol win |
| `Eval.Evaluator.EvalExprLevel` | simplescalar-a1/eval.c:1037-1067 | the same for expressions |
| `Eval.Evaluator.EvalExpr` | simplescalar-a1/eval.c:1096-1124 | value or error of any string, and on success the first character behind the last token used; a string of a letter, underscore or dollar sign and letters, digits and dots is the identifier of that name as a whole, and a literal string that literal, ending at its length |

## Left out

- TagePredictor.Predictor.constructor: takes the history lengths as parameters, because they come from
  floating-point `pow`, and the path history, which the source never initialises, with any value.
- TagePredictor.Predictor.UpdatePredictor: prediction sizes, `TrackOtherInst` and the opcode arguments,
  which the code ignores, have no counterpart.
- FoldedHistories.FoldedHistory.Setup: compressed lengths of 32 and more shift a 32-bit word by its width
  or more, which C leaves undefined; length 0 divides by zero.
- Bt9Reader.Reader.constructor: parsing the trace file, its graph tables and stream errors; the entries of
  the edge sequence are given.
- CbpSimulation.Simulate: the decoding of branch classes is a given kind of each branch; heartbeat and
  printing are gone. Windows of size 1 never move, so the size is at least 2.
- IrDetector.Detector.ProcessNewInstr: does not keep the statistics counters nor the map of removed
  instructions; the class flags of the opcode, and what the registers and words written were and are,
  come with the instruction; windows have at least one slot. Default entries that `operator[]` inserts
  into the hash maps are not kept, since a missing entry reads as the default one.
- IrDefects.FloatCheckSeesNoChange: a floating-point value is a number or not; that zero has two
  representations does not matter to a comparison of a register with itself.
- Memory.Mem.Access: the size -2^31, whose predecessor C leaves undefined, and host buffers that overlap
  simulated pages.
- Memory.Mem.StrCpyOut: a simulated string without a terminator inside the host buffer, which the source
  copies past its end. The accessors of half words and words are left out: their byte swaps depend on
  the host.
- Numbers.FormatUnsigned: field widths, precision, flags, octal and the floating-point conversions of the
  formatter; a C string is a sequence that reads as a terminator behind its end.
- Numbers.Atoq: `errno` is part of the result; characters above 127 are neither digits nor blanks.
- Crc.Generator.Update: the table and its flag belong to an object instead of being global.
- Exo.ReadUndoesPrint: floats, characters and strings (the printer does not escape quotes), operator tokens,
  comments and the array without a size; terms are trees of values, so the sharing of nodes and the
  deep copy are not modelled. Tokens of the reader have no 1023-character limit.
- Exo.ReadUndoesPrintExactly: the flag that an empty blob leaves unset has one value for all the empty
  blobs of a term.
- Exo.Lex: a hand-written equivalent of the generated lexer for the tokens the printer emits; what other
  rules would match is reported as such and not read. Line numbers are gone.
- Eio.Tracer.WriteTrace: the system calls themselves; a call is the sequence of its accesses, and its effect
  on registers and break. Recording while replaying another trace and the program output that a replay
  echoes are not modelled. Sizes do not wrap at 32 bits.
- Eio.ReplayUndoesRecording: nothing is claimed when an access faults, since the recorded bytes are then
  whatever the host buffer held.
- Sigreturn.SysSyscall: hosts of the byte order of the target; the signal mask has no counterpart.
- Checkpoint.CheckpointRoundTrip: the comments between the terms of the text, and the file header in front
  of them with its version and byte order.
- SimEio.Simulator.Execute: the instruction set is a parameter, which says for every instruction where it
  loads its data from and what it makes of registers and data; bytes of an instruction are read one by
  one, as memory shows them. The debugger, reference counts and the predecoded text of the fast
  simulator are gone, and the instruction count does not wrap.
- Replay.RecordThenReplay: recorded runs in which an access of a system call fails, or sigreturn() does
  something else than to load the signal context; skipping instructions before the trace begins.
- Resume.CheckpointThenResume: the ranges and periods that say in front of which instruction a checkpoint is
  written, and its file.
- EventQueue.Queue.Enqueue: the `max_events` limit (the code never counts events), the wrap-around of
  identifiers, and callbacks that enqueue further events. Bits are named by bitmap and number instead
  of word and mask.
- Eval.Evaluator.EvalExpr: characters above 127, which index the token map out of bounds, and tokens beyond
  511 characters; the arithmetic on numbers, `result_type` and the conversions of literals are
  parameters.
- Option processing, DLite commands, statistics printing, program loading, and the loops of the simulators
  other than sim-eio.
