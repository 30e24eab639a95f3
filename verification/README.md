# Verified models of the platform-independent software analysis

A Dafny 4.11 model of the run-time library and the instrumentation pass of a workload characterisation
tool: reuse distances, instrument-and-replay, instruction-level parallelism, MPI matching, branch
histories, shared addresses and the relay of statistics. `dafny verify dfyconfig.toml` checks it.

`Basics` holds what several components need.

**Reuse distances.** `SplayShapes` is the top-down splay as a function on tree shapes: what it keeps
(in-order sequence, nodes, search order) and where it leaves the sought key. `SplayTree` is the code
itself, on heap nodes with parent pointers and subtree sizes, proved to compute that function;
`SplayOperations` are insertion, deletion, update and the distance query as operations on the key set.
`ReuseSpec` defines the reuse distance of a trace by a scan and the histogram over it, `MemoryLines` says
which addresses and instructions share a line and what distances mean for addresses, `LruCache` defines
an LRU cache by its steps and proves that the histogram's running sums are its hit counts, `Reuse` holds
the two analyses, and `PowersOfTwo` the rounding in 64-bit words.

**Instrument and replay.** `Program` is a module of functions, blocks and instructions, `Instrument` the
pass that puts hooks into it, `Replay` the state machine that the hooks drive. `ReplayRuns` runs the
instrumented program on a call-stack machine beside the replay, and proves that both agree; `ServeRun`
lets the replay serve the hook calls of such a run. `FinalDump` proves that every run that ends has dumped
its statistics exactly once, at its end.

**Instruction-level parallelism.** `IssueWindow` is the scheduling window in closed form, `IlpSchedule`
what an instruction waits for and what a run amounts to, `Ilp` the scheduler that keeps tables and
lists. `IlpRuns` compares the out-of-order with the in-order schedule; `DataFlow` defines without any
cycles what every instruction of a trace waits for, in the tables, in the window and in its turn, and
proves both schedules to be exactly the least cycles that respect it, for every window and all options.
`Origins` follows the program itself, every activation with its own values, the phis of a block at once and
from the block that control came from, back to the instruction that made a value; it proves that an
instruction waits for what made its operands as long as the tables have kept them. `OriginConditions`
says exactly when the tables keep a value, `OriginFailures` shows runs in which they lose it.

**MPI matching.** `MpiStore` is the pair of lists under one lock. `MpiMatching` interleaves ranks one lock
section at a time and proves every channel to be a queue. `Rendezvous` are the blocking point-to-point
calls. `CollectiveRounds` proves what holds of any calls in which every rank first puts its entries and
then looks for as many, back to back; `Collectives` are the broadcast, the reduction, the scattering and
the exchange of all with all.

**Branch histories.** `BranchHistory` counts the histories of one length and relates lengths,
`PatternTable` scores them and keeps the most frequent ones, `BranchPrediction` walks one length with
the table of the next, and `BranchWindows` is the whole analysis over all lengths. `BranchBets` plays the
bets of a table of limited size one outcome after the other and proves the limited rates to be the most
it can win; `BranchRates` says what the five rates mean.

**Merging.** `SharedKeys` intersects the threads' addresses through two buffers, `JsonRelay` relays the
calls of the JSON writer from other processes to the master.

Where the source updates objects or arrays of nodes in place the model is a class or a heap method; each
such method is proved against a function, and the results of the model are lemmas about that function.
Ghost parameters such as the shape of a tree are for the proof only. Cycles, counters and stamps are
unbounded naturals unless a 64-bit width matters, in which case it is written out (`WORD_RANGE`).

Findings, where the code does less than one might expect:

- `UpperPowerOfTwo` gives 0 above 2^63; `RoundUpExact` says exactly when it is right.
- Linear bins below the final bin and power-of-two bins above it need not be in order;
  `BinsOrderedIff` says exactly when they are, `BinsOutOfOrder` is an example.
- The merged intersection is right whatever the addresses are exactly when the threads' parities
  alternate (`RightIffAlternates`); without gaps between the threads they do (`PrefixAlternates`).
- The tables of the scheduler have one entry for every value of the program text, and follow phis and
  arguments one after the other. The dependence graph of `DataFlow` is that of the tables; it makes an
  instruction wait for what really made its operands (`OriginConditions.OperandsKeepTheirOrder`) if no
  function is entered while it is active, no phi chooses one visited before it in its block that has
  taken another value, and every block that leads to a phi has scheduled something. Each condition is
  exact for what it is about: a value survives whatever a callee does exactly if its function is not
  entered again (`KeptAcrossIff`), the phis of a block get their own operands exactly if none of these
  is a phi that has changed before (`PhisKeepOwnIff`), the block before is known exactly if control is
  scheduled or something else of it is (`PreviousBlockIff`), and a call passes its own arguments exactly
  if none is a parameter that has been given another value (`BindsOwnIff`, `PassesOwnIff`).
  `PhiSwapBreaksTheOrder`, `RecursionBreaksTheOrder`, `LoneBranchBreaksTheOrder` and
  `SwapBreaksTheOrder` are runs in which an instruction overtakes the one that made its operand.
- Collective calls with a root are no barriers: `WaitsIffJoined` says exactly which ranks wait for which.

## Model

| member | source | states |
|---|---|---|
| `SplayShapes.SplayKeeps` | library/splay.cc:112-245 | a splay keeps the in-order sequence of nodes and keys, the set of nodes, and that no node occurs twice |
| `SplayShapes.BstIffIncreasing` | library/splay.cc:112-245 | the search-tree order is exactly that the in-order sequence of keys increases, so keeping the sequence keeps the order |
| `SplayShapes.SplaySplits` | library/splay.cc:112-245 | a splay keeps order and key set; at the root, smaller keys are left and larger keys right of the sought key, which is the root if it is present |
| `SplayShapes.SplayRootNearest` | library/splay.cc:112-245 | if the key is missing, the new root is its predecessor or its successor |
| `SplayTree.RightRotate` | library/splay.cc:49-77 | the rotated heap tree has the rotated shape, with right sizes and parent pointers, and every node outside is untouched |
| `SplayTree.LeftRotate` | library/splay.cc:80-109 | the mirror image |
| `SplayTree.FixSizes` | library/splay.cc:149-156 | the walk up the parent pointers to the header makes every size on the side tree right |
| `SplayTree.TurnLeft` | library/splay.cc:125-156 | one turn of the loop for a smaller key: rotation, link to the right side tree and sizes realise one step of the splay on shapes |
| `SplayTree.TurnRight` | library/splay.cc:157-190 | one turn of the loop for a larger key |
| `SplayTree.Reassemble` | library/splay.cc:192-245 | hanging the remaining subtrees into the side trees and the side trees under the root gives the assembled tree, all sizes and parent pointers right |
| `SplayTree.Splay` | library/splay.cc:112-245 | on a sound heap tree of distinct nodes the code ends with exactly the splayed shape: keys, order, every subtree size and parent pointer; it terminates |
| `SplayOperations.Find` | library/splay.cc:464-466 | searching keeps the key set, and the root holds the key exactly if it is present |
| `SplayOperations.RightOfSplay` | library/splay.cc:453-462 | with the key at the root, its right subtree holds exactly the larger keys, and its size is their number |
| `SplayOperations.ComputeDistance` | library/splay.cc:453-462 | the distance is the number of larger keys in the tree, 0 for a missing key; the tree stays a search tree of the same keys |
| `SplayOperations.TreeSize` | library/splay.cc:354-359 | the number of nodes, which for a search tree is the number of keys |
| `SplayOperations.AboveKeeps` | library/splay.cc:258-294 | a missing key put above a splayed root keeps the search order and adds exactly this key and node |
| `SplayOperations.InsertNode` | library/splay.cc:412-450 | the second half of insertion and update: the key set gains exactly the key, a node for a present key is dropped |
| `SplayOperations.Insert` | library/splay.cc:248-303 | S + {k}: a search tree of the old keys and the new one, which is at the root; only its nodes and the new node are used |
| `SplayOperations.SplayMax` | library/splay.cc:319-323 | splaying for a key above all others leaves a root without right child, so the join loses nothing |
| `SplayOperations.RestKeeps` | library/splay.cc:316-335 | the tree without its root keeps the order and has exactly the other keys and nodes |
| `SplayOperations.Delete` | library/splay.cc:306-339 | S - {k}: exactly the key is removed, and no node is added |
| `SplayOperations.Update` | library/splay.cc:362-451 | (S - {old}) + {new}, in one tree; the removed node is reused if there is one |
| `PowersOfTwo.UpperPowerOfTwo` | library/utils.cc:131-146 | the shifts and ors on 64-bit words compute the rounding, including 0 for 0 and wrap-around above 2^63 |
| `PowersOfTwo.LeastPow2IsLeast` | library/utils.cc:131-146 | the rounding is to the least power of two that is not below the value |
| `PowersOfTwo.RoundUpExact` | library/utils.cc:131-146 | the code rounds correctly exactly for values up to 2^63; above, it gives 0 |
| `ReuseSpec.StampsAboveAreDistance` | library/DataTempReuse.cc:173-189 | the number of latest stamps above a line's own is the number of distinct other lines accessed since its previous access |
| `ReuseSpec.LastStampsInjective` | library/DataTempReuse.cc:162-171 | the latest stamps of different lines are different, so the tree holds one key per line |
| `ReuseSpec.PrefixSumCounts` | library/DataTempReuse.cc:214-227 | a running sum of the histogram counts exactly the reuses whose bin is not beyond it |
| `ReuseSpec.HistogramTotal` | library/DataTempReuse.cc:214-227 | the histogram total plus the number of distinct lines is the number of accesses |
| `LruCache.CacheIsRecent` | library/DataTempReuse.cc:158-212 | an LRU cache of c lines, defined by its steps, holds the first c lines of the recency order |
| `LruCache.HitIffNear` | library/DataTempReuse.cc:158-212 | an access hits a cache of c lines exactly if it is a reuse at a distance below c |
| `LruCache.HitsAreNearReuses` | library/DataTempReuse.cc:158-212 | the hits of an LRU cache over a trace are the reuses at distances below its size |
| `LruCache.PowerBinsAreLruHits` | library/DataTempReuse.cc:214-217 | without resolution the running sum up to bin 2^k is the number of hits of an LRU cache of 2^k + 1 lines |
| `LruCache.ZeroBinIsOneLine` | library/DataTempReuse.cc:214-217 | without resolution bin 0 holds the hits of a cache of one line |
| `LruCache.LinearBinsAreLruHits` | library/DataTempReuse.cc:214-217 | with a resolution the running sum up to a multiple b of it within the final bin is the number of hits of a cache of b lines |
| `LruCache.PowerBinsBeyondLinear` | library/DataTempReuse.cc:214-217 | beyond the linear bins the power-of-two bins are hit counts again |
| `LruCache.BinsOrderedIff` | library/DataTempReuse.cc:214-217 | larger distances never land in smaller bins, if and only if the last linear bin is at most the first power-of-two bin |
| `LruCache.BinsOutOfOrder` | library/DataTempReuse.cc:214-217 | resolution 100 and final bin 25 put distance 20 behind distance 26 |
| `LruCache.LinearBin` | library/DataTempReuse.cc:214-217 | up to the final bin a distance goes to the least multiple of the resolution strictly above it |
| `MemoryLines.LineIsBlock` | library/DataTempReuse.cc:144-147 | two addresses share a line if and only if one aligned block of the line size holds both |
| `MemoryLines.DistanceIsOfBlocks` | library/DataTempReuse.cc:173-189 | the distance of a line is the number of different aligned blocks touched since the last touch of the block that holds the address |
| `MemoryLines.ReusesAreOfBlocks` | library/DataTempReuse.cc:135-228 | so the reuses below a distance are counted over the addresses and their aligned blocks |
| `MemoryLines.KeyIsQuotient` | library/InstTempReuse.cc:81-88 | with lines, the key of an instruction is the block, of as many instructions as fit into a line, that its index lies in; otherwise its identity |
| `Reuse.DataTempReuse.Visit` | library/DataTempReuse.cc:135-228 | after every load or store in line mode the addresses visited have grown by this one, the map is that of the latest stamps of their lines, the tree holds exactly its values, and the histogram is that of the scanned distances of the whole trace |
| `Reuse.InstTempReuse.Visit` | library/InstTempReuse.cc:75-120 | the same for instructions, one key per instruction, or per aligned block of the instructions that fit into a line |
| `Reuse.MoveLeast` | library/DataTempReuse.cc:173-210 | a known line: the distance found is the number of larger stamps, and its stamp is replaced |
| `Reuse.MoveFound` | library/InstTempReuse.cc:99-107 | the same in the instruction analysis; the branch that would keep the old stamp is never taken |
| `Reuse.KeysAboveAreDistance` | library/DataTempReuse.cc:173-189 | the distance the tree gives is the scanned distance of the trace |
| `Reuse.Tally` | library/DataTempReuse.cc:214-227 | one more reuse is counted in the bin of its distance |
| `Reuse.DataDumpIsLruHits` | library/DataTempReuse.cc:40-132 | what is dumped at bin 2^k are hits of an LRU cache of 2^k + 1 lines, and the accesses that come back to an aligned block behind at most 2^k others; all sums and the number of blocks make up the accesses |
| `Reuse.InstDumpIsLruHits` | library/InstTempReuse.cc:38-73 | the same for the instruction analysis |
| `Instrument.HookedErases` | passCoupled/lib/Analysis/Analysis.cpp:1036-1115 | without its hooks an instrumented block is the block |
| `Instrument.InstrumentBlock` | passCoupled/lib/Analysis/Analysis.cpp:1027-1115 | the walk that inserts as it goes gives the hooked block, with original indices, and skips the calls already at the top of main |
| `Instrument.HookOne` | passCoupled/lib/Analysis/Analysis.cpp:1064-1114 | one instruction: the notification in front if none has been inserted, the address report behind a load or store, the dump before a return of main |
| `Instrument.ModuleErases` | passCoupled/lib/Analysis/Analysis.cpp:1014-1115 | the pass only inserts: without its hooks every block is what it was, the entry block of main behind the calls at its top |
| `Instrument.ModuleDumps` | passCoupled/lib/Analysis/Analysis.cpp:1110-1114 | the item in front of every return in every block of main is the dump, and there is no other dump in the module |
| `Instrument.RunOnModule` | passCoupled/lib/Analysis/Analysis.cpp:1014-1117 | every block of every function is hooked with its own function and block index; declarations count but have no blocks |
| `Replay.Replayer.InIncludedFunctions` | library/libanalysisCoupled.cc:306-337 | true exactly if there is no include list or some function on the stack, the current one included, is in it |
| `Replay.Replayer.InExcludedFunctions` | library/libanalysisCoupled.cc:343-379 | true exactly if some function on the stack, the current one included, is excluded |
| `Replay.Replayer.Process` | library/libanalysisCoupled.cc:424-429 | an instruction is handed to the analyses exactly if the filter accepts it under the saved states |
| `Replay.Replayer.WalkBlock` | library/libanalysisCoupled.cc:385-457 | the loop passes over what the walk prescribes up to a load, a store, an internal call or the end of the block |
| `Replay.Replayer.IterInstructions` | library/libanalysisCoupled.cc:385-479 | the resumable walk: what is passed over and which states are saved afterwards; the recursion terminates because it has one saved state fewer |
| `Replay.Replayer.InstNotification` | library/libanalysisCoupled.cc:483-489 | a block notification walks from the start of the block |
| `Replay.Replayer.UpdateVars` | library/libanalysisCoupled.cc:941-988 | an address report passes over the load or store and walks on |
| `ReplayRuns.StepEntering` | passCoupled/lib/Analysis/Analysis.cpp:1064-1080 | until a block has notified, only calls in front and phis have run, and the notification catches up with the phis |
| `ReplayRuns.StepAhead` | library/libanalysisCoupled.cc:388-479 | from then on the replay is exactly one walk ahead of execution, through branches, calls and returns |
| `ReplayRuns.StepReporting` | library/libanalysisCoupled.cc:969-985 | at a load or store it waits for the address, and goes on |
| `ReplayRuns.StepInStep` | library/libanalysisCoupled.cc:385-489 | every step of the instrumented program keeps program and replay in step |
| `ReplayRuns.RunInStep` | library/libanalysisCoupled.cc:385-489 | so they are in step after any number of steps, for every choice of branches |
| `ReplayRuns.ReplayIsIdentity` | library/libanalysisCoupled.cc:385-489 | once the program has finished, the replayed instructions are the executed ones that are not llvm calls, in order, once each, under their real call stacks |
| `ReplayRuns.ReturnsAnswerTheirCalls` | library/libanalysisCoupled.cc:432-477 | what is replayed under saved states has been called from just before the last of them, so a return that resumes there answers exactly the call in front of that point |
| `ReplayRuns.DumpSeesAll` | passCoupled/lib/Analysis/Analysis.cpp:1108-1114 | whenever the dump hook is about to run, main is about to return, no call is open, and the replay has passed over all executed instructions but llvm calls, and this return |
| `FinalDump.DumpsExactlyOnce` | passCoupled/lib/Analysis/Analysis.cpp:1110-1114 | whatever branches are taken, a program that is done has executed the dump exactly once, directly before the return that ended it; a running one has not, unless that return comes next |
| `ReplayRuns.ServeRun` | library/libanalysisCoupled.cc:385-489 | the library serving the hook calls of a finished run has handed to the analyses exactly the executed instructions but llvm calls that lie under an included and no excluded function of the real call stack, in order |
| `ReplayRuns.ReplayNeverDiverges` | library/libanalysisCoupled.cc:385-489 | at every moment of every run one of the two streams is a prefix of the other |
| `ReplayRuns.SavedStatesAreTheStack` | library/libanalysisCoupled.cc:432-478 | whenever a hook is about to run, the saved states are the return points on the real call stack |
| `IssueWindow.Release` | library/ILP.cc:134-147 | the release loop ends with fewer entries than the window holds, at the least cycle for which that is so, with exactly the entries of later cycles left |
| `IssueWindow.WindowCycleIsRank` | library/ILP.cc:133-148 | the window stands at 0 until as many instructions as it holds have issued, then one past the w-th largest issue cycle so far |
| `IssueWindow.WindowCycleIsRoomFrom` | library/ILP.cc:133-148 | said with the issue cycles sorted from the largest to the smallest |
| `IssueWindow.WindowCycleMonotone` | library/ILP.cc:66-71 | later issue cycles move the window later |
| `IlpSchedule.NeedsAre` | library/ILP.cc:450-689 | an instruction waits for exactly its operands, a load also for the stores to its address but not for loads, a store for both, always one cycle except in the cycle of a phi operand |
| `IlpSchedule.ChosenIs` | library/ILP.cc:404-417 | a phi takes the first incoming value from the block before, and none if there is none |
| `IlpSchedule.BindsOwnIff` | library/ILP.cc:450-482 | every parameter takes over its own argument's cycle, whatever the tables hold, if and only if no argument is a parameter of the same function that an earlier argument has changed |
| `IlpSchedule.PassesOwnIff` | library/ILP.cc:450-482 | the first n arguments are looked up with their own cycles, whatever the tables hold, if and only if none of them is such a parameter |
| `IlpSchedule.SwapIsLost` | library/ILP.cc:450-482 | a call that swaps two parameters gives both the cycle of the second |
| `Ilp.Scheduler.VisitPhi` | library/ILP.cc:393-418 | the loop over the incoming values leaves the tables of the specification: the entry of the phi follows that of the value from the block before |
| `DataFlow.VisitedPhi` | library/ILP.cc:393-418 | behind a visited phi its entry is that of the chosen value for a constant, label, phi or call result; for a result or parameter it is one cycle more, in order not before the largest in-order cycle; all other entries are kept |
| `Ilp.Scheduler.CallCycle` | library/ILP.cc:419-490 | a call is ready when its arguments are; its parameters take over their cycles |
| `Ilp.Scheduler.OtherCycle` | library/ILP.cc:492-530 | an instruction is ready one cycle after its operands, in the cycle of a phi |
| `Ilp.Scheduler.LoadCycle` | library/ILP.cc:532-606 | a load is ready after its pointer and the stores to its address, and is recorded there |
| `Ilp.Scheduler.StoreCycle` | library/ILP.cc:608-689 | a store is ready after its operands and the loads and stores of its address, and is recorded there and as the last use of its pointer |
| `Ilp.Scheduler.Visit` | library/ILP.cc:57-148 | a visit is one step of the specification run: both cycles, both tables, the maxima, the serialisation of control and both windows |
| `Ilp.Scheduler.UpdateForCall` | library/ILP.cc:694-716 | the call gets the later of its own and the return's cycle, in each schedule |
| `Ilp.Scheduler.Spans` | library/ILP.cc:195-251 | the dumped spans are one more than the largest cycles; unserialised, the out-of-order one is not longer |
| `IlpRuns.OutOfOrderIsNeverLater` | library/ILP.cc:57-148 | with control not serialised, for every trace and window, no out-of-order cycle of an instruction, operand or address is later than the in-order one |
| `IlpRuns.SpanIsNeverLonger` | library/ILP.cc:100-103 | so the out-of-order span is at most the in-order span |
| `IlpRuns.InOrderNeverDecreases` | library/ILP.cc:79-81 | in-order cycles never decrease in program order |
| `IlpRuns.WhatIsScheduled` | library/ILP.cc:83-98 | loads, stores and all but calls and terminators are always scheduled, those unless control is ignored, phis never |
| `IlpRuns.ControlIssuesInTurns` | library/ILP.cc:90-95 | with control serialised, control instructions issue at strictly increasing out-of-order cycles |
| `DataFlow.RunFollows` | library/ILP.cc:386-716 | in both schedules, for every window and all options, every table entry is exactly the latest of what the graph, which follows the tables symbolically, says it goes back to |
| `DataFlow.SchedulesSolveTheGraph` | library/ILP.cc:57-148 | in both schedules, for every window and all options, every instruction issues exactly at the latest of what it waits for: the dependences of the tables, room in the window, in order the instruction before it, serialised the control instruction before it |
| `DataFlow.SchedulesAreLeast` | library/ILP.cc:57-148 | so no cycles that respect the dependences, the window and the turns are earlier for any instruction, in either schedule |
| `DataFlow.WindowIsExact` | library/ILP.cc:66-148 | without a window, or with control not ignored, an instruction issues at the latest of its dependences and turns and of 0 or, behind at least w others, one more than the w-th largest of their cycles |
| `DataFlow.SpanIsLongestChain` | library/ILP.cc:100-103 | without a window, in either schedule, each cycle is the length of the longest chain of dependences and turns to its instruction, and the span is one more than the longest chain |
| `DataFlow.OperandsAfter` | library/ILP.cc:450-716 | besides its own entry a visit changes only the parameters of the function called, which take over those of the arguments, and the pointer stored through, which has the cycle of the store |
| `DataFlow.ReturnedCall` | library/ILP.cc:694-716 | a return gives the call the larger of the two cycles in each schedule and changes nothing else |
| `DataFlow.AddressesGoBack` | library/ILP.cc:532-689 | an address goes back to exactly the earlier stores to it and, apart from these, to exactly the earlier loads from it |
| `Origins.OriginsCovered` | library/ILP.cc:386-716 | whatever cycles meet these dependences, the tables put every value they have kept, of any activation, behind the instruction that made it, by one cycle more for every phi of a result or parameter and every return it has passed |
| `Origins.KeptOperandsKeepTheirOrder` | library/ILP.cc:386-716 | in both schedules of every run, whatever the window and the options, an instruction issues behind the one that made its operand, by what the value has passed and its own wait, if the tables have kept it |
| `OriginConditions.RunsStayWhole` | library/ILP.cc:386-716 | if no function is entered while it is active, every block before a phi is known, and no phi chooses one that has changed, the tables keep all values of all activations, each of its own function |
| `OriginConditions.OperandsKeepTheirOrder` | library/ILP.cc:386-716 | so in both schedules of every such run every instruction issues behind the instructions that made its operands |
| `OriginConditions.PhisKeepOwnIff` | library/ILP.cc:404-417 | every phi of a block gets the cycle its own operand had before the block, whatever the tables hold, if and only if no operand is a phi visited before that has taken another value |
| `OriginConditions.PreviousBlockIff` | library/ILP.cc:81-130 | the phis behind the instructions of a block see that it was before, whatever was before it, if and only if control is scheduled or some other instruction of it is |
| `OriginConditions.ControlIsSeen` | library/ILP.cc:81-130 | behind any scheduled terminator the phis of the next block know it |
| `OriginConditions.KeptAcrossIff` | library/ILP.cc:338-371 | a value keeps its cycle whatever some functions do, in any number of steps and from any state, if and only if its own function is not one of them |
| `OriginFailures.UserIsLater` | library/ILP.cc:492-530 | an instruction that uses another is later than it, so the late and early values of the failures are there in any run |
| `OriginFailures.PhiSwapMistakes` | library/ILP.cc:404-417 | two phis that take each other's values: the second gets back its own cycle |
| `OriginFailures.PhiSwapBreaksTheOrder` | library/ILP.cc:404-417 | in a loop whose phis begin with a late and an early value and swap, what uses the second overtakes the late value |
| `OriginFailures.RecursionMistakes` | library/ILP.cc:475-482 | behind a call of itself with a constant, the parameter of a function is what it was but has the cycle of the constant |
| `OriginFailures.RecursionBreaksTheOrder` | library/ILP.cc:475-482 | so what uses the parameter behind that call overtakes the value it was called with |
| `OriginFailures.LoneBranchMistakes` | library/ILP.cc:81-130 | with control ignored, a phi behind a block that only branches takes the cycle of the value for the block before that |
| `OriginFailures.LoneBranchBreaksTheOrder` | library/ILP.cc:81-130 | so what uses the phi overtakes a late value |
| `OriginFailures.SwapBreaksTheOrder` | library/ILP.cc:450-482 | behind a call of a function by itself with its two parameters swapped, what uses the second overtakes the late value that was the first |
| `DataFlow.ConflictsKeepTheirOrder` | library/ILP.cc:532-689 | in both schedules a load issues strictly after earlier stores to its address, a store strictly after earlier loads and stores |
| `MpiStore.Database.ItemsAreEqual` | library/MPImap.cc:450-471 | entries match up to wildcards for source and tag; a query from any source learns the source |
| `MpiStore.Database.RecvMsgFromDb` | library/MPImap.cc:473-510 | the first matching entry is taken and answers the query; without one the lists stay and the query says so |
| `MpiStore.Database.SendMsgToAllComm` | library/MPImap.cc:623-640 | one entry for every other rank, in order of ranks |
| `MpiStore.MatchesIff` | library/MPImap.cc:450-471 | two records match if and only if receiver and communicator agree and some message fits both, wildcards fitting every source or tag |
| `MpiMatching.TakesOldest` | library/MPImap.cc:473-510 | without wildcards a query finds the oldest entry of its channel, if there is one, and leaves all other channels alone |
| `MpiMatching.ChannelsAreQueues` | library/MPImap.cc:435-510 | in every interleaving the entries on a channel are exactly the posted ones not yet taken, oldest first |
| `MpiMatching.TakeSucceeds` | library/MPImap.cc:530-580 | a query goes through exactly if more has been posted than taken, and the k-th answer is the k-th post |
| `Rendezvous.OneOpenCall` | library/MPImap.cc:582-616 | at every point of a program at most one call is open on a side of a channel, and none at its end |
| `Rendezvous.SendsMeetReceives` | library/MPImap.cc:582-598 | posted sends and receives differ by at most one; a send has returned only if its receive is posted, and the other way round |
| `Rendezvous.NeverStuck` | library/MPImap.cc:530-598 | when both ends wait for each other one finds its entry, and both do if they are at the same call |
| `Rendezvous.IdleLeavesNothing` | library/MPImap.cc:435-510 | a channel without open calls has no entry in either list |
| `Rendezvous.FinishedLeavesNothing` | library/MPImap.cc:435-510 | when all ranks have finished both lists are empty |
| `Collectives.PeersEntries` | library/MPImap.cc:623-640 | the entries of a loop over the communicator and the one behind it are those `SendMsgToAllComm` puts and the record it leaves |
| `Collectives.CallIsPart` | library/MPImap.cc:661-787 | in a broadcast, reduction, scattering or exchange every rank first puts exactly one entry on each of its channels and then looks for exactly one on each |
| `CollectiveRounds.EntersFirst` | library/MPImap.cc:435-598 | in any such calls back to back and any interleaving, whoever has left a call with an entry from a rank has found that rank inside the call |
| `Collectives.WaitsForJoined` | library/MPImap.cc:661-787 | no rank returns from a call before those it shares a channel with have begun it: all in an exchange, the root otherwise, and for the root all |
| `Collectives.WaitsIffJoined` | library/MPImap.cc:661-787 | and past any other rank it can return first: a rank waits for another in every interleaving if and only if they are joined |
| `Collectives.ExchangeIsABarrier` | library/MPImap.cc:719-742 | no rank returns from an exchange before every rank has begun it, whatever calls come before and behind |
| `Collectives.PendingQueriesSucceed` | library/MPImap.cc:642-659 | once all puts of a call are done every pending query of it goes through |
| `Collectives.SomeRankGoesOn` | library/MPImap.cc:661-787 | for any sequence of collective calls, as long as a rank has not finished, some rank can go on |
| `Collectives.EveryEntryIsTaken` | library/MPImap.cc:661-787 | when all ranks have returned from their last call, every entry put has been taken |
| `BranchHistory.CountPatterns` | branch-analysis/branchBehavior.cc:226-263 | the rolling key is the binary value of every window, so the table holds exactly the keys that occur, with how often; their number is n - w + 1 |
| `BranchHistory.RollKey` | branch-analysis/branchBehavior.cc:236-255 | masking, shifting and adding in 64 bits turns the key of one window into that of the next |
| `BranchHistory.KeyInjective` | branch-analysis/branchBehavior.cc:248-260 | different histories of one length have different keys |
| `BranchHistory.CountIsOccurrences` | branch-analysis/branchBehavior.cc:226-263 | the count of a key is the number of positions at which the history itself stands |
| `BranchHistory.OccurrencesAddUp` | branch-analysis/branchBehavior.cc:226-263 | all counts add up to the number of windows |
| `BranchHistory.OccurrencesSplit` | branch-analysis/branchBehavior.cc:338-352 | a history occurs as often as its two extensions, plus one only if it is the last window |
| `BranchHistory.OccurrencesGrowLeft` | branch-analysis/branchBehavior.cc:226-263 | a history occurs as often as with either outcome in front, plus one only if it is the first window |
| `BranchHistory.GrowingLosesAtMostOne` | branch-analysis/branchBehavior.cc:338-352 | growing the history by one loses at most one correct bet, for every sequence of outcomes |
| `BranchPrediction.WalkHistories` | branch-analysis/branchBehavior.cc:336-367 | one loop: all successor counts of the histories in the order of their keys go into the rates, the counters and the table of limited size |
| `BranchPrediction.WholeWalk` | branch-analysis/branchBehavior.cc:336-343 | with the tables of two consecutive sizes the walk meets exactly the histories of the outcomes, each with how often either outcome follows it |
| `BranchPrediction.HistoriesAddUp` | branch-analysis/branchBehavior.cc:336-367 | the hits of all histories are all correct bets, the total is the number of longer windows, and at most one history, that of the last window, is followed by nothing |
| `BranchPrediction.BasicCountsAll` | branch-analysis/branchBehavior.cc:135-142 | the basic rate has these hits and this total |
| `BranchWindows.ComputePredictionRate` | branch-analysis/branchBehavior.cc:208-400 | over all window sizes, with two maps that take turns: everything reported for a history size follows from the outcomes alone |
| `BranchBets.BasicIsBetting` | branch-analysis/branchBehavior.cc:135-142 | the hits of the basic rate are the most bets that can be won with one constant bet for every history |
| `BranchBets.PointsByEntry` | branch-analysis/branchBehavior.cc:112-128 | bets played in the order of the outcomes win by how often each entry is right, its first win counting half, whatever the order |
| `BranchBets.LimitedIsBetting` | branch-analysis/branchBehavior.cc:369-388 | a limited rate, which lies between 0 and 1, is the largest share of bets that a table of so many of the most frequent histories and one common entry can win, each entry always betting on one outcome and its first win counting half |
| `BranchBets.FullTableRate` | branch-analysis/branchBehavior.cc:369-388 | with room for all histories it is what the basic rate gets right, less one half for every history with a successor |
| `BranchRates.RatesMean` | branch-analysis/branchBehavior.cc:130-160 | each of the five rates reported, from the outcomes: all right bets; one half or nothing for histories behind which nothing came twice; one half or nothing for the first bet behind each history, instead of its chance; -1 without bets |
| `BranchRates.FirstDiscardedIsMean` | branch-analysis/branchBehavior.cc:152-153 | the hits with the first occurrence discarded are the mean over which of the occurrences came first |
| `BranchWindows.NeverTooMany` | branch-analysis/branchBehavior.cc:265-275 | there are never more patterns than histories of that size, so that error is never reported |
| `BranchWindows.InfoMeans` | branch-analysis/branchBehavior.cc:389-397 | the basic rate reported is the share of correct bets among all, and at most one history has no successor |
| `BranchWindows.LimitedIsBest` | branch-analysis/branchBehavior.cc:369-388 | every limited rate reported belongs to one of the sizes given, no choice of that many histories covers more than its fraction, and the fraction never grows as the table shrinks |
| `PatternTable.PredictionRateComputer.RegisterPattern` | branch-analysis/branchBehavior.cc:135-155 | each of the five rates is that of all patterns registered so far |
| `PatternTable.RatesBounded` | branch-analysis/branchBehavior.cc:135-155 | all rates lie between 0 and 1, the basic one not below one half; scoring first occurrences one half is worth half a hit per pattern over leaving them out |
| `PatternTable.PatternQueue.Push` | branch-analysis/branchBehavior.cc:354-359 | the table holds the patterns seen most, and what has fallen out is added up |
| `PatternTable.PatternQueue.LimitedRates` | branch-analysis/branchBehavior.cc:369-388 | at every size the kept patterns are the most frequent ones, the rate is their score plus that of one common entry over the total, the fraction stored one minus the share of what was given up |
| `PatternTable.FractionIsCovered` | branch-analysis/branchBehavior.cc:382-386 | the fraction stored is the share of occurrences that the kept patterns cover |
| `BranchWindows.StoredIsRest` | branch-analysis/branchBehavior.cc:382-386 | the fraction stored is one minus the share of what has been given up |
| `PatternTable.FractionIsBest` | branch-analysis/branchBehavior.cc:354-386 | no other choice of as many patterns covers more |
| `PatternTable.FractionNeverGrows` | branch-analysis/branchBehavior.cc:375-386 | the fraction never grows as the table shrinks |
| `SharedKeys.ComputeShared` | library/DataTempReuse.cc:235-295 | the loop over the threads with its two buffers, including a merge that would write past its target |
| `SharedKeys.CommonKeys` | library/utils.cc:178-209 | the successive intersections contain exactly the keys of all initialised threads, in order |
| `SharedKeys.BuffersTakeTurns` | library/DataTempReuse.cc:251-261 | while the parities alternate the buffer read next holds the intersection so far, and no merge writes past its target |
| `SharedKeys.PrefixAlternates` | library/DataTempReuse.cc:251-261 | without gaps between the initialised threads the parities alternate |
| `SharedKeys.RightIffAlternates` | library/DataTempReuse.cc:251-261 | the reported number is that of the common keys for all possible keys, if and only if the parities alternate |
| `JsonRelay.Slave.Dump` | library/JSONmanager.cc:76-105 | a process sends the number of its threads, then the calls of each with an end mark |
| `JsonRelay.Master.Handle` | library/JSONmanager.cc:134-184 | one command with its data is turned back into the call it came from, every receive being for the type that was sent; an unknown command changes nothing |
| `JsonRelay.Master.DumpFrom` | library/JSONmanager.cc:116-196 | what a process sent is turned into exactly the calls it would have made locally, and nothing of it is left |
| `JsonRelay.Master.DumpAll` | library/libanalysisCoupled.cc:220-239 | the master writes what each process would have written locally, in the order of ranks, and every message has been received |
| `JsonRelay.Collect` | library/libanalysisCoupled.cc:220-239 | with every other process dumping and the master collecting, what is written is what all processes would have written locally, in the order of ranks |
| `JsonRelay.CStringOfTerminated` | library/JSONmanager.cc:279-296 | a string read up to its terminator is the string sent |

## Left out

- LLVM, OpenMP, pthreads, MPI calls, sockets, files and rapidjson: instructions, addresses, ranks, messages and writer calls are datatypes; a section under a lock is one step.
- `Reuse.DataTempReuse.Visit`: not without a cache line size, where a found distance 0 counts as unset and old stamps can stay in the tree; nor the memory footprint.
- `Reuse.MoveLeast`: one candidate per access, as in line mode, not the least over the bytes of an access.
- `Instrument.InstrumentBlock` and the block walk as a whole: no `landingpad` blocks and no hooks for MPI calls.
- `Instrument.HookOne`: no hooks for MPI calls.
- `Replay.Replayer.WalkBlock`: does not stop behind MPI calls.
- `Replay.Replayer.IterInstructions`: does not call the scheduler behind a return; `ReplayRuns.ReturnsAnswerTheirCalls` says which call it would name, and `Ilp.Scheduler.UpdateForCall` is that call's effect.
- `Replay.Replayer.UpdateVars`: does not record the address, which the trace of an analysis has.
- `Ilp.Scheduler.Visit`: without the spans per type of instruction.
- `Ilp.Scheduler.Spans`: without the spans and means per type of instruction.
- Stamps 0: the header of the splay has key 0, and real stamps start at 1. Stamps of a trace increase strictly.
- `LruCache.PowerBinsAreLruHits` and its companions: for traces whose stamps are at most 2^63, beyond which the rounding gives 0.
- Freeing nodes (`delete`, `free`): a removed node is outside the tree; memory itself is not modelled.
- The rates printed from the histograms.
- MPI hooks, indirect calls, callbacks from libraries, `landingpad` blocks and calls of `main` in the replay model; `Program.WellFormed` says that internal calls go to defined functions other than `main`.
- Threads in the replay model: each thread has its own states, so one thread is modelled.
- Calls through a pointer that the scheduler cannot resolve but that enter a function of the program: `Origins` does not follow them.
- The scheduler's instruction numbering for traces; `updateILPIssueCycle`, whose body is commented out.
- Cycles beyond the width of `list<int>` in the window lists.
- The comparison of the two schedules with serialised control, which raises only the out-of-order cycle.
- `DataFlow.WindowIsExact`: with a window and control ignored, an ignored instruction hands on the window of its own time (`Room` with a delay); `DataFlow.SchedulesSolveTheGraph` is exact there too.
- Wildcards in the interleaved runs: entries may then pair differently on the two sides. The store itself handles them.
- `Isend`, `Irecv` and `Test`; collective calls in several communicators at once, and among point-to-point calls with tag 0.
- The spin loop around a query: a query that finds nothing is a step that changes nothing.
- Entropies and all logarithms of the branch analysis, progress output, and history sizes above 63. More outcomes than the history size are assumed, as in the source.
- `PatternTable.PatternQueue.LimitedRates`: quotients are exact (`Ratio`), and `1 - a / b` is kept as `(b - a) / b`.
- `SharedKeys.ComputeShared`: the library's `set_intersection` is the function `Merge`; writing past a buffer ends the model with no result.
- Strings of more than 128 bytes with their terminator, for which the receiver has no room.
- Plain counters: instruction mix, external library calls, register counts, OpenMP and MPI statistics.
- `library/server.cc`, `passDecoupled`, `library/mpi_sync_server.c`, `library/safe_queue.cc`, `library/BranchEntropy.cc`.
