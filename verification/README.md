# MeMu verification model

A Dafny model of three parts of this repository and machine-checked proofs about them.

**The SIMT engine.** The reference cycle model (`sw/sim/hm/difftest.cpp`, the twin of `hw/verilog/vsrc/Riscv/Core.sv` and
`hw/verilog/vsrc/KMU.sv`) and the scalar simulator (`sw/sim/sm/iss.cpp`). The headline results: every fault-free run of the
device is some schedule of scalar thread steps on the same memory (`DeviceRuns.RunSimulated`); when `busy` falls that schedule
is complete (`DeviceRuns.BusyFallsComplete`); in a race-free program every complete schedule ends in the same memory
(`Interleaving.ScheduleIndependence`); hence, if block b ran on core b modulo the number of cores, as the scalar simulator
assumes, both leave identical memories (`EndToEnd.SimulatorsAgree`) and the simulator even has to finish
(`EndToEnd.SimulatorMustAgree`).

That assumption about the placement matters, because every kernel reads its physical thread number: the startup code
(`sw/kernel/src/start.S`) derives the stack pointer from it. It is discharged in two ways. A grid of at most one block a core,
launched from rest, is placed as assumed exactly when the dispatcher's pointer stands at the first core
(`DispatchOrder.SmallGridHomes`), so for these launches the agreement needs no assumption (`DispatchOrder.SmallGridsAgree`).
And under any placement the memories agree if what is derived from the physical number reaches no address, no stored value,
no branch and no indirect jump (`Placement.PlacementIrrelevant`, `Placement.PlacementMustAgree`). For a kernel made of the
startup code, a call and a leaf function this follows from a table over its text that says which registers may be derived from
that number before each instruction (`StartupCode.LeafKernelKeepsPlace`). Not covered are kernels that use their stack and run
under another placement: there the final comparison of the whole memory may differ in the stacks.

What the two machines share is pinned down on its own. Every step of a thread is what the RV32E manual says of the instruction
in memory, in integers and bits (`InstructionMeaning.StepMeans`), and that leaves nothing open
(`InstructionMeaning.MeansDetermines`). Divergence is last in, first out (`Reconvergence.TakenLanesResume`), a core faults exactly
for the three reasons there are (`CoreFaults.FaultsIff`), and what a host writes to the registers is the launch that is carried
out (`RegisterPort.ProgrammedDispatches`).

**The runtime device.** The first-fit allocator of `sw/runtime/gpu/gpu.c` in wrapping 32-bit arithmetic, and the launch/wait
protocol with its scratch allocation and the reference run it does on the memory of the host.

**The Kconfig engine.** The expression rewriter over three-valued logic (`tools/kconfig/expr.c`), the coloured search for
recursive dependencies and the memoised evaluator it makes well defined (`symbol.c`), the in-place restructuring of the menu
tree (`menu.c`) and the walk over it (`confdata.c`), and the printer, parser and string escapes. What a symbol is worth is said
apart from how it is computed (`KconfigLaws.ValueDecided`), and so is where an entry ends up in the menu
(`KconfigSubmenus.GroupedByOwner`, `KconfigSubmenus.TreeFlattened`).

Arithmetic follows The RISC-V Instruction Set Manual, Volume I (20191213), sections 2.2 to 2.8 and chapter 4.

## How it is organised

Words and bytes are bounded integers with explicit wrap-around; masks are sets of lanes; memory is a sequence of bytes. Cores,
warps, threads and memory size are parameters. Where the source updates state in place there is a class or an array method
whose contract equates its new state with a specification function, and the theorems are about those functions.

| files | content |
|---|---|
| `Word`, `Arith`, `Memory`, `Isa` | machine words, byte memory and the two kinds of access, RV32E decoding |
| `Instructions`, `InstructionMeaning` | the instructions, their encoding, and what each does, independently of the decoding |
| `Interleaving`, `Scalar`, `Iss`, `SimulatorOrder` | threads under any schedule, one scalar thread, the scalar simulator, whose turn it is |
| `RoundRobin`, `Kmu`, `SimtCore`, `MemoryPhase` | selectors, dispatcher, core, memory port |
| `Divergence`, `DivergenceLimit`, `Reconvergence`, `CoreFaults`, `WarpFairness` | divergence stack, a run that overflows it, its order, when a core faults, which warp is issued when |
| `CycleModel`, `DeviceModel`, `Lockstep` | the cycle model as mutable objects, and the lockstep checks |
| `LaneSteps`, `CoreRefinement`, `StoreOrder`, `Device`, `DeviceRefinement`, `DeviceRuns`, `EndToEnd` | from one lane to whole runs to equal memories |
| `RegisterPort` | the launch registers, from the host's writes to the dispatched blocks |
| `DeviceFailure` | when the failure flag rises |
| `DispatchOrder`, `Placement`, `StartupCode`, `SmallestLaunch` | where blocks run, kernels that do not show it, startup code and leaf kernels, two launches in a row |
| `Runtime`, `RuntimeTraces`, `RuntimeDevice`, `StuckReference` | allocator, protocol, the device object, a launch that times out |
| `KconfigExpr`, `KconfigTransform`, `KconfigLeaves`, `KconfigEquality`, `KconfigDups`, `KconfigDependencies`, `KconfigPrint`, `KconfigStrings` | expressions and their rewriting, text forms |
| `KconfigCheck`, `KconfigValues`, `KconfigLaws`, `KconfigEvaluator` | dependency check, values and their laws, the memoising evaluator |
| `KconfigMenu`, `KconfigSubmenus`, `KconfigDependents`, `KconfigLinks`, `KconfigRelink` | menu trees, where entries end up, linked records, the relinking |

The assumptions the device theorems make about a program are the predicate `DeviceRefinement.CoreClean`: it fetches from its
code bytes, stores into none of them, uses legal encodings and keeps accesses inside one word. `Isa.ShiftsAgreeIff`,
`Memory.LoadsAgreeIff` and `Memory.StoresAgreeIff` show that the encoding and alignment conditions are exactly where the two
machines agree. A job (`DeviceRefinement.Job`) names the code bytes, so a kernel may write its globals, and records for each
block the core it ran on, because a thread can read its physical number. `SmallestLaunch.Completes` exhibits a launch that meets
the hypotheses of the device theorems. The Kconfig theorems about expressions hold for valuations in which no two constants of
those expressions (`n`, `m` and `y` among them) denote the same value; `KconfigExpr.EveryAssignmentIsLegal`: every assignment of
values to the logical symbols is that of such a valuation.

## Findings

- `gpu_iss_launch` multiplies the dimensions in 64 bits, which can itself wrap: a grid of 2^64 + 2^31 blocks passes its test
  (`Iss.WrappedLaunch`). A launch is accepted wrongly exactly when it is accepted and has 2^64 threads or more
  (`Iss.WronglyAcceptedIff`, with the test itself in `Iss.AcceptedModIff`); what the runtime lets through never is.
- The dispatcher's core pointer is not reset by a launch, while the scalar simulator always starts counting at the first core:
  a second launch of the same small grid is placed as the simulator assumes exactly when the first gave every core a block
  (`DispatchOrder.SecondLaunchHomes`, by `DispatchOrder.CompletesAtRest`, `DispatchOrder.LaunchPulse` and
  `DispatchOrder.PointerAfter`). With one block on two cores it is not (`SmallestLaunch.TwoLaunches`).
- A launch whose reference run does not finish in time is refused, but memory stays as that run left it, because it works on the
  device memory itself and only a run that is done is undone. The host's bytes are kept exactly when the failure is not that
  timeout or the run left them alone (`RuntimeTraces.LaunchOutcome`); a kernel that stores into an allocation and then loops
  changes them, 100000000 instructions after a freshly opened device was asked to launch it (`StuckReference.TimeoutReachable`).
- The rotate-and-encode warp selector agrees with the scan exactly for powers of two (`RoundRobin.SelectorsAgreeIff`).
- A host that frees the scratch address of a running launch can lose a later allocation (`RuntimeTraces.ImpoliteFreeLosesAllocation`).
- `expr_join_and` joins `FOO=c && FOO!=d` to `FOO=c` for any two different constants; that is right for every value of FOO exactly when
  no value is denoted by both (`KconfigDups.JoinTestsExact`). With the constant `2`, which like `y` denotes y,
  `FOO=y && FOO!=2` is joined wrongly (`KconfigDups.NumericConstantsDisagree`).
- `expr_trans_bool` and `expr_trans_compare` lose meaning under negations (`KconfigTransform.TransBoolNeedsNormalForm`,
  `KconfigTransform.TestNoMissesM`). On a negated test, and on a negated operand, they are right exactly when it is not m
  (`KconfigTransform.TransBoolUnderNot`, `KconfigTransform.TestNoOfNegation`); what `expr_trans_compare` computes for every
  expression is its value with m read as on (`KconfigTransform.TestNoTwoValued`). The conditions for whole expressions
  (`KconfigTransform.TransBoolMeaning`, `KconfigTransform.TestNoMeaning`) are sufficient ones.
- Setting a symbol to the value it already has is accepted without a range check and may not last
  (`KconfigEvaluator.UnchangedValueCanMove`); it lasts exactly when the symbol is invisible, the value is within the visible
  limit, or a reverse dependency gives it (`KconfigValues.UnchangedReadsBackIff`). Conversely the one new value that would last
  and is refused is the one that visible limit and reverse dependency both are (`KconfigValues.SettingLastsIff`).
- The loop that unescapes a string value runs past the end of the text exactly when that ends in a lone backslash
  (`KconfigStrings.UnescapeInPlace`).
- A string value survives writing and reading a configuration exactly when it contains no newline (`KconfigStrings.ReadBackIff`).

## Model

| member | source | states |
|---|---|---|
| `Memory.PaddrRead` | sw/runtime/device/memory.c:25-31 | the little-endian value of the addressed bytes |
| `Memory.PaddrWrite` | sw/runtime/device/memory.c:33-37 | memory becomes the old one with exactly the addressed bytes replaced by the digits of the value |
| `Memory.AccessibleIsSpan` | sw/runtime/device/memory.c:16-27 | the wrapping test of both ends admits exactly the accesses of up to a word that lie in PMEM byte for byte |
| `Memory.LoadsAgree` | sw/sim/hm/difftest.cpp:98-114 | a legal load inside one word of memory: the shifted word load yields the byte-granular load |
| `Memory.StoresAgree` | sw/sim/hm/difftest.cpp:72-83 | a legal store inside one word: the masked transaction leaves the memory of the byte-granular store and raises no failure |
| `Memory.LoadsAgreeIff` | sw/sim/sm/iss.cpp:26-42 | the two loads agree on every memory if and only if the access stays inside one word |
| `Memory.StoresAgreeIff` | sw/sim/sm/iss.cpp:44-64 | the two stores agree on every memory and value if and only if the access stays inside one word |
| `Isa.ShiftsAgreeIff` | sw/sim/hm/difftest.cpp:303-306 | bit 30 against the whole funct7 field: both machines shift alike for every operand if and only if the encoding is legal or the amount is zero |
| `Isa.ShiftDecodersAgree` | sw/sim/sm/iss.cpp:127-130 | on legal encodings both decoders pick the same shift |
| `Instructions.ReadEncode` | sw/sim/sm/iss.cpp:71-90 | every RV32E instruction, encoded as the manual lays out its fields, is read back with its operands: registers, signed offsets, shift amounts, names of identity registers |
| `InstructionMeaning.RegisterResult` | sw/sim/sm/iss.cpp:137-172 | each register function yields its integer result: sums and differences modulo 2^32, signed and unsigned comparisons, single bits, shifts as products and quotients |
| `InstructionMeaning.ImmediateResult` | sw/sim/sm/iss.cpp:103-136 | and so does each immediate one |
| `InstructionMeaning.StepMeans` | sw/sim/sm/iss.cpp:71-304 | a step of a thread, in full: the word at its pc takes effect as the instruction it is means, in registers, pc and bytes of memory; it faults exactly when the thread has halted or there is no instruction, and aborts exactly when a fetch or access leaves memory |
| `InstructionMeaning.EncodedStepMeans` | sw/sim/sm/iss.cpp:71-304 | in particular for each instruction as encoded |
| `InstructionMeaning.LaneMeans` | sw/sim/hm/difftest.cpp:265-413 | and for what a lane of a core computes, on encodings both decoders agree on |
| `InstructionMeaning.MeansDetermines` | sw/sim/sm/iss.cpp:71-304 | the meaning allows one thread and one memory after each instruction |
| `Interleaving.ScheduleIndependence` | sw/sim/sm/iss.cpp:381-402 | in a race-free program any two complete fault-free schedules give every thread the same number of steps and end in the same threads and memory |
| `Interleaving.NoScheduleFaults` | sw/sim/sm/iss.cpp:381-402 | once one schedule of a race-free program completes, a thread that has not halted can always take its next step under any other |
| `Interleaving.LengthDecides` | sw/sim/sm/iss.cpp:381-402 | no schedule is longer than a complete one, and a schedule is complete if and only if it has that length |
| `Interleaving.RaceFreeIffObserved` | sw/runtime/gpu/gpu.c:497-519 | a program is race-free if and only if one complete run of it shows no race |
| `Interleaving.HaltsOnce` | sw/sim/sm/iss.cpp:229-233 | a thread stops at most once, and exactly once when it ends stopped |
| `Interleaving.RunMirrors` | sw/sim/sm/iss.cpp:381-393 | under every schedule of a race-free program each thread is where it would be running alone |
| `Scalar.MachineIsLocal` | sw/sim/sm/iss.cpp:71-304 | an instruction depends on memory only through the bytes it touches and changes only those it writes |
| `Scalar.OnlyBreakHalts` | sw/sim/sm/iss.cpp:229-233 | a step stops its thread if and only if the fetched word is `ebreak` |
| `RoundRobin.FirstFound` | sw/sim/hm/difftest.cpp:158-166 | the scan loop finds a flag if and only if one is set, and returns the first from the pointer on |
| `RoundRobin.ScanFirst` | hw/verilog/vsrc/Riscv/Core.sv:202-212 | the selected entry is set and no entry at a smaller offset is |
| `RoundRobin.PowerOfTwoSelectorsAgree` | hw/chisel/src/main/scala/Riscv/Core.scala:96-98 | for every power-of-two warp count and nonempty active set, rotate plus priority encoder selects what the scan selects |
| `RoundRobin.SelectorsAgreeIff` | hw/chisel/src/main/scala/Riscv/Core.scala:96-98 | the two agree on all inputs if and only if the index register counts exactly to the number of warps |
| `RoundRobin.ReverseScan` | hw/spinal/src/main/scala/Riscv/Core.scala:101-108 | the reverse scan in which the last assignment wins selects what the forward scan selects |
| `RoundRobin.SelectedWithinN` | sw/sim/hm/difftest.cpp:115-118 | the selection rule on its own: an entry whose flag stays set is selected within n selections, for any list of flags |
| `WarpFairness.IssuedWithinWarps` | sw/sim/hm/difftest.cpp:155-175 | in any stretch of a core's run in which a warp is valid at every selection, on any memory contents: as many selections as there are warps issue it at least once |
| `WarpFairness.PointerKept` | sw/sim/hm/difftest.cpp:115-118 | from a selection to the next one the place the scan will start from is the successor of the issued warp, whichever cycle moves the pointer |
| `WarpFairness.FirstWarpFirst` | sw/sim/hm/difftest.cpp:120-147 | a core that takes a CTA forgets an earlier fault and first issues its first warp, all its lanes, at the start of the kernel |
| `CoreFaults.FaultsIff` | sw/sim/hm/difftest.cpp:187-420 | a cycle raises the fault if and only if the word in execution is no instruction, active lanes disagree on an indirect jump, or a splitting branch finds the stack full; the core then stops |
| `Reconvergence.TakenLanesResume` | sw/sim/hm/difftest.cpp:199-264 | a branch splits a warp; at the first `ebreak` of the warp with the stack back at its height after the split, through any nested branches, every fall-through lane has retired and the warp resumes at the branch target with exactly the taken lanes and the stack from before |
| `Divergence.StepPartition` | sw/sim/hm/difftest.cpp:199-264 | every cycle keeps, for every warp, the split of its initial lanes into active, deferred and retired lanes; what retires had not retired before |
| `Divergence.RunPartition` | hw/verilog/vsrc/Riscv/Core.sv:231-256 | from the acceptance of a CTA on, under any memory contents, that split holds after every number of cycles |
| `Divergence.NoLaneRetiresTwice` | sw/sim/hm/difftest.cpp:199-208 | the lanes an `ebreak` retires have not retired before |
| `Divergence.StackBound` | sw/sim/hm/difftest.cpp:244-254 | the number of deferred paths plus one never exceeds the lanes a warp started with |
| `Divergence.OverflowNeedsTenLanes` | sw/sim/hm/difftest.cpp:245-247 | the overflow fault of the eight-entry stack needs a warp that started with at least ten lanes |
| `DivergenceLimit.TenLanesOverflow` | sw/sim/hm/difftest.cpp:244-254 | ten are enough: a CTA of ten lanes accepted on a loop in which one lane branches away per round overflows the stack in cycle 80, and the next cycle faults |
| `LaneSteps.DecodersAgree` | sw/sim/hm/difftest.cpp:265-413 | on encodings both read alike, a lane computes what the scalar decode switch computes and rejects the same instructions |
| `LaneSteps.BranchStepAgrees` | sw/sim/hm/difftest.cpp:209-264 | taken or not, the next pc of a lane is that of the scalar step |
| `LaneSteps.BreakStepAgrees` | sw/sim/sm/iss.cpp:229-233 | a thread at `ebreak` halts and nothing else changes |
| `LaneSteps.LoadStepAgrees` | sw/sim/hm/difftest.cpp:433-437 | the load response of a lane is the scalar load step |
| `LaneSteps.StoreStepAgrees` | sw/sim/hm/difftest.cpp:601-611 | the store transaction of a lane is the memory effect of the scalar store step |
| `CoreRefinement.QuietRel` | sw/sim/hm/difftest.cpp:155-198 | cycles that schedule, fetch, skip a lane or wait keep the relation between a core and its threads with no scalar step |
| `CoreRefinement.ExecutedIsStep` | sw/sim/hm/difftest.cpp:187-421 | what the core does to an active lane is one scalar step of its thread, on the same memory |
| `CoreRefinement.ExecRel` | sw/sim/hm/difftest.cpp:187-421 | an executed instruction keeps the relation when exactly the active lanes' threads have stepped, through divergence and reconvergence |
| `CoreRefinement.LoadRel` | sw/sim/hm/difftest.cpp:433-446 | a load response keeps the relation when the served lane's thread has stepped |
| `CoreRefinement.StoreIsStep` | sw/sim/hm/difftest.cpp:601-612 | a store request is the scalar store step of the served lane, on whatever memory other stores of the cycle left |
| `CoreRefinement.StoreRel` | sw/sim/hm/difftest.cpp:422-432 | a store request keeps the relation when the served lane's thread has stepped |
| `Kmu.Dispatcher.WriteRegister` | sw/sim/hm/difftest.cpp:615-639 | the whole next register state; which register that is, `RegisterPort.LastWriteHolds` says |
| `RegisterPort.LastWriteHolds` | sw/sim/hm/difftest.cpp:615-639 | after any writes each register, by its name in the runtime, holds what was last written to its address, or what it held; the walk over the grid is untouched |
| `RegisterPort.WritesCommute` | hw/verilog/vsrc/KMU.sv:40-58 | writes to different addresses commute |
| `RegisterPort.RuntimePrograms` | sw/runtime/gpu/gpu.c:108-117 | the ten writes of the runtime program the launch |
| `RegisterPort.ProgramsSimulator` | sw/sim/sm/iss.cpp:316-343 | and leave the same launch in the scalar simulator |
| `RegisterPort.ResetLaunches` | sw/sim/sm/iss.cpp:10-15 | after reset both hold the launch of one thread at the start of the kernel area |
| `RegisterPort.PulseStarts` | sw/sim/hm/difftest.cpp:640-642 | the launch pulse starts the walk at the first block if and only if neither grid nor block is empty |
| `RegisterPort.EmptyLaunchFiresNothing` | hw/verilog/vsrc/KMU.sv:59-61 | an empty launch dispatches nothing, whatever ran before and whichever cores are ready |
| `RegisterPort.ProgrammedDispatches` | sw/sim/hm/difftest.cpp:573-664 | from any device at rest: writes that program a good job, then the launch pulse, start that job, and its j-th dispatch takes the block with index j, and the launch's dimensions, arguments and entry, to a core |
| `Kmu.Dispatcher.Advance` | sw/sim/hm/difftest.cpp:645-657 | the walker registers move as the X, Y, Z walk prescribes |
| `Kmu.Dispatcher.Cycle` | hw/verilog/vsrc/KMU.sv:36-74 | which core gets the block and the whole next register state |
| `Kmu.WalkNext` | hw/verilog/vsrc/KMU.sv:62-72 | one walking step goes to the next linear position, and `running` falls exactly after the last one |
| `Kmu.EveryBlockOnce` | hw/verilog/vsrc/KMU.sv:31-72 | under any readiness, dispatch j carries the block index obtained from j by division; none is skipped or repeated, and the dispatcher runs exactly until all are out |
| `Kmu.ReadyFires` | hw/verilog/vsrc/KMU.sv:14-31 | a running dispatcher fires whenever some core is ready |
| `Kmu.UnlinearPos` | sw/sim/sm/iss.cpp:371-373 | division recovers a block index from its linear position |
| `Kmu.PosUnlinear` | sw/sim/sm/iss.cpp:371-373 | every position below the number of blocks is that of a block inside the grid |
| `Kmu.LinearBlockIsPos` | sw/sim/hm/difftest.cpp:129-129 | the 32-bit linear block number does not wrap on a launchable grid |
| `Kmu.ThreadNumbering` | sw/sim/sm/iss.cpp:359-361 | numbering lanes block by block is a bijection onto the thread numbers below the total |
| `StoreOrder.Sort` | sw/sim/hm/difftest.cpp:659-659 | a sorted rearrangement of the transactions |
| `StoreOrder.SortedUnique` | sw/sim/hm/difftest.cpp:21-33 | there is only one sorted rearrangement, so arrival order cannot matter |
| `Device.PendingOwners` | sw/sim/hm/difftest.cpp:601-612 | the collected transactions are exactly those of the storing cores, one each |
| `DeviceRefinement.SeedIsFresh` | sw/sim/hm/difftest.cpp:120-147 | the identity registers a core sets up for a lane are those of the scalar context of that thread |
| `DeviceRefinement.StopsWhenDone` | sw/sim/hm/difftest.cpp:157-174 | without a fault a core goes idle only when none of its warps is valid |
| `DeviceRuns.StorePhase` | sw/sim/hm/difftest.cpp:659-661 | the stores of a cycle, in sorted order, are scalar store steps one after the other |
| `DeviceRuns.FirePhase` | sw/sim/hm/difftest.cpp:120-147 | a dispatched block matches its freshly seeded threads |
| `DeviceRuns.CycleSimulated` | sw/sim/hm/difftest.cpp:573-664 | a clean cycle of the device is a series of scalar steps that ends in the same memory, followed by at most one dispatch |
| `DeviceRuns.RunSimulated` | sw/sim/hm/difftest.cpp:573-664 | every clean run from a launch is a schedule of the scalar threads: same memory, every lane where its thread is |
| `DeviceRuns.BusyFallsComplete` | sw/sim/hm/difftest.cpp:450-475 | when busy falls after a clean run the schedule is complete: every thread has executed `ebreak` exactly once, no core holds a valid warp, every block was dispatched |
| `DeviceRuns.JobDivides` | sw/runtime/gpu/gpu.c:395-405 | on a good job the CTA setup never divides by zero |
| `DeviceFailure.FetchFailsIff` | sw/sim/hm/difftest.cpp:176-180 | a fetch raises the failure flag if and only if it leaves memory, where the scalar thread aborts |
| `DeviceFailure.LoadFailsIff` | sw/sim/hm/difftest.cpp:433-437 | a load under way raises it if and only if the lane's thread would abort on it; the response by itself only if the result is kept |
| `DeviceFailure.StoreFailsIff` | sw/sim/hm/difftest.cpp:601-612 | a store raises it if and only if the lane's thread would abort on it |
| `DeviceFailure.FailedIff` | sw/sim/hm/difftest.cpp:573-664 | the flag after a cycle is up if and only if it was, or one of these happened in the cycle |
| `Iss.AcceptedIff` | sw/sim/sm/iss.cpp:345-350 | on what the runtime lets through, the 64-bit launch test admits exactly the launches with nonempty dimensions, matching block size and a 32-bit thread count |
| `Iss.AcceptedModIff` | sw/sim/sm/iss.cpp:345-350 | every launch: accepted if and only if the number of threads modulo 2^64 is positive and fits 32 bits and the block size is the block product modulo 2^64 |
| `Iss.WronglyAcceptedIff` | sw/sim/sm/iss.cpp:345-350 | a launch that should be accepted is; an accepted one should not have been if and only if it has 2^64 threads or more |
| `Iss.AcceptedDivides` | sw/sim/sm/iss.cpp:359-374 | setting up the contexts of an accepted launch, wrapped or not, never divides by zero |
| `Iss.WrappedLaunch` | sw/sim/sm/iss.cpp:346-350 | a concrete grid of more than 2^64 blocks passes the test wrongly |
| `Iss.Simulator.Launch` | sw/sim/sm/iss.cpp:345-379 | for every launch, success exactly when accepted, and then one fresh context per thread number, as many as the wrapped product counts |
| `Iss.Simulator.WriteRegister` | sw/sim/sm/iss.cpp:316-343 | the new launch registers; nothing else changes |
| `Iss.Simulator.FindsClash` | sw/sim/sm/iss.cpp:217-226 | true exactly when another running thread of the warp stands at the same jump with another target |
| `Iss.Simulator.LoadMem` | sw/sim/sm/iss.cpp:26-42 | the byte-granular load, sign or zero extended; an illegal width faults, an address outside memory is refused |
| `Iss.Simulator.StepCore` | sw/sim/sm/iss.cpp:71-304 | the whole next simulator state, faults and out-of-memory accesses included |
| `Iss.Simulator.Step` | sw/sim/sm/iss.cpp:381-393 | one instruction of the next running thread in cyclic order, nothing when done |
| `Iss.Simulator.Done` | sw/sim/sm/iss.cpp:395-402 | true exactly on a fault or when all of at least one thread have halted |
| `Iss.SomeoneRuns` | sw/sim/sm/iss.cpp:384-391 | a simulator that is not done always finds a running thread |
| `SimulatorOrder.EveryThreadServed` | sw/sim/sm/iss.cpp:381-393 | among as many instructions as there are threads every running thread has one |
| `SimulatorOrder.ClashIff` | sw/sim/sm/iss.cpp:214-227 | the comparison stops a thread if and only if it stands at an indirect jump at which another running thread of its warp, by thread numbers, stands as well and would jump elsewhere |
| `SimulatorOrder.FaultingThread` | sw/sim/sm/iss.cpp:18-42 | a word that is no instruction halts its thread and changes no memory and no other thread; with a bad access width it still counts as executed, reading zero |
| `SimulatorOrder.FaultEnds` | sw/sim/sm/iss.cpp:395-402 | after a fault, or an access outside memory, no call changes anything |
| `EndToEnd.IndexInRange` | sw/sim/sm/iss.cpp:359-361 | a thread's number is below the total and determines its block, warp and lane |
| `EndToEnd.TidInGrid` | sw/sim/sm/iss.cpp:359-361 | every number below the total belongs to a thread of the grid |
| `EndToEnd.ContextIsSeed` | sw/sim/sm/iss.cpp:359-376 | the context set up for a number is the seed of the thread at that position |
| `EndToEnd.IssIsSchedule` | sw/sim/sm/iss.cpp:381-393 | a fault-free run of n calls is a schedule of the threads, one step per call until done |
| `EndToEnd.SimulatorsAgree` | sw/runtime/gpu/gpu.c:497-519 | for a race-free job whose blocks ran where the scalar simulator assumes, a clean device run to its end and a fault-free scalar run to its end leave the same memory |
| `EndToEnd.IssKeepsGoing` | sw/sim/sm/iss.cpp:217-226 | once the device has completed a race-free job, the scalar simulator can fault only in its comparison across a warp |
| `EndToEnd.SimulatorFollows` | sw/sim/sm/iss.cpp:381-402 | when the threads have a complete schedule and no such clash comes, the scalar simulator completes after exactly as many instructions, in the same memory |
| `EndToEnd.SimulatorMustAgree` | sw/runtime/gpu/gpu.c:497-519 | so when the device completes, the scalar simulator completes after as many instructions as the device's lanes executed, with the same memory |
| `EndToEnd.AcceptedRequestIsJob` | sw/runtime/gpu/gpu.c:395-405 | every launch the runtime lets through is a good job and is accepted by the scalar simulator |
| `Placement.StepAlike` | sw/sim/sm/iss.cpp:278-280 | threads that differ only in registers derived from the physical number take a step that does not show them to such threads again and to the same memory |
| `Placement.RunPlaced` | sw/sim/sm/iss.cpp:364-364 | the same schedule runs under another placement of the blocks, with the same memory throughout |
| `Placement.DispatchCount` | sw/sim/hm/difftest.cpp:640-658 | the dispatcher has handed out exactly the blocks before its walker position, each to an existing core |
| `Placement.PlacementIrrelevant` | sw/runtime/gpu/gpu.c:497-519 | wherever blocks ran: a race-free kernel that derives no address, stored value, branch or jump from its physical number leaves the memory of a fault-free scalar run |
| `Placement.PlacementMustAgree` | sw/runtime/gpu/gpu.c:497-519 | and unless its comparison across a warp stops it, the scalar simulator completes, after as many instructions |
| `DispatchOrder.FiresUnderPointer` | sw/sim/hm/difftest.cpp:591-600 | a running dispatcher fires to the core under its pointer when that core rests |
| `DispatchOrder.FirstBlocks` | sw/sim/hm/difftest.cpp:643-644 | from rest, block b, among the first as many as cores, runs on the core b places from the pointer, however the run goes on |
| `DispatchOrder.SmallGridHomes` | sw/sim/sm/iss.cpp:364-364 | a completed grid of at most one block a core ran where the scalar simulator assumes if and only if the pointer stood at the first core |
| `DispatchOrder.PointerAfter` | sw/sim/hm/difftest.cpp:641-644 | such a grid moves the pointer by its number of blocks: from the first core back to it if and only if every core had a block |
| `DispatchOrder.SmallGridsAgree` | sw/runtime/gpu/gpu.c:497-519 | for a race-free grid of at most one block a core, pointer at the first core, the scalar simulator completes with the memory of the device, with no assumption on the placement |
| `DispatchOrder.LaunchPulse` | sw/sim/hm/difftest.cpp:640-642 | the launch pulse on a device at rest starts the job its registers describe, with every core resting, and leaves the pointer where it stands |
| `DispatchOrder.CompletesAtRest` | sw/sim/hm/difftest.cpp:450-475 | a device that completes a launch is at rest again: nothing running, no fault, every core waiting to schedule |
| `DispatchOrder.SecondLaunchHomes` | sw/sim/hm/difftest.cpp:640-644 | the same small grid launched again on the completed device: it runs where the scalar simulator assumes if and only if the first launch gave every core a block |
| `StartupCode.StartupDerives` | sw/kernel/src/start.S:4-8 | each instruction of the startup code carries what depends on the physical number to t0, t1 and sp only, and shows it nowhere |
| `StartupCode.CallDerives` | sw/kernel/src/start.S:9-9 | nor does the call |
| `StartupCode.LeafKernelKeepsPlace` | sw/kernel/src/start.S:1-10 | startup code, call and a leaf body with a consistent table of derived registers: in no reachable state of any schedule an instruction shows the placement |
| `StartupCode.StorelessKeepsPlace` | sw/kernel/src/start.S:1-10 | when the body stores nothing its text stays as loaded and no further assumption is needed |
| `StartupCode.StorelessRaceFree` | sw/kernel/src/start.S:1-10 | and the kernel is race-free |
| `StartupCode.CountDownTabled` | sw/kernel/src/start.S:1-10 | a body with a load, a loop, a branch and a return meets these conditions wherever it is linked |
| `SmallestLaunch.Completes` | sw/sim/hm/difftest.cpp:573-664 | on two cores a one-thread `ebreak` launch is completed in five cycles wherever the pointer stood, race-free, and placed as assumed if and only if that was the first core |
| `SmallestLaunch.TwoLaunches` | sw/sim/hm/difftest.cpp:640-644 | launched twice in a row both complete; the first ran where the scalar simulator assumes, the second did not |
| `CycleModel.CoreUnit.AcceptCta` | sw/sim/hm/difftest.cpp:120-147 | warps and lanes set up one by one give the accepted core state |
| `CycleModel.CoreUnit.SplitLanes` | sw/sim/hm/difftest.cpp:209-240 | the loop collects exactly the active lanes that take the branch and those that do not |
| `CycleModel.CoreUnit.RunLanes` | sw/sim/hm/difftest.cpp:265-413 | the registers of exactly the active lanes are written, and the flags are those of the lane fold |
| `CycleModel.LoopIsStep` | sw/sim/hm/difftest.cpp:414-420 | the first-target flag of the loop decides divergence, legality and the next pc as the whole active mask does |
| `CycleModel.CoreUnit.Step` | sw/sim/hm/difftest.cpp:150-447 | the whole next core state, and whether the cycle read outside memory |
| `DeviceModel.StoreInPlace` | sw/sim/hm/difftest.cpp:72-83 | exactly the masked bytes inside memory change and are marked dirty; failure exactly when one lies outside |
| `DeviceModel.DeviceUnit.CollectStores` | sw/sim/hm/difftest.cpp:601-612 | the transactions the storing cores drive, in core order |
| `DeviceModel.DeviceUnit.StepCores` | sw/sim/hm/difftest.cpp:613-614 | every core object takes its step on the memory before the cycle |
| `DeviceModel.DeviceUnit.Pack` | sw/sim/hm/difftest.cpp:516-525 | recording the state raises the failure flag exactly when a core has a load under way outside memory |
| `DeviceModel.DeviceUnit.Step` | sw/sim/hm/difftest.cpp:573-664 | the whole next device state, the sorted expected transactions and the dirty bytes |
| `MemoryPhase.MemoryInstruction` | sw/sim/hm/difftest.cpp:422-446 | a load or store serves each lane of its mask exactly once in increasing order and leaves the memory states after exactly threads + |mask| cycles |
| `Lockstep.DirtyDecides` | sw/sim/hm/difftest.cpp:690-725 | memories equal before and transactions equal: the dirty-byte check passes if and only if the whole memories are equal |
| `Lockstep.DirtyAloneMisses` | sw/sim/hm/difftest.cpp:711-723 | without the transaction check the dirty-byte check can pass on different memories |
| `Lockstep.ApartStoresCommute` | sw/sim/hm/difftest.cpp:21-22 | when no two transactions meet, equal transactions force equal memories in any order |
| `Lockstep.PassingRunAgrees` | sw/sim/hm/rtl.cpp:43-85 | over any run of passing cycles the final scan of the whole memory cannot fail |
| `Lockstep.Checker.CheckStores` | sw/sim/hm/difftest.cpp:675-686 | against a sorted expectation it passes exactly when the observed transactions are the expected ones up to order |
| `Lockstep.Checker.CheckMemory` | sw/sim/hm/difftest.cpp:690-725 | the full scan decides equality of the memories, the other one equality on the dirty bytes |
| `Lockstep.Checker.Tick` | sw/sim/hm/rtl.cpp:37-89 | both memories advance, and with equal transactions the verdict is exactly whether they are equal |
| `Runtime.SearchLowest` | sw/runtime/gpu/gpu.c:282-301 | the candidate loop, which terminates although its test can wrap, ends at the lowest aligned free range or where nothing higher fits |
| `Runtime.AllocFirstFit` | sw/runtime/gpu/gpu.c:266-308 | with a free slot: success exactly when an aligned free range exists, and then the lowest one |
| `Runtime.AllocSucceedsIff` | sw/runtime/gpu/gpu.c:273-301 | success if and only if a slot is free and there is room |
| `Runtime.TooLargeHasNoRoom` | sw/runtime/gpu/gpu.c:269-271 | a size whose rounding overflows is refused and had no room |
| `Runtime.AllocKeeps` | sw/runtime/gpu/gpu.c:303-306 | live allocations stay aligned, in the heap and disjoint; exactly one is added, its bytes zeroed; a refusal changes nothing |
| `Runtime.FreeKeeps` | sw/runtime/gpu/gpu.c:310-321 | succeeds exactly for the address of a live allocation and removes just that one |
| `Runtime.AllocThenFree` | sw/runtime/gpu/gpu.c:266-321 | freeing a fresh allocation restores the live ones |
| `Runtime.ContainsIff` | sw/runtime/gpu/gpu.c:85-95 | a transfer is admitted if and only if its bytes lie inside one live allocation |
| `Runtime.WriteKeepsOthers` | sw/runtime/gpu/gpu.c:323-329 | an admitted write changes no byte of another allocation |
| `Runtime.WriteThenRead` | sw/runtime/gpu/gpu.c:323-336 | what was written is read back |
| `Runtime.LiveInHeap` | sw/runtime/gpu/gpu.c:303-304 | every live allocation is aligned and inside the heap |
| `Runtime.DimensionsExact` | sw/runtime/gpu/gpu.c:395-405 | the chain of 32-bit checks accepts exactly the launches whose block fits and whose threads can be numbered |
| `RuntimeTraces.ReleaseDrops` | sw/runtime/gpu/gpu.c:73-79 | the scratch allocation is freed and nothing else |
| `RuntimeTraces.LoadedKernel` | sw/runtime/gpu/gpu.c:338-355 | loading succeeds if and only if the image has 1 byte up to the size of the kernel area; then that area holds the image and zeros behind it, whatever was loaded before; a refusal changes nothing |
| `RuntimeTraces.SameKernel` | sw/runtime/gpu/gpu.c:346-347 | two devices that load the same image hold the same kernel area |
| `RuntimeTraces.StaleHandle` | sw/runtime/gpu/gpu.c:391-394 | a kernel handle is refused after any number of further loads that is no multiple of 2^32 |
| `RuntimeTraces.LaunchResult` | sw/runtime/gpu/gpu.c:390-479 | what a launch reports in every case, room for the arguments included |
| `RuntimeTraces.LaunchOutcome` | sw/runtime/gpu/gpu.c:390-479 | a failing launch leaves allocations and run state as they were; a successful one owns exactly one more, holding the arguments; the bytes of live allocations are kept if and only if it did not fail by the timeout of the reference run or that run left them alone |
| `StuckReference.ReferenceIsStuck` | sw/runtime/gpu/gpu.c:445-448 | the reference run of a kernel that stores and then loops is not done at the wait limit, and its store is in memory |
| `StuckReference.TimeoutChangesData` | sw/runtime/gpu/gpu.c:451-457 | launching it on any device whose live allocation it stores to fails with a timeout, keeps the allocations and changes the host's bytes |
| `StuckReference.TimeoutReachable` | sw/runtime/gpu/gpu.c:444-457 | from a freshly opened device: one allocation, the kernel loaded, one launch end in that state |
| `RuntimeTraces.WaitOutcome` | sw/runtime/gpu/gpu.c:481-496 | waiting ends the launch and drops its scratch allocation whatever the models report |
| `RuntimeTraces.SequencesAccounted` | sw/runtime/gpu/gpu.c:266-496 | after any sequence of calls in which the host never frees the scratch address, the live allocations are the host's own plus the scratch of a running launch |
| `RuntimeTraces.NothingLeftBehind` | sw/runtime/gpu/gpu.c:390-496 | between launches nothing but the host's allocations is live |
| `RuntimeTraces.WaitKeepsHostIff` | sw/runtime/gpu/gpu.c:485-486 | waiting keeps the host's allocations if and only if none of them sits at the scratch address |
| `RuntimeTraces.ImpoliteFreeLosesAllocation` | sw/runtime/gpu/gpu.c:310-321 | a concrete sequence in which freeing the scratch address loses a later allocation |
| `RuntimeDevice.GpuDevice.FindRoom` | sw/runtime/gpu/gpu.c:282-299 | the nested loops compute the search |
| `RuntimeDevice.GpuDevice.MemAlloc` | sw/runtime/gpu/gpu.c:266-308 | new table, new memory and result of the allocation |
| `RuntimeDevice.GpuDevice.MemFree` | sw/runtime/gpu/gpu.c:310-321 | new table and result |
| `RuntimeDevice.GpuDevice.AllocationContains` | sw/runtime/gpu/gpu.c:85-95 | the scan over the table |
| `RuntimeDevice.GpuDevice.MemWrite` | sw/runtime/gpu/gpu.c:323-329 | new memory and result |
| `RuntimeDevice.GpuDevice.MemRead` | sw/runtime/gpu/gpu.c:331-336 | the bytes, or a refusal |
| `RuntimeDevice.GpuDevice.KernelLoad` | sw/runtime/gpu/gpu.c:338-355 | the whole next device state; what the kernel area then holds, `RuntimeTraces.LoadedKernel` says |
| `RuntimeDevice.GpuDevice.StartLaunch` | sw/runtime/gpu/gpu.c:390-479 | new device state and result, for every reaction of the models; after a reference timeout memory is what that run left |
| `RuntimeDevice.GpuDevice.FinishLaunch` | sw/runtime/gpu/gpu.c:481-496 | new device state and result |
| `KconfigExpr.CompareConstant3` | tools/kconfig/expr.c:1068-1102 | comparing a logical symbol with n, m or y compares its tristate value |
| `KconfigExpr.CompareConstant` | tools/kconfig/expr.c:1068-1102 | a logical symbol equals a constant if and only if the constant denotes its value |
| `KconfigExpr.ComparisonsMean` | tools/kconfig/expr.c:1068-1102 | the six comparisons order signed numbers as numbers, and anything that is no number in dictionary order |
| `KconfigExpr.EveryAssignmentIsLegal` | tools/kconfig/symbol.c:14-30 | every assignment of values to the logical symbols, m to no boolean, is that of a valuation legal for every set of constants |
| `KconfigTransform.Transform` | tools/kconfig/expr.c:694-849 | terminates although it reruns itself after De Morgan steps: a weight that never grows |
| `KconfigTransform.TransformMeaning` | tools/kconfig/expr.c:694-849 | the value is kept under every legal valuation |
| `KconfigTransform.TransformIdempotent` | tools/kconfig/expr.c:694-849 | negation only over non-constant symbols, and transforming again changes nothing |
| `KconfigTransform.FixedIffNormal` | tools/kconfig/expr.c:694-849 | an expression is left alone if and only if it is in normal form |
| `KconfigTransform.TransBoolMeaning` | tools/kconfig/expr.c:402-426 | preserves whether the value is n wherever it changes nothing under a negation |
| `KconfigTransform.TransBoolDone` | tools/kconfig/expr.c:402-426 | it leaves no test of a tristate symbol against n, and changes nothing if and only if there was none |
| `KconfigTransform.NnfChangesNothingUnderNot` | tools/kconfig/expr.c:402-426 | negation-normal expressions are of that kind |
| `KconfigTransform.TransBoolUnderNot` | tools/kconfig/expr.c:409-412 | on a negated test against n it is right if and only if the symbol is not m |
| `KconfigTransform.TransBoolNeedsNormalForm` | tools/kconfig/expr.c:409-412 | a legal valuation in which it is wrong |
| `KconfigTransform.TestNoMeaning` | tools/kconfig/expr.c:922-985 | while no negated operand is m, the comparison against n is exact |
| `KconfigTransform.TestNoTwoValued` | tools/kconfig/expr.c:922-985 | under every legal valuation the comparison against n tells whether the expression holds with m read as on |
| `KconfigTransform.TestNoOfNegation` | tools/kconfig/expr.c:953-954 | on a negation it is right if and only if the negated operand is not m |
| `KconfigTransform.TestNoMissesM` | tools/kconfig/expr.c:953-954 | a legal valuation in which it is wrong |
| `KconfigLeaves.EliminateYnMeaning` | tools/kconfig/expr.c:316-397 | removing constants keeps the value |
| `KconfigLeaves.NeutralShrinks` | tools/kconfig/expr.c:316-397 | with a neutral operand anywhere it strictly shrinks the tree |
| `KconfigEquality.ExprEqSound` | tools/kconfig/expr.c:244-303 | equal expressions have equal values under every valuation |
| `KconfigEquality.ExprEqSelf` | tools/kconfig/expr.c:244-303 | every expression equals itself, through the removal of shared operands |
| `KconfigEquality.RestOrders` | tools/kconfig/expr.c:215-234 | the order between the remainders is the order between the originals |
| `KconfigEquality.SupersetSound` | tools/kconfig/expr.c:215-234 | when y remains of the second expression, the first is never above it |
| `KconfigDups.JoinOrMeaning` | tools/kconfig/expr.c:431-493 | a joined disjunction has the value of the two operands |
| `KconfigDups.JoinAndMeaning` | tools/kconfig/expr.c:495-587 | a joined conjunction has the value of the two operands, when no two constants of the expressions denote the same value |
| `KconfigDups.TestsJoinIff` | tools/kconfig/expr.c:431-587 | two tests of one tristate symbol for or against n, m and y: joined in a disjunction if and only if they are equal or both for a constant, in a conjunction if and only if they are not for two different ones |
| `KconfigDups.SymbolJoinIff` | tools/kconfig/expr.c:521-537 | a symbol and such a test of it are joined if and only if the conjunction is the symbol or a test |
| `KconfigDups.JoinTestsExact` | tools/kconfig/expr.c:539-553 | joining a test for one constant with a test against another is right for every value of the symbol if and only if no value is denoted by both |
| `KconfigDups.NumericConstantsDisagree` | tools/kconfig/expr.c:539-553 | a conjunction with a numeric constant whose join is wrong |
| `KconfigDups.NumericConstantsExist` | tools/kconfig/expr.c:1020-1027 | a valuation with such a constant |
| `KconfigDups.PairsInPlace` | tools/kconfig/expr.c:596-651 | the pairwise pass over the operands, replaced in place, is the specified pass |
| `KconfigDups.PassShrinks` | tools/kconfig/expr.c:670-683 | every productive pass strictly shrinks the tree |
| `KconfigDups.SimplifyDups` | tools/kconfig/expr.c:664-686 | the loop terminates and computes the simplification |
| `KconfigDups.EliminateDupsMeaning` | tools/kconfig/expr.c:664-686 | the value is kept under every valuation in which no two constants of the expression denote the same value |
| `KconfigDups.EliminateDupsDone` | tools/kconfig/expr.c:664-686 | nothing is left to join, and the result is no larger |
| `KconfigDups.NothingLeftToJoin` | tools/kconfig/expr.c:664-686 | in the result no two operands of the chain can be joined, and none stands twice |
| `KconfigDependencies.RewriteMMeaning` | tools/kconfig/menu.c:82-105 | the constant m is worth at most what MODULES is |
| `KconfigDependencies.PropagateMeaning` | tools/kconfig/menu.c:356-406 | the propagated dependency is the minimum of the parent's and the entry's own |
| `KconfigDependencies.PropagateNnf` | tools/kconfig/menu.c:356-406 | negation normal form survives propagation |
| `KconfigDependencies.DescendMeaning` | tools/kconfig/menu.c:306-432 | however deep the nesting, the minimum of all dependencies on the way from the root |
| `KconfigDependencies.BoolConditionOff` | tools/kconfig/menu.c:400-406 | a boolean symbol's property is off if and only if its condition or a dependency above is n |
| `KconfigDependencies.SupersetTwoValued` | tools/kconfig/menu.c:480-491 | when the superset test holds the entry is on only if the owner is, both with m read as on; an owner without condition included |
| `KconfigDependencies.SupersetMeaning` | tools/kconfig/menu.c:480-491 | an entry put into an automatic submenu by the test is never on while the owner is off, with no negated operand m |
| `KconfigDependencies.UnconditionedOwner` | tools/kconfig/menu.c:456-458 | every entry passes the test against an owner without condition |
| `KconfigDependents.DependsMeaning` | tools/kconfig/expr.c:879-908 | a condition that depends on a symbol is on only if the symbol is |
| `KconfigDependents.OwnedIsDependent` | tools/kconfig/menu.c:460-491 | an entry that ends up under a sibling is never on while both the sibling's symbol and the condition of its prompt are off |
| `KconfigDependents.SupersetExample` | tools/kconfig/menu.c:472-491 | a condition `sym` or `Q`, and `R`, passes the superset test when the prompt of sym depends on R |
| `KconfigPrint.PrintThenParse` | tools/kconfig/expr.c:1104-1228 | parsing the printed tokens gives the expression up to left association |
| `KconfigPrint.RoundTrip` | tools/kconfig/parser.y:87-91 | the value is kept, and the very tree if and only if chains were associated to the left |
| `KconfigPrint.PrintStable` | tools/kconfig/parser.y:447-458 | once read back, printing and parsing is the identity |
| `KconfigPrint.PrintShortest` | tools/kconfig/expr.c:1104-1228 | nothing shorter than what is printed reads as the same expression: no parenthesis is redundant |
| `KconfigStrings.EscapeString` | tools/kconfig/symbol.c:875-916 | the quoted string with every quote and backslash protected |
| `KconfigStrings.UnescapeInPlace` | tools/kconfig/confdata.c:261-275 | the loop that shifts the buffer over each backslash leaves the unescaped value, reports a missing quote, or leaves the text, the last exactly when that ends in a lone backslash |
| `KconfigStrings.UnescapeEscape` | tools/kconfig/confdata.c:261-275 | unescaping an escaped string gives it back, whatever follows the closing quote |
| `KconfigStrings.EscapeShortest` | tools/kconfig/symbol.c:875-916 | and no shorter text reads as that string |
| `KconfigStrings.ReadBackIff` | tools/kconfig/confdata.c:261-275 | a value survives the line-based file if and only if it holds no newline |
| `KconfigCheck.DepChecker.CheckDeps` | tools/kconfig/symbol.c:1250-1279 | a returned symbol lies on a cycle; otherwise everything visited stays in topological order |
| `KconfigCheck.DepChecker.CheckEdges` | tools/kconfig/symbol.c:1165-1211 | no failure means every direct dependency has been checked off |
| `KconfigCheck.DepChecker.CheckAll` | tools/kconfig/parser.y:513-519 | no errors if and only if the dependency graph is acyclic |
| `KconfigCheck.OrderedIsAcyclic` | tools/kconfig/parser.y:513-519 | a topological order of all symbols rules out cycles |
| `KconfigCheck.EdgesExact` | tools/kconfig/symbol.c:1165-1211 | the symbols walked are exactly those of the dependencies, of the conditions of properties other than selects and implies, and of the values of defaults |
| `KconfigCheck.SelectingIsNoCycle` | tools/kconfig/symbol.c:1190-1193 | a select conditional on the symbol that selects closes no cycle |
| `KconfigValues.CalcAgree` | tools/kconfig/symbol.c:325-436 | a value depends only on the symbols the dependency check walks |
| `KconfigValues.SolutionUnique` | tools/kconfig/symbol.c:325-436 | on an acyclic graph the recursive definition determines every value |
| `KconfigValues.SolutionExists` | tools/kconfig/symbol.c:325-436 | and it has a solution |
| `KconfigValues.SolutionConsistent` | tools/kconfig/symbol.c:325-436 | its values are consistent: m for no boolean, and texts and numbers as the values say |
| `KconfigLaws.PiecesExist` | tools/kconfig/symbol.c:177-223 | every symbol has a highest prompt condition, a default value and the worth of its dependency, selects and implies |
| `KconfigLaws.ValueDecided` | tools/kconfig/symbol.c:325-436 | the value in full, from the highest prompt condition, the first default that applies, the direct dependency, selects and implies |
| `KconfigLaws.NeverBelowSelects` | tools/kconfig/symbol.c:411-417 | never below what selects it, and m never where only n and y are possible |
| `KconfigLaws.ImpliedBelowDependency` | tools/kconfig/symbol.c:399-405 | left alone and not selected, an implied symbol never exceeds its direct dependency, and below that takes what is implied |
| `KconfigLaws.DefaultDecides` | tools/kconfig/symbol.c:391-398 | neither selected nor implied, it has the first default whose condition is not n, bounded by the condition, and n without one |
| `KconfigLaws.UserDecides` | tools/kconfig/symbol.c:376-385 | a usable user value is kept between what selects the symbol and what its prompts allow |
| `KconfigValues.SetReadsBack` | tools/kconfig/symbol.c:480-533 | a user value within range reads back unchanged and symbols that do not depend on it keep their values |
| `KconfigValues.SettingLastsIff` | tools/kconfig/symbol.c:480-503 | a new value lasts if and only if it is possible and lies between reverse dependency and visible limit; it is accepted if and only if it lasts and these two differ |
| `KconfigValues.UnchangedReadsBackIff` | tools/kconfig/symbol.c:499-533 | a value set although already shown lasts if and only if the symbol is invisible, the value is within the visible limit, or a reverse dependency gives it |
| `KconfigEvaluator.Evaluator.CalcValue` | tools/kconfig/symbol.c:325-478 | marks the symbol valid with its recursive value, disturbs nothing valid, and leaves only right values valid |
| `KconfigEvaluator.Evaluator.EvalExpr` | tools/kconfig/expr.c:1030-1102 | the value under the recursive definition, computing symbols on demand |
| `KconfigEvaluator.Evaluator.QueryAll` | tools/kconfig/symbol.c:469-478 | after clearing, queries in any order and number return the recursive values |
| `KconfigEvaluator.Evaluator.SetTristate` | tools/kconfig/symbol.c:499-533 | accepted exactly when unchanged or within range; a refusal changes nothing |
| `KconfigEvaluator.Evaluator.SetThenRead` | tools/kconfig/symbol.c:499-533 | an accepted change reads back unchanged |
| `KconfigEvaluator.UnchangedValueCanMove` | tools/kconfig/symbol.c:503-504 | a concrete symbol whose present value is accepted and then moves |
| `KconfigMenu.TreeKeepsPreorder` | tools/kconfig/menu.c:306-585 | restructuring keeps the preorder, and the function is called exactly once per entry in that order |
| `KconfigMenu.FlattenKeeps` | tools/kconfig/menu.c:575-584 | flattening keeps the preorder |
| `KconfigMenu.FlattenedPrompts` | tools/kconfig/menu.c:575-584 | afterwards no entry without a prompt has children on that level |
| `KconfigSubmenus.GroupedByOwner` | tools/kconfig/menu.c:460-502 | before prompts matter, every entry of a level is under its owner: of the entry before it and those that one is under, the innermost symbol that takes siblings and that it depends on |
| `KconfigSubmenus.FinalizeFlattens` | tools/kconfig/menu.c:306-585 | the restructuring is that grouping, flattened from the leaves up |
| `KconfigSubmenus.TreeFlattened` | tools/kconfig/menu.c:575-584 | in the result no entry without a prompt has entries below it, and each entry is under the nearest one with a prompt among those it was grouped under |
| `KconfigLinks.Climb` | tools/kconfig/confdata.c:900-911 | climbing the parents reaches exactly the next entry of the preorder, or the end |
| `KconfigLinks.Walk` | tools/kconfig/confdata.c:868-912 | the stackless walk terminates and visits exactly the preorder |
| `KconfigRelink.MenuTree.Splice` | tools/kconfig/menu.c:575-584 | the links describe the level with the children moved up, parents included |
| `KconfigRelink.MenuTree.FlattenLevel` | tools/kconfig/menu.c:506-585 | the links describe the flattened level |
| `KconfigRelink.MenuTree.AbsorbSiblings` | tools/kconfig/menu.c:460-502 | the links describe the automatic submenu and the siblings left over |
| `KconfigRelink.MenuTree.FinalizeMenu` | tools/kconfig/menu.c:306-585 | the links describe the restructured level, nothing else changes |
| `KconfigRelink.MenuTree.FinalizeRoot` | tools/kconfig/menu.c:306-585 | the links describe the restructured tree, and the walk over them visits the entries in parsing order |

## Left out

- Trace printing, wave dumps, state packing other than the reads it makes and the foreign-function plumbing: I/O.
- CoreFaults.FaultsIff: a core does not look at the width of an access, so the words `CoreFaults.NoInstruction` excludes among loads and stores are those whose registers do not exist.
- The reset input of the device, and a register write in the same cycle as a launch: the launch in `KMU.sv` reads the registers before the write, the cycle model after it.
- The rest of the Chisel and SpinalHDL cores: the same machine again; only their warp selectors are modelled.
- Accesses that cross a word, illegal load/store widths and kernels that store into the bytes they fetch: the machines differ there; the predicates `CoreClean` and `GoodAccess` exclude them, and the two `AgreeIff` lemmas of `Memory` say exactly where accesses differ.
- DeviceFailure.LoadFailsIff: for a memory that ends at a word boundary, as every configured one does.
- Kernel termination: kernels may loop, so completion is stated for the moment busy falls.
- The state-by-state comparison of the lockstep checker: it compares two packed records word by word; the memory checks are modelled.
- Interleaving.RaceFreeIffObserved: races are judged on bytes, a fetch counting as a touch; values written are not compared.
- EndToEnd.SimulatorMustAgree: assumes that the comparison across a warp never stops the simulator; that comparison is a check of its own, not part of a thread.
- EndToEnd.SimulatorsAgree: assumes that blocks ran where the scalar simulator puts them; `DispatchOrder.SmallGridsAgree` and `Placement.PlacementIrrelevant` are the cases in which that is not an assumption.
- Placement.PlacementIrrelevant: kernels that store at addresses derived from the physical number, as spilling to the stack does, are outside it; blocks that share a core then also share stacks.
- DeviceRefinement.SeedIsFresh: the core number in a context is that of the core the job names; the simulator's own choice is the job `Placement.AtScalarHomes`.
- RuntimeTraces.WaitOutcome: what the models behind the device compute is a parameter; memory after a launch is an input.
- RuntimeTraces.LaunchOutcome: how the models react is a parameter, with the memory an unfinished reference run leaves; `StuckReference` takes that from the scalar simulator.
- StartupCode.LeafKernelKeepsPlace: assumes that no schedule changes the kernel's words, which is proved for bodies that store nothing; calls linked as two instructions and bodies that call on are outside it.
- WarpFairness.IssuedWithinWarps: counts selections, not cycles; a fault ends the selections, and an instruction takes a bounded number of cycles (`MemoryPhase.MemoryInstruction`).
- KconfigValues.SolutionUnique: int, hex and string symbols keep the values of a fixed base valuation and MODULES is fixed; choices, ranges and warnings are left out.
- KconfigTransform.TestNoMeaning: `expr_trans_compare` is modelled for comparison with n, the only use the menu code makes of it.
- KconfigMenu.TreeKeepsPreorder: which entry joins which submenu is an arbitrary relation, so the result holds whatever the dependencies say; `KconfigDependents.FactsOf` is the one the source computes. Choice entries are left out.
- KconfigDependents.OwnedIsDependent: assumes that no negated operand of the two conditions is m, as `KconfigDependencies.SupersetMeaning` does.
- KconfigPrint.RoundTrip: expressions are printed to tokens; the lexer, ranges and lists are left out.
- KconfigStrings.UnescapeInPlace: what the loop reads once it has left the text is not modelled.
- KconfigDups.JoinAndMeaning: assumes that no two constants of the expressions denote the same value, which `KconfigDups.JoinTestsExact` shows to be what joining needs.
- Memory management of the C trees, prompts and user interface, macro expansion, file renaming: no depth to add.
