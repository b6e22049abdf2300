# vNAMS scheduling core in Dafny

vNAMS runs beside a KVM host with several NUMA nodes. In a loop it follows where the
virtual machines (VMs) run, lets a strategy decide which node each VM belongs on, and
pins virtual CPUs accordingly. This project models four parts of it and proves what
they keep.

**The load balancer** (`Balancer`, `BalancerInvariant`, `BalancerRuns`, `BalancerMoves`,
`BalanceCondition`, `BalanceNever`, `BalanceWitness`, `BalancerRebuilt`, `Rankings`, `Placements`,
`StrategyInput`, `StrategyOutcome`, `SimpleStrategy`). Running VMs start on the node that holds most of their memory; a loop
then moves one VM at a time from a loaded node to a least-loaded one. The loop works on a
sorted ranking of the nodes which one of its branches does not rebuild, so some iterations
run on outdated counts. `Balancer.Next` is one iteration as a relation between the values of
the loop's variables; a run is a chain of iterations. `SimpleStrategy.Balance` is the loop
itself and produces such a run. Sorting leaves the order of equal counts open, and every
theorem about runs holds for every order.

- Every run has at most (initial sum of squared node sizes + 3) iterations.
- Every run ends with node sizes that differ by at most one, or with the NIC node keeping two
  IO-intensive VMs beside an empty node, or with the NIC node empty, one node holding two VMs
  and every other node one. The third shape needs two sends in a row from the NIC node to the
  same node, the second on outdated counts.
- `BalancesIff` says exactly which home placements are balanced whatever the sort does with
  ties: more VMs than nodes; or at most one VM at home on the NIC node; or at least one
  non-IO VM there and either fewer VMs than nodes or exactly one such VM. For the others a
  run that ends uneven is constructed. `NeverBalancesIff` says exactly which ones no order of
  ties balances, and `BalanceWitness` has two inputs of that kind: of two VMs at home on the NIC
  node of a two-node host both are sent to the other node if neither is IO-intensive, and both
  are kept if both are.
- `BalancerRebuilt` is the same loop with the ranking rebuilt in both branches. Its runs do not
  have the third shape, and whether it balances a placement does not depend on ties: it does
  exactly if there are more VMs than nodes, or at most one VM at home on the NIC node, or a non-IO
  VM among them.
- If the numbers of VMs per home node differ by at most one, every VM stays at home, except that one
  IO-intensive VM may be fetched to an otherwise unused NIC node (`EvenHomesAreKept`).
- Once the NIC node holds at most two VMs no IO-intensive VM leaves it. While its own turns
  move nothing, no node both gives and receives, no VM moves twice, and the number of moves is
  exactly the excess of the initial sizes over the final ones.

**The occupancy protocol** (`Occupancy`, `Migration`, `Protocol`, `Nuiod`). The engine keeps
the VMs' positions and a map from CPUs to VMs, called marks here, which is updated in place.
Marks are *sound* when each names a live VM on that CPU, *exact* when they are the inverse of
the positions. `Nuiod.Engine` is the class with these fields; `Occupancy` and `Migration` hold
the functions its methods are proved against.

- Over every run of starts, lifecycle events, refreshes and decisions soundness holds, if
  started VMs have fresh ids.
- A refresh of sound marks gives exact marks if and only if the new positions are pairwise
  distinct and every VM that did not move had its mark. Hence marks stay exact throughout a
  run if and only if no two VMs are ever reported on one CPU. `SharingLosesAMark` is a run of
  two VMs in which one moment of sharing costs a mark that no later refresh restores. A decision
  puts two VMs on one CPU exactly when the CPU it picks carries a VM without its mark.
- `RefreshMarks` says which VM each CPU is marked with after a refresh, shared CPUs included.
- Earlier decisions choose first: a VM that is moved ends on a CPU used no more than any other of the
  node that was unmarked and not taken by an earlier decision.
- No CPU being in two nodes, with room on every node and granted pins, a decided VM ends on a CPU
  of its node if and only if it started on a CPU of some node or its node is not node 0. A VM whose
  CPU is unknown counts as being on node 0 already and is left unplaced when that is its node
  (`UnknownCpuIsNotPlaced`).
- A VM is known exactly while its own event history says it is alive, from any initial state, and
  its record changes only in CPU and last event until it starts again.

**The latency probe's pointer ring** (`RandomPath`, `PointerRing`). A random path through the
slots of a block is built in place by retrying draws until one hits a slot not on it, stamped into every block of a buffer,
and closed. For any number of slots and blocks and any draws the result is one cycle through
all lines, and any number of loads spreads over the lines as evenly as possible.

**The CPU bitmap** (`ThreadMigrate`) handed to the hypervisor encodes exactly the requested CPUs.

`Sorting` stands for `std::sort` and for ascending-key iteration; `VmTypes` holds shared records.

## Assumptions

- Home nodes and the NIC node are existing nodes, each VM's map key is its id, and usage
  figures exist for every VM's CPU. Each latency list contains every node, which
  `Nuiod.Engine.InitLatencyLists` establishes.
- Hypervisor answers (a VM's CPU, whether a pin is granted, whether set-up succeeded), CPU
  usages, packet rates and latencies are parameters. Real numbers stand for doubles.
- `src/SimpleStrategy.cpp:101` declares `vm_state` without a value and reads it at line 107 even
  when line 103 did not set it. The model takes the intent: idle exactly when the smoothed
  usage is at most 8.
- A VM whose smoothed packet rate equals the threshold gets no entry in the state map and reads
  back as IO-intensive, since that is the zero enumerator.
- `rand()` is an endless stream in which every slot comes up again and again, which is what the
  retry loops need to end.
- What initialisation registers is the initial state, from which soundness, exactness and life
  cycles are followed: it may be any state that is sound, exact, or arbitrary respectively.
- In runs of the engine decisions name VMs in the map, as the strategy's do by
  `Nuiod.DecisionsAreDistinct`. For others `Migration.PerformOne` inserts a blank record as the
  program does, and `Migration.PerformOneSoundIff` says what that costs.
- Events and the monitoring loop run in one thread, as they do after initialisation, so a run
  is a sequence of steps.

## Model

| member | source | states |
|---|---|---|
| BalancerInvariant.StepDecreases | src/SimpleStrategy.cpp:140-256 | every iteration, on fresh or outdated counts, keeps the three-phase invariant and strictly lowers the potential |
| BalancerInvariant.GuardIsSafe | src/SimpleStrategy.cpp:140-144 | all indices are in bounds, the unsigned difference cannot wrap, and a NIC turn always looks at the last entry with counts 2 and 0 |
| BalancerInvariant.StaleTarget | src/SimpleStrategy.cpp:168-183 | on outdated counts a move goes to an empty node, or, when none is left, to the node the previous move filled |
| BalancerRuns.RunsAreBounded | src/SimpleStrategy.cpp:140-256 | the loop terminates on every input and tie-break, with an explicit bound on the iterations |
| BalancerRuns.StepsAreSafe | src/SimpleStrategy.cpp:133-163 | no index is out of range, the subtraction does not underflow, the clamp at zero is never reached, and a move never targets its own source; look-ups by VM id are in `StrategyOutcome.LookupsHit` |
| BalancerRuns.RunConserves | src/SimpleStrategy.cpp:140-256 | the node lists hold the same VMs, each as often, after every iteration |
| BalancerRuns.OneEpisode | src/SimpleStrategy.cpp:144-183 | NIC turns that move a VM are at most two consecutive iterations of a run, and afterwards the NIC node never holds more than one VM |
| BalancerRuns.FreshMovesImprove | src/SimpleStrategy.cpp:185-255 | a move made while the ranking matches the lists lowers the sum of squared sizes by at least two |
| BalancerRuns.FinalShapes | src/SimpleStrategy.cpp:140-256 | the three shapes a run can end in, the third only after two NIC sends in a row to the node that ends with two |
| BalancerMoves.TargetIsClosest | src/SimpleStrategy.cpp:168-224 | on accurate or outdated counts, if some node holds as many VMs as the least count in use, a move goes to the closest such node, except that an IO-intensive VM prefers the NIC node if it is one; `BalancerInvariant.StaleTarget` covers the case of none |
| BalancerMoves.MovesFirstOfKind | src/SimpleStrategy.cpp:146-156 | the VM moved is the first of its kind in the list: IO-intensive for an ordinary move, non-IO for a NIC turn |
| BalancerMoves.NoIoMeansFirst | src/SimpleStrategy.cpp:227-231 | an ordinary move takes a non-IO VM only if the node has no IO-intensive one, and then the first VM |
| BalancerMoves.NoNodeGivesAndReceives | src/SimpleStrategy.cpp:185-255 | while NIC turns move nothing, a node that received never gives and one that gave never receives |
| BalancerMoves.IoStaysOnNic | src/SimpleStrategy.cpp:144-156 | once the NIC node holds at most two VMs, whatever leaves it in the rest of the run is not IO-intensive |
| BalancerMoves.IoVmStaysOnNic | src/SimpleStrategy.cpp:144-244 | an IO-intensive VM found on the NIC node among at most two is there in every later state |
| BalancerMoves.NoMoveIsWasted | src/SimpleStrategy.cpp:185-255 | while NIC turns move nothing, the number of moves equals the sum over nodes of max(0, initial size - current size) |
| BalancerMoves.NoVmMovesTwice | src/SimpleStrategy.cpp:185-255 | while NIC turns move nothing, no VM is moved twice |
| BalanceCondition.BalancesIff | src/SimpleStrategy.cpp:140-256 | all runs from a home placement end with sizes that differ by at most one if and only if the placement meets a condition on its counts |
| BalanceCondition.BalanceableSuffices | src/SimpleStrategy.cpp:140-256 | the condition is enough for every run |
| BalanceCondition.BalanceableIsNecessary | src/SimpleStrategy.cpp:140-256 | where the condition fails, some order of ties leads to uneven sizes |
| BalanceCondition.AllIoKeepsPair | src/SimpleStrategy.cpp:158-167 | with no more VMs than nodes, two or more VMs at home on the NIC node and all of them IO-intensive, every run ends uneven |
| BalanceCondition.AdverseRun | src/SimpleStrategy.cpp:167-183 | with as many VMs as nodes and two non-IO VMs at home on the NIC node, a run exists that empties it |
| BalanceCondition.UnevenShape | src/SimpleStrategy.cpp:144-183 | a run that ends uneven keeps the pair exactly if all VMs at home on the NIC node are IO-intensive, and sends it away exactly if two or more of them are not |
| BalanceCondition.SomeStep | src/SimpleStrategy.cpp:140-256 | no reachable state is stuck |
| BalanceCondition.LoopCompletes | src/SimpleStrategy.cpp:140-256 | each reachable state has a continuation to the end of the loop |
| BalanceNever.NeverBalancesIff | src/SimpleStrategy.cpp:140-256 | no run from a home placement ends even if and only if there are no more VMs than nodes, two or more at home on the NIC node, and either all of those are IO-intensive, or there are as many VMs as nodes, two of those are not, and no other node is home to two |
| BalanceNever.HopelessSuffices | src/SimpleStrategy.cpp:140-256 | from such a placement every run ends uneven |
| BalanceNever.EvenRun | src/SimpleStrategy.cpp:140-256 | from any other placement some order of ties leads to even sizes |
| BalanceWitness.SampleOutcome | src/SimpleStrategy.cpp:69-294 | for one input of two VMs the decisions send both from the NIC node to the other, and for another they keep both on it, in every run |
| BalanceWitness.SampleRun | src/SimpleStrategy.cpp:125-256 | those inputs do have runs |
| BalancerRebuilt.RebuiltShapes | src/SimpleStrategy.cpp:167-256 | with a rebuild after the NIC branch too, runs end even or with the kept pair, within (initial sum of squares + 1) iterations |
| BalancerRebuilt.RebuiltBalancesIff | src/SimpleStrategy.cpp:167-256 | exactly which placements that variant balances |
| Rankings.SortedLoadsRank | src/SimpleStrategy.cpp:128-132 | any sorted permutation of the (node, size) pairs ranks the nodes: each once, ascending, with its true size |
| StrategyInput.HomeIsUnique | src/SimpleStrategy.cpp:76-123 | the input determines the placement the loop starts from, order included |
| StrategyInput.SmoothedRisesFaster | src/SimpleStrategy.cpp:34-45 | the smoothed estimate moves towards each sample without reaching it, and rises four times as fast as it falls |
| StrategyInput.ClassifyRule | src/SimpleStrategy.cpp:32-107 | a VM is idle, non-IO or IO-intensive by inequalities between recorded and current usage and between recorded and current packet rates, spelled out without the estimator |
| SimpleStrategy.AnalyzeIoState | src/SimpleStrategy.cpp:32-64 | a VM is entered as non-IO below the threshold and as IO-intensive above it, gets no entry exactly at it, and no other entry changes |
| SimpleStrategy.PlaceAtHome | src/SimpleStrategy.cpp:76-123 | each running VM is on its home node and nowhere else, in ascending order; every VM's state reads back as classified, by the rule of `StrategyInput.ClassifyRule` |
| SimpleStrategy.RankNodes | src/SimpleStrategy.cpp:246-249 | the rebuilt vector is a ranking of the current lists |
| SimpleStrategy.FindNearest | src/SimpleStrategy.cpp:213-222 | the scan returns the first node of the latency list with the wanted size, or the fallback |
| SimpleStrategy.NicIteration | src/SimpleStrategy.cpp:144-183 | the NIC branch does one iteration of the relation without touching the ranking |
| SimpleStrategy.LoadIteration | src/SimpleStrategy.cpp:185-255 | the other branch does one iteration of the relation and ranks again |
| SimpleStrategy.Balance | src/SimpleStrategy.cpp:125-256 | the loop ends, and what it did is a complete run from the home placement |
| SimpleStrategy.FinalSwap | src/SimpleStrategy.cpp:257-278 | the result is the final placement of the run, which `StrategyOutcome.FinalMove` and `StrategyOutcome.FinalFrame` describe |
| StrategyOutcome.SwapIsHarmless | src/SimpleStrategy.cpp:263-275 | the swap loses no VM, keeps the sizes even, and takes none off the NIC node |
| StrategyOutcome.FinalMove | src/SimpleStrategy.cpp:257-278 | after an idle loop the VM of the node ranked last goes to the NIC node and is alone there if no node holds two, the NIC node is empty and that VM is IO-intensive; otherwise, and on all other nodes, nothing changes |
| StrategyOutcome.FinalFrame | src/SimpleStrategy.cpp:257-278 | a loop that turned, two VMs on a node, or a VM on the NIC node leave the placement as it is, and a VM that is not IO-intensive is never moved here |
| StrategyOutcome.LookupsHit | src/SimpleStrategy.cpp:149-270 | whoever is on a node list, in any state of a run, is a running VM of the input, so no look-up by id throws |
| StrategyOutcome.LoneIoVmGetsNic | src/SimpleStrategy.cpp:258-275 | a VM that runs alone and is IO-intensive ends on the NIC node wherever it started |
| StrategyOutcome.PlacementDecides | src/SimpleStrategy.cpp:280-292 | the decisions name each placed VM exactly once, with an existing node |
| StrategyOutcome.DecisionAt | src/SimpleStrategy.cpp:280-292 | the place of each VM's decision: after those for the nodes before its own and for the VMs before it on its node |
| StrategyOutcome.EvenHomesAreKept | src/SimpleStrategy.cpp:115-292 | if the numbers of running VMs per home node differ by at most one, each VM is decided to stay at home, except for at most one IO-intensive VM that is fetched to a NIC node which is nobody's home while no two VMs share a home |
| StrategyOutcome.OutcomeOfRun | src/SimpleStrategy.cpp:140-292 | the final shapes and both balance conditions, read off the decisions |
| SimpleStrategy.Analyze | src/SimpleStrategy.cpp:69-294 | one decision for each running VM and none for an idle one, node by node; sizes in one of three shapes, even ones under one condition and uneven ones under the other; IO-intensive VMs of a NIC node with at most two are kept there; even homes are kept |
| Occupancy.OneMarkPerVm | include/Nuiod.h:175-178 | sound marks give a VM at most one CPU |
| Occupancy.ExactMeansNoSharing | include/Nuiod.h:175-178 | under exact marks no two VMs are on one known CPU |
| Occupancy.ChangeKeepsExact | src/Nuiod.cpp:612-623 | moving a VM to an unmarked CPU keeps the marks the exact inverse of the positions |
| Occupancy.RefreshPositions | src/Nuiod.cpp:631-643 | after a refresh each VM is where reported, or where it was if the query failed |
| Occupancy.RefreshKeepsSound | src/Nuiod.cpp:631-643 | a refresh keeps marks sound whatever is reported |
| Occupancy.RefreshExactIff | src/Nuiod.cpp:612-643 | marks are exact after the in-place refresh if and only if the new positions are distinct and every VM that stayed had its mark |
| Occupancy.RefreshOfExact | src/Nuiod.cpp:612-643 | exact marks stay exact, through swaps and cycles, if and only if the new positions are distinct |
| Occupancy.RefreshMarks | src/Nuiod.cpp:612-643 | the marks after a refresh of sound ones, CPU by CPU: the greatest id among the VMs that moved there, else the old mark unless its VM moved away |
| Occupancy.StartFrame | src/Nuiod.cpp:411-421 | a start records what was reported about the VM and changes no other record and no mark that is there |
| Occupancy.StartSoundIff | src/Nuiod.cpp:414-421 | a start keeps marks sound if and only if no mark of an earlier life of the id is left on another CPU |
| Occupancy.StartExactIff | src/Nuiod.cpp:225-231 | for a fresh id exactness survives a start if and only if the CPU was unmarked or unknown |
| Occupancy.NotifyKeepsExact | src/Nuiod.cpp:436-457 | lifecycle events, removal included, keep exact marks exact |
| Occupancy.NotifyFrame | src/Nuiod.cpp:422-457 | an event changes nothing but its VM's recorded event, unless it turns the VM off: then that record and at most the VM's own mark go, and nothing else |
| Migration.FirstFreeIsLeastUsed | src/Nuiod.cpp:652-697 | the CPU picked is used no more than any other unmarked CPU of the node |
| Migration.PerformKeeps | src/Nuiod.cpp:670-715 | decisions keep sound marks sound and exact marks exact for every order and every pattern of failed pins |
| Migration.Untouched | src/Nuiod.cpp:670-715 | a VM changes CPU only by a decision that names it and a pin that is granted |
| Migration.DecisionFrame | src/Nuiod.cpp:671-713 | one decision changes only its VM's CPU, to the first unmarked one of the node's list, and that VM's mark; with no such CPU, no pin or no need it changes nothing, apart from a blank record for an unknown VM |
| Migration.EarlierGoesFirst | src/Nuiod.cpp:647-717 | each VM that has to move and is granted its pin ends on a CPU used no more than any CPU of its node that was unmarked at the start and that no earlier decided VM ends on |
| Migration.DisjointListsMatch | src/Nuiod.cpp:744-760 | if no CPU is in two nodes, the node table puts each listed CPU on the node that lists it |
| Migration.CarriedOutIff | src/Nuiod.cpp:647-717 | for disjoint nodes, with a listed CPU on each node for every mark there and every arrival, distinct ids and granted pins, a decided VM ends on a CPU of its node if and only if its CPU was known or the node is not node 0 |
| Migration.UnknownCpuIsNotPlaced | src/Nuiod.cpp:671-679 | a VM whose CPU is unknown, decided onto node 0 with everything in place, stays unplaced |
| Migration.PerformOneSoundIff | src/Nuiod.cpp:672-713 | a decision keeps sound marks sound exactly if it does not insert a blank record under a foreign id |
| Migration.DecisionSharesIff | src/Nuiod.cpp:671-713 | with all VMs on CPUs of their own, a decision puts two on one CPU exactly if it moves its VM to a CPU that carries an unmarked one |
| Protocol.RunsStaySound | src/Nuiod.cpp:404-462 | over every run with fresh starts each mark names a live VM that is on the marked CPU |
| Protocol.AlwaysExactIff | src/Nuiod.cpp:404-717 | marks are exact throughout a run if and only if no two VMs are ever reported on one CPU |
| Protocol.KnownWhileAlive | src/Nuiod.cpp:337-461 | from any initial state, a VM is in the map exactly if, since it last started or since the beginning if it was known then, no stop came directly after a shutdown or stop of it; its last event is recorded |
| Protocol.GoneMeansUnmarked | src/Nuiod.cpp:442-452 | in a run from any sound state a VM that is not alive has no mark left |
| Protocol.RecordPersists | src/Nuiod.cpp:404-717 | over any run in which a VM does not start again, its record stays as it was apart from the CPU and the last event |
| Protocol.SharingLosesAMark | src/Nuiod.cpp:631-643 | two VMs that shared a CPU once end on CPUs of their own with one of them unmarked |
| Protocol.LostMarkStaysLost | src/Nuiod.cpp:636-638 | no refresh gives an unmarked VM its mark back while it stays where it is |
| Protocol.LostMarkMisleads | src/Nuiod.cpp:671-713 | from the state that run ends in, a third VM starts on a CPU of its own and a decision puts it on the unmarked VM's CPU |
| Nuiod.Engine.constructor | src/Nuiod.cpp:741-780 | the engine starts with the node tables built, no VM known, and the node table saying what `Migration.CarriedOutIff` needs, which every method keeps |
| Nuiod.Engine.InitNodeMap | src/Nuiod.cpp:744-760 | each CPU of some node maps to the first node that lists it, and no other CPU is mapped |
| Nuiod.Engine.InitLatencyLists | src/Nuiod.cpp:765-774 | each latency list has every node, in ascending order of latency |
| Nuiod.Engine.ChangeCpuVmMapping | src/Nuiod.cpp:612-623 | drops the old mark if it is still the VM's own, moves the VM, overwrites the new CPU's mark |
| Nuiod.Engine.SetVmInfo | src/Nuiod.cpp:218-231 | records the reported CPU and marks it only if it carries no mark |
| Nuiod.Engine.VmEventCallBack | src/Nuiod.cpp:404-462 | each event has the effect of its step, which `Occupancy.StartFrame` and `Occupancy.NotifyFrame` delimit, with the error return for unknown VMs and failed look-ups |
| Nuiod.Engine.RefreshCpuMapping | src/Nuiod.cpp:631-643 | the loop in place equals the refresh step; positions, soundness and the exactness condition follow |
| Nuiod.Engine.SortedCpuList | src/Nuiod.cpp:652-668 | a node's CPUs with usage figures, once each, by ascending usage |
| Nuiod.Engine.PerformAct | src/Nuiod.cpp:671-713 | one decision; a requested pin's bitmap encodes the chosen CPU and nothing else |
| Nuiod.Engine.Perform | src/Nuiod.cpp:647-717 | the loop over decisions equals the perform step for any decisions onto existing nodes, and keeps soundness and exactness if they name known VMs |
| Nuiod.Engine.MonitorOnce | src/Nuiod.cpp:549-556 | sound marks stay sound; the decisions are those of a complete balancer run from the refreshed VMs' home nodes, with the shapes, conditions and laws of `SimpleStrategy.Analyze`; and for disjoint nodes with room and granted pins exactly those are carried out whose VM had a known CPU or whose node is not node 0 |
| RandomPath.LastFreeElem | src/mgen.cpp:413-432 | true exactly when one slot is free |
| RandomPath.RandArrayInit | src/mgen.cpp:434-468 | the nested retry loops end, and the array is a path from slot 0 through every slot once to the terminal value, on which each next slot is the first draw, from the previous one on, that is not on the path yet |
| RandomPath.DrawsDetermine | src/mgen.cpp:449-467 | a stream of draws determines the path and the positions it is taken from |
| RandomPath.PathIsBijection | src/mgen.cpp:434-468 | the finished array maps the slots one to one onto 1 .. N |
| PointerRing.StampBlock | src/mgen.cpp:479-487 | one block is appended to the lines before it, and the terminal line is noted |
| PointerRing.RandBufInit | src/mgen.cpp:470-493 | every line points where the ring says, and lines behind the last whole block are untouched |
| PointerRing.OneRing | src/mgen.cpp:470-493 | following the pointers from the start visits every line exactly once and returns to the start |
| PointerRing.BufInit | src/mgen.cpp:495-500 | both steps together give a single cycle for every stream of draws, along the path drawn from it |
| PointerRing.BufRead | src/mgen.cpp:534-547 | the counted loop loads the chase's lines in order: as many as a positive count says, one for zero, and 2^32 more than a negative count |
| PointerRing.LoadsAreEven | src/mgen.cpp:534-547 | T loads read the line met k steps into a ring of m lines T/m times, and once more if k < T mod m |
| ThreadMigrate.SetOneBit | src/Thread_migrate.cpp:22-28 | or-ing in a CPU's bit changes that bit only |
| ThreadMigrate.Migrator.constructor | include/Thread_migrate.h:22-26 | the map has one byte for every eight CPUs and one more |
| ThreadMigrate.Migrator.PinVcpuTo | src/Thread_migrate.cpp:9-39 | after the call bit c mod 8 of byte c / 8 is set exactly for the requested CPUs, for any list |

## Left out

- Calls into libvirt, libnuma and perf, and reading `/proc`, `/sys`, the configuration file and the domain XML: their results are parameters.
- Cpu_monitor usage figures and Memory_migrate: inputs, and a thin wrapper over library bit masks.
- Latency timing, time-stamp calibration and the latency cache file: hardware-dependent.
- Floating-point rounding and the smoothed traffic in KB, which is computed and never used.
- Printing, logging, thread creation and the order of operations during initialisation.
- Integer widths, except of `PointerRing.BufRead`'s count: node sizes, ids and line offsets stay far below 32 bits; only the loop guard's unsigned subtraction could wrap, and it is proved not to.
