# JULES back end: verified models

Dafny models of the algorithms the JULES compiler rests on, and proofs of what they promise. Every module
follows one component; a method that mirrors the compiler's code is proved against a specification, and
the specification is then related to something independent of the code: a set of all selections, all runs,
all paths, all token sequences.

`dafny verify dfyconfig.toml` checks the whole project.

## What is modelled

**Register allocation** (`Flows`, `FlowNets`, `Selection`, `FlowSelect`, `Ralloc`, `Hybrid`, `Demotion`; helpers
`Sums`, `Options`). Phase one chooses the live ranges worth a register by min-cost max-flow over a compressed chain of
program points. `FlowNets` proves the flow algorithm itself: residual arcs in pairs, a queue-based
label-correcting search, parent pointers that spell a cheapest augmenting path, augmentation that keeps
node prices, and termination. `Selection` proves that the compressed network says exactly what the interval
problem says, and `FlowSelect` runs the two together: the ids returned are a maximum-weight feasible selection.
Phase two (`Ralloc`, `Hybrid`) is the two-stage driver: exact selection of call-crossing ranges under the
callee-saved capacity, exact selection of the others under what is left, repair, the greedy scan by left
endpoint and coalescing. The final assignment is sound at generation precision, every selected range that
crosses no call gets a register where the class is proper, and `Demotion` shows what the allocator does
otherwise. When any one range is placed is read off the sorted list and the placements before it.

**Division by constants** (`MagicDiv`). The multiplier search, both recipe forms on machine integers without
wrap, the signed wrapper and the remainders.

**Structured control with `defer`** (`DeferLang`, `DeferShapes`, `SonGraph`, `SonBuilder`, `SonFollows`, `SonCorrect`,
`SonLinear`, `SonFunction`, `SonStops`, `SonFnBuilder`). Statements run over traces of effects; what an effect, a
test or a returned value yields is any function of the trace so far, so equal traces mean equal
observations. The builder's graph is run by following its control edges, merges remembering the memory state
they were entered with. `SonCorrect` follows a structured run through the finished graph, whichever way each
scope is left; `SonLinear` shows that control is single-threaded, hence that the graph's run is unique;
`SonFunction` puts both together into an equivalence, divergence included. `SonFnBuilder` is the builder
with its mutable fields, proved to produce that very graph. `DeferShapes` says what the rules come to on programs of
known shape, and what is admitted at all.

**Slot liveness, recolouring and frame layout** (`Dataflow`, `SlotCode`, `CodeNeeds`, `SlotLiveness`,
`SlotActivity`, `SlotGroups`, `SlotRecolor`, `SlotWriters`, `SlotCounter`, `SlotFrame`). A machine stream is cut into regions, a backward
fixpoint finds exactly the live slots of every region, activity is recorded position by position, first-fit
groups are formed and the ids renamed. `CodeNeeds` says, without regions, what a run may still read from a
position on; the analysis finds all of it exactly where no branch leads to a slot that the rest of the branch's
region stores first, and there the renamed stream runs in step with the original. `SlotWriters` says exactly when a
renaming preserves all runs of all machines, in terms of the original's runs alone. Two ids are kept apart only
where a member of one group is active together with a member of the other, and where activities are single runs there
are no more groups than slots active together at the busiest position (`SlotGroups`). The frame is the least that
holds the cells and stays 16-byte aligned.

**Superoptimizer** (`Fingerprint`, `SuperSeed`, `ProbeTables`, `SuperLiveness`, `SuperNeeds`, `SuperSees`,
`SuperCommits`, `SuperMarks`, `SuperCounter`, `SuperSearch`). The instruction table is abstract: an instruction reads
and writes only what it declares. The undo journal restores the state and its folded delta turns the parent's
fingerprint into the child's, the vector kernel's only as long as the pad lanes of each location hold one value, which
seeding and lane-uniform instructions keep; the probing tables are a map and a set; the capped liveness rounds reach the
least fixpoint; the best-first search only queues entries that describe their programs exactly, a search that ends for
want of entries has followed up every candidate of every state it expanded, and a window's winner matches the original
window on every batch of seeded inputs. `SuperNeeds` says exactly when the live sets hold
everything a run may still read, `SuperSees` says it on the code; wherever they do, replacing windows back to front
gives code that simulates the original, returns what it returns, runs for ever where it does, and returns only where it
stops. Where a contract misses what a run reads, `SuperMarks` gives a table and an equivalent program that change what
the function returns.

**Dominators and loop depth** (`Dominators`) and **the expression parser** (`Pratt`) complete the set:
the iterated bit vectors are exactly the dominators, and the precedence-climbing parser returns exactly the
properly parenthesised readings of its tokens, of which there is at most one. The levels of the operators are pinned down
by what is read from tokens alone.

## Where the code and its comments part

* Selected ranges can be demoted, although the selection is described as guaranteed colourable
  (`jules/src/core/codegen/ralloc.cpp:17-23`). One that crosses a call is, when a longer range that crosses none has
  taken the last callee-saved register: `Demotion.CrossingIsDemoted` gives an input on which every outcome the
  allocator can have selects both and demotes the crossing one. The same comment says that crossing ranges are
  placed first; the sort is by first position and id (`jules/src/core/codegen/ralloc.cpp:228-232`). One that crosses
  no call is, when it begins with a use, ends at once, and another begins with a definition there
  (`Demotion.UsedIsDemoted`); in classes without such a pair none is (`Hybrid.SelectedArePlaced`). For every range
  `Ralloc.PlacedExactly` is the exact condition on the sorted list, and a crossing range is safe where nowhere on it
  more ranges of the class overlap than there are callee-saved registers (`Demotion.RoomyIsPlaced`).
* The multiplier search refuses divisors well below 2^64, such as 7 * 2^61
  (`MagicDiv.RefusedWellBelowTwo64`), and accepts 2^64 - 1 (`MagicDiv.LargestDivisorIsDerivable`);
  `jules/scripts/verify_magic_math.py:48-49` says only divisors within 2 of 2^64 are refused.
  `MagicDiv.DeriveMagic` states the exact condition. The remark that t is at most x - 1 fails for x = 0;
  t is at most x (`MagicDiv.IncrementForm`), which is all the recipe needs.
* A function that returns a value on some path but can also fall off its end gets no return there
  (`SonFunction.DanglingHappens`), since the fallback return is only added when there is no other
  (`jules/src/core/son/builder.cpp:72-83`). `SonFunction.Dangling` says on the source when that is so,
  `SonFunction.DanglingExactly` that it is just then, and `SonFunction.LoweringIsCorrect` is exact about it.
* Liveness of the slot pass treats a region with several conditional branches as straight line; a slot
  stored after such a branch can then lose its value to a slot it shares an id with. The pass does that to the
  stream of `SlotCounter.RecolorBreaksTheStream`. The analysis finds everything a run may read if and only if no
  branch leads to where a slot is needed that the rest of the branch's region stores before reading it
  (`SlotLiveness.FindsNeedsIff`), and then all runs are preserved (`SlotRecolor.Recolor`). Runs alone can ask for less:
  they are preserved if and only if every load finds, under the new name, what the last store to its slot left
  (`SlotWriters.RenamedRunsIff`), and a store under a needed name may leave just that
  (`SlotWriters.EqualStoresHarmNothing`).
* Comments say that the vector fold masks the pad lanes in each block (`jules/src/superopt/superopt.cpp:298-302`,
  `jules/src/superopt/superopt.h:76-89`). The code loads the mask once, from its front, so that both blocks run under
  eight real lanes of it and the pad is folded in as it is (`jules/src/superopt/superopt.cpp:348-357`). One pad lane is
  enough to tell the kernels apart (`Fingerprint.PadLeaks`). They agree on a row if and only if the pad contributes as
  much before as after (`Fingerprint.VectorIsScalarIff`), as it does when each location's pad lanes hold one value
  (`Fingerprint.UniformPadsAgree`); the search needs that of the table under the vector kernel.
* The superoptimizer's successors stop at the first branch of a region, so what only a later branch reaches is not
  live. Regions do have several: a short-circuit guard emits one for each of its tests
  (`jules/src/targets/x86_64/x64_emit.cpp:1649-1675`). In `SuperCounter.SecondBranchBreaks` an equivalent program for
  a window then changes what the function returns. The live sets hold everything a run may read if and only if they
  do so at the branches (`SuperNeeds.HoldsNeedsIff`), and then every choice of equivalent programs is sound
  (`SuperCommits.CoveredIsSound`). `SuperSees.CoverageOnCode` reads the condition off the code, and
  `SuperMarks.MissedNeedBreaks` shows that a contract which misses what a run reads is never safe.
* The frame keeps a cell for the first slot renamed to each shared id, though nothing names it: recolouring saves as
  many cells as it renames slots, less one for each id it renames them to (`SlotFrame.SharedIdsWasteCells`).
* The body marked for a block that loops to itself also takes in what leads to the block
  (`Dominators.SelfLoopBody` says exactly when); for every other backedge it is the natural loop.

## Model

| member | source | states |
|---|---|---|
| FlowNets.FlowNet.AddArc | jules/src/core/codegen/ralloc_flow.cpp:52-59 | appends the pair of residual arcs: one more edge carrying no flow, adjacency and pairing intact |
| FlowNets.NoNegativeCycle | jules/src/core/codegen/ralloc_flow.cpp:62-64 | a residual network that has prices has no walk back to its start of negative cost |
| FlowNets.RelaxKeepsTree | jules/src/core/codegen/ralloc_flow.cpp:79-86 | relaxing any arc keeps the parent pointers a tree of walks from the source; it never relabels the source or the arc's own tail |
| FlowNets.RelaxDecreases | jules/src/core/codegen/ralloc_flow.cpp:83-85 | each relaxation lowers a well-founded measure bounded by the prices, so the queue loop ends |
| FlowNets.Label | jules/src/core/codegen/ralloc_flow.cpp:65-92 | at the end of the search every residual arc obeys the triangle inequality and the labels belong to a tree of walks |
| FlowNets.TracePath | jules/src/core/codegen/ralloc_flow.cpp:93-101 | following parents back from the sink ends, and spells a walk from the source with distinct arcs, tight under new prices |
| FlowNets.SpfaPath | jules/src/core/codegen/ralloc_flow.cpp:65-102 | empty exactly when no residual walk reaches the sink; otherwise a walk no dearer than any other |
| FlowNets.Bottleneck | jules/src/core/codegen/ralloc_flow.cpp:199-201 | the least residual capacity on the path |
| FlowNets.PushedNetOut | jules/src/core/codegen/ralloc_flow.cpp:202-205 | pushing b units over an arc moves b units of net outflow from its head to its tail and no other node changes |
| FlowNets.PushedKeepsPrices | jules/src/core/codegen/ralloc_flow.cpp:202-205 | pushing over an arc of reduced cost zero keeps the prices valid, so no negative cycle arises |
| FlowNets.Augment | jules/src/core/codegen/ralloc_flow.cpp:202-205 | augmenting along a tight path keeps the network, capacities and prices and moves exactly b units from source to sink |
| Flows.CertifiedIsCheapest | jules/src/core/codegen/ralloc_flow.cpp:195-206 | duality: a flow whose residual network has prices is cheapest among the flows that ship as much |
| Flows.ClosedCutIsMaximal | jules/src/core/codegen/ralloc_flow.cpp:195-198 | a flow whose residual edges cannot leave a set around the source ships at least as much as any other |
| FlowNets.ShipAll | jules/src/core/codegen/ralloc_flow.cpp:195-206 | successive shortest paths end, from any priced flow, in a minimum-cost maximum flow of the same network |
| FlowSelect.CollectBounds | jules/src/core/codegen/ralloc_flow.cpp:117-132 | the boundaries are increasing, include both ends and every clipped endpoint, and capacities are constant between them |
| FlowSelect.IndexNodes | jules/src/core/codegen/ralloc_flow.cpp:134-137 | maps each boundary to its index and everything else to -1 |
| FlowSelect.SegCap | jules/src/core/codegen/ralloc_flow.cpp:139-144 | the minimum over a merged segment is the capacity of each of its points |
| FlowSelect.AddSpanArcs | jules/src/core/codegen/ralloc_flow.cpp:157-168 | one arc of capacity 1 and cost minus the weight for each span in the model, none dropped for want of a node |
| FlowSelect.SupplyAtIsSupply | jules/src/core/codegen/ralloc_flow.cpp:180-187 | the supply read off the full capacities is the drop between neighbouring merged segments |
| FlowSelect.BuildNetwork | jules/src/core/codegen/ralloc_flow.cpp:134-193 | the network holds slack arcs, span arcs and terminals exactly as specified, without flow |
| FlowSelect.FreshNetworkIsPriceable | jules/src/core/codegen/ralloc_flow.cpp:146-193 | the network without flow has prices despite its negative costs, so the search invariant holds at the start |
| Selection.SelectionIsFlow | jules/src/core/codegen/ralloc_flow.cpp:111-193 | every feasible selection is a flow that saturates all terminals |
| Selection.SlackPlusCoverage | jules/src/core/codegen/ralloc_flow.cpp:111-116 | where terminals are saturated, idle registers plus selected spans make the capacity of each merged segment |
| Selection.MaxFlowSaturates | jules/src/core/codegen/ralloc_flow.cpp:195-206 | a maximum flow saturates every supply and every demand |
| Selection.EverySegmentIsFull | jules/src/core/codegen/ralloc_flow.cpp:111-116 | compression loses nothing: at every program point slack plus coverage is the original capacity |
| Selection.CostIsLostWeight | jules/src/core/codegen/ralloc_flow.cpp:154-168 | the cost of a flow is minus the weight of the spans it selects |
| Selection.OptimalFlowIsOptimalSelection | jules/src/core/codegen/ralloc_flow.cpp:106-217 | a minimum-cost maximum flow of the compressed network is a maximum-weight feasible selection |
| FlowSelect.OptimalSpreads | jules/src/core/codegen/ralloc_flow.cpp:160-168 | an optimum over the clipped spans is an optimum over all spans given |
| FlowSelect.Extract | jules/src/core/codegen/ralloc_flow.cpp:208-215 | the ids read off the reverse arcs are those of the spans that carry flow |
| FlowSelect.RallocFlowSelect | jules/src/core/codegen/ralloc_flow.cpp:106-217 | returns, sorted, the ids of a selection that respects every capacity and outweighs every other such selection |
| Hybrid.Occupancy | jules/src/core/codegen/ralloc.cpp:89-98 | counts, segment by segment, the ranges that occupy it |
| Ralloc.SegmentsOf | jules/src/core/codegen/ralloc.cpp:79-86 | the segments between two positions of a range are the ones it occupies; a range that begins with a use occupies the one before as well, one of no length the one behind |
| Ralloc.ShareUnlessFollowing | jules/src/core/codegen/ralloc.cpp:79-86 | two ranges with a length share a segment if and only if neither begins where the other has ended, or with a definition where it ends |
| Ralloc.PointShares | jules/src/core/codegen/ralloc.cpp:79-86 | exactly when a range of no length shares a segment with another range |
| Hybrid.SelectRanges | jules/src/core/codegen/ralloc.cpp:135-150 | keeps exactly the ranges of an exact maximum-weight selection |
| Hybrid.SelectionFits | jules/src/core/codegen/ralloc.cpp:135-170 | a selection's occupancy stays within the capacities it was made under, and is nil elsewhere |
| Hybrid.StageBounds | jules/src/core/codegen/ralloc.cpp:135-170 | after both stages crossing ranges fit the callee-saved registers and all ranges fit all registers, everywhere |
| Hybrid.Repair | jules/src/core/codegen/ralloc.cpp:172-200 | keeps both bounds and the exact selection; a crossing range is still left out only if heavier ranges, or as heavy ones of lower id, leave no room |
| Hybrid.SelectClass | jules/src/core/codegen/ralloc.cpp:116-200 | both stages are exact optima and the repaired selection obeys both bounds |
| Hybrid.AssignRegisters | jules/src/core/codegen/ralloc.cpp:202-261 | the mutable scan over banks computes the specified greedy scan |
| Hybrid.ScanOrder | jules/src/core/codegen/ralloc.cpp:226-232 | the scan takes the selected ranges by first position, lower ids first among equals, each once |
| Ralloc.StepKeeps | jules/src/core/codegen/ralloc.cpp:234-260 | placing one range, after expiring holders, keeps every register's ranges apart or handing over at a definition |
| Ralloc.ScanKeeps | jules/src/core/codegen/ralloc.cpp:228-261 | the whole scan keeps it, equal first positions included |
| Ralloc.UncrowdedIsPlaced | jules/src/core/codegen/ralloc.cpp:234-260 | a range finds a register whenever overlap nowhere exceeds the registers it may use |
| Ralloc.UncrowdedScanPlaces | jules/src/core/codegen/ralloc.cpp:228-261 | every such range in the list is placed, whatever happens to the others |
| Ralloc.PlacedIff | jules/src/core/codegen/ralloc.cpp:244-260 | a range is placed if and only if a register it may use is free after expiry |
| Ralloc.PlacedExactly | jules/src/core/codegen/ralloc.cpp:228-261 | a range of the sorted list is placed if and only if all earlier ranges on some register it may use have ended by the time some later one of them, or it, was scanned |
| Ralloc.TakesFirst | jules/src/core/codegen/ralloc.cpp:202-260 | a placed range takes the lowest free register of the first bank tried: crossing ranges only callee-saved banks, others those first under the size-biased profile, else in the order listed |
| Demotion.CrossingIsDemoted | jules/src/core/codegen/ralloc.cpp:202-260 | a problem of two ranges both of which are selected, however its class is done, and of which the crossing one gets no register |
| Demotion.AllocatorDemotes | jules/src/core/codegen/ralloc.cpp:106-340 | on it the allocator reports the first range promoted, the second spilled, and counts one of each |
| Demotion.UsedIsDemoted | jules/src/core/codegen/ralloc.cpp:236-242 | a problem of two ranges that cross no call and share no segment, both of which are selected, and of which the second gets no register |
| Demotion.AllocatorDemotesUsed | jules/src/core/codegen/ralloc.cpp:106-340 | on it too the allocator promotes the first and spills the second |
| Demotion.RoomyIsPlaced | jules/src/core/codegen/ralloc.cpp:172-261 | a crossing range on which nowhere more ranges of the class overlap than there are callee-saved registers is selected and placed, whatever the weights, in a proper class |
| Demotion.FittingAreAllPromoted | jules/src/core/codegen/ralloc.cpp:135-261 | where no more ranges of a proper class than registers occupy any segment, every weighted range that crosses no call is promoted |
| Demotion.AllocatorHandsOver | jules/src/core/codegen/ralloc.cpp:234-242 | on a problem of one register and two ranges, the second beginning with a definition where the first ends, the allocator promotes both |
| Hybrid.ScanIsSound | jules/src/core/codegen/ralloc.cpp:202-261 | scanning one class extends a sound assignment to a sound assignment |
| Hybrid.SelectedArePlaced | jules/src/core/codegen/ralloc.cpp:202-261 | every selected range crossing no call is placed unless some range of the class begins with a use and ends at once where another begins with a definition; nothing unselected is placed |
| Hybrid.CompatibleMeansHandover | jules/src/core/codegen/ralloc.cpp:295-307 | two ranges on one register are live together at one position at most, which ends one generation and starts the other |
| Hybrid.HullsMeet | jules/src/core/codegen/ralloc.cpp:102-104 | hulls overlap if and only if they have a position in common |
| Hybrid.Attempt | jules/src/core/codegen/ralloc.cpp:286-318 | decides exactly the conservative test: bank, generations, third ranges |
| Hybrid.MoveKeepsSound | jules/src/core/codegen/ralloc.cpp:286-330 | a move that passes the test keeps the assignment sound |
| Hybrid.CoalesceMove | jules/src/core/codegen/ralloc.cpp:269-330 | unifies the ends of a move exactly when one of them may move, the first end if it may; nothing else changes |
| Hybrid.Coalesce | jules/src/core/codegen/ralloc.cpp:264-332 | stays sound with the same ranges promoted, counts the moves unified, and stops before the sixth round only when no move can be unified any more |
| Hybrid.AllocateClass | jules/src/core/codegen/ralloc.cpp:110-262 | one class: sound, its staged selection placed, other classes untouched |
| Hybrid.RallocHybrid | jules/src/core/codegen/ralloc.cpp:106-340 | the reported assignment is sound, every class's outcome is its staged selection, and the counters are the ranges promoted, the ranges spilled and the moves unified in the rounds run |
| MagicDiv.IsPow2Exactly | jules/src/targets/x86_64/x64_dp_isel.cpp:103-106 | the bit trick recognises exactly the powers of two |
| MagicDiv.MultiplierFits | jules/src/targets/x86_64/x64_dp_isel.cpp:113-122 | the multiplier needs a 65th bit exactly when 2^s has reached the divisor |
| MagicDiv.MultiplierDivides | jules/scripts/verify_magic_math.py:39-43 | a multiplier with excess at most 2^s divides every 64-bit number exactly |
| MagicDiv.FittingForm | jules/scripts/verify_magic_math.py:64-68 | form A is the exact quotient |
| MagicDiv.IncrementForm | jules/scripts/verify_magic_math.py:69-71 | form B is the exact quotient and none of its steps wraps |
| MagicDiv.UMagicDiv | jules/scripts/verify_magic_math.py:64-71 | on 64-bit machine values the recipe returns x / d for every x |
| MagicDiv.DeriveMagic | jules/src/targets/x86_64/x64_dp_isel.cpp:103-127 | succeeds if and only if d is at least 3, no power of two and its excess at shift 63 is at most 2^63; what it returns is a recipe for d |
| MagicDiv.BelowTwo63IsDerivable | jules/src/targets/x86_64/x64_dp_isel.cpp:104-106 | every divisor from 3 to 2^63 that is no power of two is served |
| MagicDiv.RefusedWellBelowTwo64 | jules/scripts/verify_magic_math.py:48-49 | 7 * 2^61 is refused, though it is far from 2^64 |
| MagicDiv.LargestDivisorIsDerivable | jules/scripts/verify_magic_math.py:48-49 | 2^64 - 1 is served |
| MagicDiv.MagnitudeByTransfer | jules/scripts/verify_magic_math.py:104-105 | the mask identity gives the magnitude of every 64-bit number, the minimum included |
| MagicDiv.SignsRestored | jules/scripts/verify_magic_math.py:111-115 | the two sign steps give the quotient the sign of truncated division |
| MagicDiv.SMagicDiv | jules/scripts/verify_magic_math.py:100-117 | truncated signed division for all x and all d, absent exactly when the magnitude of d is a power of two |
| MagicDiv.SMagicMod | jules/scripts/verify_magic_math.py:133-137 | the recombined remainder is that of truncated division, below d in magnitude and signed as x |
| MagicDiv.RemainderFacts | jules/scripts/verify_magic_math.py:133-136 | the true remainder survives the wrap to 64 bits |
| MagicDiv.UMagicMod | jules/src/targets/x86_64/x64_dp_isel.cpp:482-501 | the recombined unsigned remainder is x % d |
| DeferLang.RunDefersConcat | jules/src/core/son/builder.cpp:505-507 | running the pending bodies of several scopes is running each scope's in turn |
| DeferShapes.AdmittedExactly | jules/src/core/sema/sema.cpp:1004-1018 | a body is admitted if and only if no jump stands outside a loop and no jump, return or defer inside a deferred body |
| DeferShapes.ScopeUnwinds | jules/src/core/son/builder.cpp:511-531 | whichever way a scope is left, the defers registered by then run, latest first, nothing behind the exit does, and a returned value is the one before them |
| DeferShapes.NestedUnwinds | jules/src/core/son/builder.cpp:511-523 | leaving two scopes at once runs the defers of the inner one before those of the outer one |
| DeferShapes.CountedLoop | jules/src/core/son/builder.cpp:918-984 | a counted loop left by continue in every round runs n rounds, each with its defers and then one bump, against the bound on entry |
| DeferShapes.BreakEnds | jules/src/core/son/builder.cpp:724-736 | a break ends a loop in its first round after its defers and without a bump |
| DeferShapes.SideRuns | jules/src/core/son/builder.cpp:826-872 | a conditional runs the side its test says with that side's defers |
| DeferShapes.GraphUnwinds | jules/src/core/son/builder.cpp:690-717 | in the graph, a return out of two scopes ends with the inner defers, the outer defers and the value from before them, and in no other way |
| DeferShapes.BranchGoesByTest | jules/src/core/son/builder.cpp:826-830 | control leaves a branch by its true projection if and only if the condition holds |
| SonBuilder.PendingSplits | jules/src/core/son/builder.cpp:511-519 | leaving several scopes at once runs the current scope's bodies, then the enclosing ones' |
| SonBuilder.KeepOuter | jules/src/core/son/builder.cpp:524-531 | closing a scope drops its own defers and no others |
| SonBuilder.StmtEmitted | jules/src/core/son/builder.cpp:534-762 | every statement leaves the builder consistent, grows the graph only at open merges and adds at most its own defer |
| SonCorrect.DeferredEnds | jules/src/core/sema/sema.cpp:1010-1018 | a deferred body can only end normally |
| SonCorrect.SimLeave | jules/src/core/son/builder.cpp:724-749 | break and continue run the defers of every scope they leave, innermost first, then arrive at the loop's merge |
| SonCorrect.SimReturn | jules/src/core/son/builder.cpp:690-717 | a return computes its value before any deferred body runs |
| SonCorrect.SimTail | jules/src/core/son/builder.cpp:754-760 | from any point of a scope the graph follows its statements and then its defers, whichever way it is left |
| SonCorrect.SimIf | jules/src/core/son/builder.cpp:826-872 | both sides of a conditional are followed to the join |
| SonCorrect.SimWhileAt | jules/src/core/son/builder.cpp:874-916 | from the header on the graph follows any number of iterations |
| SonCorrect.SimForAt | jules/src/core/son/builder.cpp:918-984 | the same for a counted loop, whose continue goes through the increment and whose bound is the one computed on entry |
| SonLinear.StepOnce | jules/src/core/son/builder.cpp:826-984 | where control is used once, a step has one outcome |
| SonLinear.EndsAgree | jules/src/core/son/builder.cpp:826-984 | all runs from one place that end, end in the same place |
| SonLinear.StmtThreads | jules/src/core/son/builder.cpp:534-762 | every statement keeps control single-threaded |
| SonFunction.EndsTogether | jules/src/core/son/builder.cpp:68-83 | the graph runs for ever exactly when the structured program does |
| SonFunction.LoweringIsCorrect | jules/src/core/son/builder.cpp:68-83 | the graph returns with a trace and an answer if and only if the structured program finishes with them; where the end dangles, only runs that finish by a return count |
| SonFunction.DanglingExactly | jules/src/core/son/builder.cpp:68-83 | the builder leaves a reachable end without a return exactly when the source falls through and can come to a return elsewhere, in a function that is not void |
| SonFunction.DanglingHappens | jules/src/core/son/builder.cpp:72-83 | a function whose normal end gets no return: it ends, its graph never returns |
| SonStops.StopGathersReturns | jules/src/core/son/builder.cpp:70-84 | the stop node gathers every return of the graph exactly once, and there is one |
| SonFnBuilder.NothingPendingDeeper | jules/src/core/son/builder.cpp:524-531 | closing a scope inside a deferred body emits nothing |
| SonFnBuilder.FnBuilder.EmitDefersFrom | jules/src/core/son/builder.cpp:511-523 | emits the pending bodies down to a depth, last registered first |
| SonFnBuilder.FnBuilder.LowerStmt | jules/src/core/son/builder.cpp:534-762 | the mutable fields end in the specified builder state |
| SonFnBuilder.FnBuilder.LowerFor | jules/src/core/son/builder.cpp:918-984 | the same for the counted loop with its header, increment and exit merges |
| SonFnBuilder.FnBuilder.Build | jules/src/core/son/builder.cpp:68-83 | the builder's graph is the lowered graph the theorems are about, and its gathered returns are that graph's |
| Dataflow.ShortEnough | jules/src/superopt/superopt.cpp:630-634 | a live fact needs no longer path than there are regions |
| Dataflow.SolutionCovers | jules/src/targets/x86_64/x64_ra.cpp:1985-2001 | any solution of the equations holds everything some run needs |
| Dataflow.LeastIsLive | jules/src/targets/x86_64/x64_ra.cpp:1985-2001 | a solution that holds only needed facts is the least and holds exactly the live ones |
| Dataflow.Pass | jules/src/targets/x86_64/x64_ra.cpp:1987-2001 | a pass only adds live facts; comparing sizes detects every change, and a pass without change has solved the equations |
| Dataflow.Fixpoint | jules/src/targets/x86_64/x64_ra.cpp:1985-2001 | the fixpoint loop ends with exactly the live facts |
| SlotLiveness.BuildRegions | jules/src/targets/x86_64/x64_ra.cpp:1888-1911 | regions tile the stream between labels, and every label opens the region behind it |
| SlotLiveness.BeforeIsSummary | jules/src/targets/x86_64/x64_ra.cpp:1967-1983 | walking a region instruction by instruction is its uses plus what it does not define |
| SlotLiveness.UsesAndDefs | jules/src/targets/x86_64/x64_ra.cpp:1967-1983 | one scan of the stream gathers every region's uses before definition, and definitions |
| SlotLiveness.Analyse | jules/src/targets/x86_64/x64_ra.cpp:1882-2001 | the least live sets of every region; gives up only on a branch whose target is no label of the stream |
| SlotLiveness.FallThrough | jules/src/targets/x86_64/x64_ra.cpp:1919-1955 | what is live at the next position was live after this instruction |
| SlotLiveness.BranchTo | jules/src/targets/x86_64/x64_ra.cpp:1919-1955 | what is live at the target of any branch of a region is live out of the region, and behind the branch only as far as the rest of the region leaves it |
| CodeNeeds.NeedsExactly | jules/src/targets/x86_64/x64_ra.cpp:1967-1983 | a value is needed exactly when the instruction reads it, or does not overwrite it and it is needed somewhere control goes next |
| SlotCode.EffectBySlots | jules/src/targets/x86_64/x64_ra.cpp:92-134 | the slots recognised as defined, used and addressed are those the instruction stores to, loads and takes the address of |
| SlotCode.StepByKind | jules/src/targets/x86_64/x64_ra.cpp:1919-1954 | returns and tail calls leave the function, a branch taken goes to the label it names, and everything else goes on |
| SlotLiveness.FindsNeedsIff | jules/src/targets/x86_64/x64_ra.cpp:1919-1983 | every slot a run may still read is live where control can be, if and only if no branch leads to a need that the rest of its region stores first |
| SlotLiveness.NoDefIsHarmless | jules/src/targets/x86_64/x64_ra.cpp:1919-1955 | so it is when no store follows a branch in its region |
| SlotActivity.WalkRegion | jules/src/targets/x86_64/x64_ra.cpp:2025-2054 | a backward walk marks each position with what is live after it, touched at it and live before it, within the recorded hulls |
| SlotActivity.Activity | jules/src/targets/x86_64/x64_ra.cpp:2003-2058 | the record of the whole stream is exactly the activity of its slots |
| SlotActivity.Runs | jules/src/targets/x86_64/x64_ra.cpp:2060-2084 | the intervals hold exactly the active positions, in order and with gaps between them |
| SlotActivity.Intervals | jules/src/targets/x86_64/x64_ra.cpp:2150-2157 | the intervals cover the activity, exactly so within the bitmap budget |
| SlotGroups.Conflicts | jules/src/targets/x86_64/x64_ra.cpp:2176-2186 | reports a conflict exactly when two intervals overlap |
| SlotRecolor.Candidates | jules/src/targets/x86_64/x64_ra.cpp:2125-2148 | exactly the narrow unpromoted slots in memory whose address is not taken, each once, by first activity and then by id |
| SlotGroups.Colour | jules/src/targets/x86_64/x64_ra.cpp:2159-2198 | members of a group are never active together; a slot in a later group is active together with some member of each earlier one that became active no later; every candidate is in one group |
| SlotGroups.FirstFitIsTight | jules/src/targets/x86_64/x64_ra.cpp:2159-2198 | where every candidate's activity is one run, there are exactly as many groups as candidates active together at the busiest position |
| SlotRecolor.Representatives | jules/src/targets/x86_64/x64_ra.cpp:2200-2224 | every slot of a group goes by the group's least id, and the count saved is the number renamed: the candidates less the groups |
| SlotRecolor.StepMatches | jules/src/targets/x86_64/x64_ra.cpp:2227-2234 | one instruction under both names keeps the states equal and the slots still needed in agreement |
| SlotRecolor.RunMatches | jules/src/targets/x86_64/x64_ra.cpp:2227-2234 | runs of any length stay in agreement |
| SlotRecolor.Recolor | jules/src/targets/x86_64/x64_ra.cpp:2110-2242 | all runs are preserved wherever the analysis finds all needs; only candidates are renamed, in the stream and for graph nodes; within the bitmap budget ids stay apart only for slots of groups active together, and where activities are single runs no renaming saves more |
| SlotWriters.RenamedRunsIff | jules/src/targets/x86_64/x64_ra.cpp:2227-2234 | a renaming preserves all runs of all machines if and only if at every load the last store under the new name was a store to the slot itself or one of the same instruction in the same state |
| SlotWriters.RecoloredRunsIff | jules/src/targets/x86_64/x64_ra.cpp:2110-2234 | so it is for every renaming the pass makes |
| SlotWriters.EqualStoresHarmNothing | jules/src/targets/x86_64/x64_ra.cpp:2227-2234 | a stream and a renaming under which a store overwrites what is still needed, and yet no run changes |
| SlotCounter.RecolorBreaksTheStream | jules/src/targets/x86_64/x64_ra.cpp:2110-2234 | a stream with a store after a branch on which the pass itself renames one slot to the other, and then the runs differ |
| SlotFrame.Layout | jules/src/targets/x86_64/x64_ra.cpp:2244-2277 | the offsets slot by slot, the least frame that is a multiple of 16 and holds saved registers and cells, and every frame adjustment in the code set to the frame below the saved registers |
| SlotFrame.CellsApart | jules/src/targets/x86_64/x64_ra.cpp:2244-2277 | no two cells overlap |
| SlotFrame.CellInside | jules/src/targets/x86_64/x64_ra.cpp:2244-2277 | every cell is inside the frame and clear of the saved registers, wide ones 16-byte aligned |
| SlotFrame.CellsInOrder | jules/src/targets/x86_64/x64_ra.cpp:2247-2270 | cells go down in the order of their slots, wide ones below the others |
| SlotFrame.NoGaps | jules/src/targets/x86_64/x64_ra.cpp:2247-2271 | cells lie next to each other from the saved registers down; only the alignment of the wide ones leaves a gap |
| SlotFrame.NamedHasCell | jules/src/targets/x86_64/x64_ra.cpp:2247-2261 | every id left in the code has a cell |
| SlotFrame.SharedIdsWasteCells | jules/src/targets/x86_64/x64_ra.cpp:2244-2261 | there are as many scalar cells as ids named plus ids shared; renaming saves its slots less the ids it renames them to |
| Fingerprint.FpFull | jules/src/superopt/superopt.cpp:177-190 | folding lane by lane gives the position-by-position fingerprint |
| Fingerprint.TermsDiffer | jules/src/superopt/superopt.cpp:143-146 | different values have different terms |
| Fingerprint.OneCellTells | jules/src/superopt/superopt.cpp:122-141 | states that differ in one hashed cell have different fingerprints |
| Fingerprint.DeltaUpdates | jules/src/superopt/superopt.cpp:261-295 | parent fingerprint xor the journal's delta is the fingerprint of the child |
| Fingerprint.FoldRow | jules/src/superopt/superopt.cpp:341-361 | folding two blocks of eight lanes under the front of the mask adds the scalar fold of the row and what its pad contributes |
| Fingerprint.VectorIsScalarIff | jules/src/superopt/superopt.cpp:298-361 | the vector fold of a row is the scalar one if and only if the pad contributes as much before as after |
| Fingerprint.PadLeaks | jules/src/superopt/superopt.cpp:341-361 | two rows that differ in one pad lane alone: the scalar fold is zero, the vector fold is not |
| Fingerprint.UniformPadsAgree | jules/src/superopt/superopt.h:76-89 | where each location's pad lanes hold one value before and after, the pads contribute nothing |
| Fingerprint.CoveredExactly | jules/src/superopt/superopt.cpp:223-256 | an instruction's declared writes cover the registers named, the slot where the window has it, and all flags if any |
| Fingerprint.Journal.Save | jules/src/superopt/superopt.cpp:223-256 | the journal holds the rows of everything the instruction declares it writes |
| Fingerprint.Journal.Restore | jules/src/superopt/superopt.cpp:258-267 | writing the journal back gives the exact state saved, whatever was written inside it |
| Fingerprint.Journal.DeltaScalar | jules/src/superopt/superopt.cpp:269-295 | the scalar fold is the delta |
| Fingerprint.Journal.DeltaVector | jules/src/superopt/superopt.cpp:363-393 | the vector fold over the journaled rows is the delta and what their pads contribute |
| Fingerprint.Construct | jules/src/superopt/superopt.cpp:1384-1428 | a construction leaves the parent state untouched; the scalar kernel yields the child's full fingerprint, the vector kernel exactly if the pads of the rows written contribute nothing |
| SuperSeed.SeedState | jules/src/superopt/superopt.cpp:58-96 | the lane-by-lane loops leave the specified seed: hashed lanes, constant lanes, zero pad |
| SuperSeed.MixerVectors | jules/src/superopt/superopt.cpp:18-23 | the mixer's first two outputs from the seed zero |
| SuperSeed.FirstBases | jules/src/superopt/superopt.cpp:29-64 | the corners the first batch starts from |
| SuperSeed.FirstHashed | jules/src/superopt/superopt.cpp:79-82 | registers 0 and 7 of the first lane |
| SuperSeed.SweepCovers | jules/src/superopt/superopt.cpp:44-56 | in every batch a constant stands everywhere on some lane if and only if it is one of the window's first six |
| ProbeTables.Capacity | jules/src/superopt/superopt.cpp:424-432 | a power of two at least twice the wanted number, and below four times it except at the least size of 16; for 32-bit requests no doubling wraps at 64 bits, so the guard against zero is never needed |
| ProbeTables.MissIsAbsent | jules/src/superopt/superopt.cpp:442-450 | a probe that reaches an unused cell has shown the key is nowhere in the table |
| ProbeTables.FillKeeps | jules/src/superopt/superopt.cpp:452-455 | filling that cell keeps every other key reachable |
| ProbeTables.FlatMap.Improve | jules/src/superopt/superopt.cpp:441-457 | a map: true exactly for a lower cost or, below the load gate, a new key, and then the cost is recorded |
| ProbeTables.FlatSet.Insert | jules/src/superopt/superopt.cpp:480-491 | a set: true exactly for an unseen key, remembered unless the table is half full |
| SuperLiveness.BlockSuccessors | jules/src/superopt/superopt.cpp:542-567 | the successors up to the first branch of a region |
| SuperLiveness.Round | jules/src/superopt/superopt.cpp:635-655 | each pass finds everything whose use is one region further away |
| SuperLiveness.FoundIsAll | jules/src/superopt/superopt.cpp:630-634 | after as many passes as regions everything live is found |
| SuperLiveness.Exhausted | jules/src/superopt/superopt.cpp:628-656 | the loop cannot stop at its cap with the equations unsolved |
| SuperLiveness.ComputeLiveness | jules/src/superopt/superopt.cpp:618-657 | within the cap of regions + 8 rounds the result is the least fixpoint, for every graph and every effect |
| SuperNeeds.HonestRun | jules/src/superopt/superopt.cpp:659-670 | two runs of a stretch that agree on what is live before it agree on what is live after it |
| SuperNeeds.AnalyseBlocks | jules/src/superopt/superopt.cpp:807-815 | regions and exact liveness of the whole function |
| SuperNeeds.HoldsNeedsIff | jules/src/superopt/superopt.cpp:542-568 | every location a run may still read is in the live set where control can be, if and only if what is needed at the target of every branch is live behind the branch or read by it |
| SuperNeeds.BlocksHoldNeeds | jules/src/superopt/superopt.cpp:542-568 | so it is when every branch ends its region |
| SuperSees.SeesExactly | jules/src/superopt/superopt.cpp:542-657 | the engine's live sets are what is read before it is overwritten on paths that run through regions and leave them by their first branch or into the next label |
| SuperSees.CoverageOnCode | jules/src/superopt/superopt.cpp:542-657 | the live sets hold everything needed if and only if no branch leads to a need that no such path behind it sees |
| SuperCommits.CoveredContracts | jules/src/superopt/superopt.cpp:885-906 | where the branches are covered, every window's contract holds what is needed behind the window |
| SuperCommits.TwinStep | jules/src/superopt/superopt.cpp:586-612 | an instruction run from two states that agree on what is needed goes to one place, and they agree there on what is needed then |
| SuperCommits.ApplyCommits | jules/src/superopt/superopt.cpp:1525-1529 | splicing back to front gives the code with every window replaced, earlier positions still meant as before |
| SuperCommits.WindowTwin | jules/src/superopt/superopt.cpp:885-906 | a window and its equivalent program, from states that agree on what is needed, end in agreement on all that is needed behind it |
| SuperCommits.CommitsSimulate | jules/src/superopt/superopt.cpp:1525-1529 | every run of the original between points outside windows has its run in the new code, in agreement on all that is needed |
| SuperCommits.ReturnsAgree | jules/src/superopt/superopt.cpp:1525-1529 | a run that returns is matched by one that returns by the same instruction with the same values in all it reads |
| SuperCommits.KeepsRunning | jules/src/superopt/superopt.cpp:1525-1529 | where the original runs for ever, so does the new code |
| SuperCommits.ReturnsBack | jules/src/superopt/superopt.cpp:1525-1529 | if the new code returns, the original stops, and if it stops at a return the two returns are alike |
| SuperCommits.CoveredIsSound | jules/src/superopt/superopt.cpp:807-815 | with the branches covered by the computed liveness, every choice of equivalent programs meets what those theorems suppose |
| SuperMarks.MissedNeedBreaks | jules/src/superopt/superopt.cpp:885-906 | if a contract misses a location that some run reads behind the window on its way to a return, some honest table declaring the same of the code has an equivalent program after which the function no longer so returns |
| SuperCounter.SecondBranchBreaks | jules/src/superopt/superopt.cpp:542-568 | two branches in one region, an honest table, and a program equivalent to its window on the computed contract: the replaced code returns with another value |
| SuperSearch.FullMatchIsGoal | jules/src/superopt/superopt.cpp:692-736 | all contract locations match if and only if the goal test passes |
| SuperSearch.Pop | jules/src/superopt/superopt.cpp:1060-1067 | takes an entry with the most matches, of those the cheapest, then the shortest, then the oldest, and leaves the rest |
| SuperSearch.Rebuild | jules/src/superopt/superopt.cpp:1203-1213 | reading parents into the fixed buffer and turning it round gives the entry's program |
| SuperSearch.Replay | jules/src/superopt/superopt.cpp:1215-1227 | replay never faults and gives the program's state |
| SuperSearch.EntryFits | jules/src/superopt/superopt.cpp:1206-1210 | every queued program fits the forty-entry buffer |
| SuperSearch.ChildDescribes | jules/src/superopt/superopt.cpp:1360-1424 | the child entry tells the truth about the longer program: fingerprint, cost, length, available values, matches, definedness |
| SuperSearch.ObeysMeans | jules/src/superopt/superopt.cpp:1357-1383 | a program obeys definedness if and only if whatever an instruction of it reads was available at the start or is written before |
| SuperSearch.TryCandidate | jules/src/superopt/superopt.cpp:1357-1428 | exactly what a construction adds to arena, queue and table (nothing unless admissible, free of faults and an improvement), with the parent state restored and the load gate never reached; under the vector kernel for tables that treat pad lanes alike |
| SuperSearch.Expand | jules/src/superopt/superopt.cpp:1252-1440 | where neither table nor budget gives out, the whole alphabet is tried up to the limit per pop: each admissible candidate free of faults has its fingerprint on record at its cost or less, and what improved a record is queued |
| SuperSearch.NoWinnerMissed | jules/src/superopt/superopt.cpp:1195-1279 | unless fingerprints collide, a search that drained its queue within its budgets has left no instruction of the alphabet behind that would have won by itself |
| SuperSearch.PopStep | jules/src/superopt/superopt.cpp:1195-1250 | keeps all entries truthful; stops at a program that meets the contract, which wins exactly when it is smaller |
| SuperSearch.Search | jules/src/superopt/superopt.cpp:1157-1440 | a winner meets the contract, obeys definedness and is smaller in (cost, length); no winner means a goal that is not smaller, the window's or the function's pops used up, a full table, or nothing left, and then all candidates of all expanded states have been followed up if the constructions sufficed |
| SuperSearch.Improve | jules/src/superopt/superopt.cpp:1092-1490 | a program kept runs without fault and matches the original window's own result on all eight seeded batches, and the solver does not object, or proves it where a proof is required; one found is dropped exactly when some batch or the solver tells them apart; a window that faults is skipped |
| SuperSearch.ImproveAll | jules/src/superopt/superopt.cpp:1078-1092 | windows are worked through in order within the function's budget of pops, and any left over had none left; at most one certified program a window |
| SuperSearch.RunKeepsPads | jules/src/superopt/superopt.h:76-89 | under a table that treats pad lanes alike, every state a program reaches from uniform pads has uniform pads |
| Dominators.Reach | jules/src/targets/x86_64/x64_ilp_isel.cpp:93-107 | marks exactly the blocks reachable from the entry |
| Dominators.UpdateShrinks | jules/src/targets/x86_64/x64_ilp_isel.cpp:123-142 | an update only removes, and never removes a dominator |
| Dominators.SolvedOnlyDominators | jules/src/targets/x86_64/x64_ilp_isel.cpp:109-144 | at a fixpoint every member of a block's set lies on every path to it |
| Dominators.Sweep | jules/src/targets/x86_64/x64_ilp_isel.cpp:121-144 | a sweep with a change makes the sets smaller; one without has solved the equations |
| Dominators.ComputeDominators | jules/src/targets/x86_64/x64_ilp_isel.cpp:93-144 | for reachable b, k is in b's set if and only if every path from the entry to b passes k |
| Dominators.LoopBody | jules/src/targets/x86_64/x64_ilp_isel.cpp:152-166 | marks the header and whatever reaches the latch by a path on which the header is not passed through |
| Dominators.BodyIsNaturalLoop | jules/src/targets/x86_64/x64_ilp_isel.cpp:85-87 | for a latch other than the header that is the natural loop |
| Dominators.SelfLoopBody | jules/src/targets/x86_64/x64_ilp_isel.cpp:152-166 | for a block that loops to itself it is the natural loop if and only if the block has no other predecessor |
| Dominators.ComputeLoops | jules/src/targets/x86_64/x64_ilp_isel.cpp:88-171 | a block's depth is the number of backedges whose marked body holds it |
| Pratt.ExprSound | jules/src/core/parser/parser.cpp:848-867 | a parse consumed exactly the tokens of its form; left operands bind at least as tightly as their operator, right ones more tightly |
| Pratt.ExprComplete | jules/src/core/parser/parser.cpp:848-867 | every such form within the nesting limit is parsed back where its tokens stand |
| Pratt.ParsesExactly | jules/src/core/parser/parser.cpp:848-867 | the parser returns a form if and only if it is such a reading of the tokens ahead |
| Pratt.Unambiguous | jules/src/core/parser/parser.cpp:830-846 | no two proper forms have the same tokens |
| Pratt.TwoOperators | jules/src/core/parser/parser.cpp:830-866 | of two binary operators between three atoms the one of the later class takes the middle operand, of one class the first; the ten classes are written as sets of tokens |
| Pratt.PrefixShapes | jules/src/core/parser/parser.cpp:893-1040 | prefix operators and dereference bind tighter than every binary operator, indexing tighter than those |
| Pratt.ParsedHasOperators | jules/src/core/parser/parser.cpp:830-845 | no token outside the classes ever joins operands |
| Pratt.NotCutOff | jules/src/core/parser/parser.cpp:938-1123 | an operand is not cut off in front of a call, a field, a cast or a struct literal |
| Pratt.EndsElsewhere | jules/src/core/parser/parser.cpp:851-866 | any other token that is no operator ends the expression |
| Pratt.DeepestParens | jules/src/core/parser/parser.cpp:66-76 | an atom may stand in 511 pairs of parentheses and no more |
| Pratt.WriteIsLeast | jules/src/core/parser/parser.cpp:1112-1117 | no way of writing a tree has fewer tokens, or nests less, than the one with parentheses only where needed |
| Pratt.RoundTrip | jules/src/core/parser/parser.cpp:848-867 | writing a tree with least parentheses and parsing it gives the tree back if and only if the nesting limit allows it |
| Pratt.MinimalIsEnough | jules/src/core/parser/parser.cpp:1112-1117 | a tree that parses in any spelling parses in the least one |
| Pratt.Parser.Expression | jules/src/core/parser/parser.cpp:848-867 | the parser with its cursor, depth and error flag builds the specified tree and stops at the specified token, or reports an error |
| Pratt.Parser.Unary | jules/src/core/parser/parser.cpp:893-936 | the same for prefix operators |
| Pratt.Parser.Postfix | jules/src/core/parser/parser.cpp:938-1040 | the same for dereference and indexing |
| Pratt.Parser.Primary | jules/src/core/parser/parser.cpp:1042-1123 | the same for atoms and parentheses; a name followed by `{ field :` is told apart from one before a block |

## Left out

- FlowNets.SpfaPath: distances are unbounded and absent where unreached; the 64-bit width and the sentinel INT64_MAX / 4 are not modelled, nor is the 32-bit width of costs and capacities elsewhere.
- Hybrid.RallocHybrid: supposes distinct range ids, registers listed once per class and generations inside hulls, which the target owes the allocator; numbers are unbounded.
- Hybrid.SelectedArePlaced: nothing is promised for a class with a range that ends before it begins, or that begins with a use and ends at once where another begins with a definition.
- SlotRecolor.Recolor: slot addresses are values of their own: that an escaped slot's cell is not reached through a neighbour's address is taken as given. All runs are promised only where the analysis finds all needs; the exact condition on runs is that of `SlotWriters.RecoloredRunsIff`.
- SuperCommits.ReturnsAgree: that every window's program is equivalent to the window on its contract from every state is a hypothesis, which sampling batches and the solver stand for.
- SuperMarks.MissedNeedBreaks: the location is read by an instruction that can fault or by a return; a branch that reads it may go the same way in the end, and nothing is said of one.
- SuperCommits.ReturnsBack: where the original faults or leaves its code the new code may return; the hypothesis of equivalence promises nothing there.
- SuperSearch.Expand: the operand pools are abstracted to an alphabet of instructions; how rows and pools are enumerated is not modelled.
- SuperSearch.NoWinnerMissed: a state is expanded once, at the cost it had when first popped, so a winner of several instructions can be missed; `SuperSearch.Exhausted` says what was followed up.
- SuperSearch.Search: the contract is met on the lanes of the batch searched, which is all the search looks at.
- SuperSearch.Improve: the solver is a function from programs to verdicts; what it proves is not modelled. That the vector kernel's table treats pad lanes alike is a hypothesis, which the instruction set's own simulations owe.
- ProbeTables.Capacity: requests are below 2^32, the width of the budgets; positions are taken modulo the size, which is the masking when the size is a power of two.
- Fingerprint.Construct: the hash table is any table with zeros in the padding lanes; how it is filled is not modelled. The simulated instruction's result is an input.
- SonFunction.LoweringIsCorrect: statements are opaque effects, tests and bounds; variables, types, structs, expressions and the phi nodes of variables are not modelled, so names that resolve differently where a deferred body is emitted are not either. Unreachable statements are skipped as the builder skips them.
- SonFnBuilder.FnBuilder.Build: parameters, struct returns and the report of errors, such as too many returns for the stop node, are not part of it.
- Pratt.Parser.Expression: calls, method calls, field access, casts, struct literals and `comptime` are not part of the syntax modelled; where the parser would go on with one, the model reports an error. All literals are one kind of atom, names another. After a first error only that the error is kept is stated, not where the cursor goes.
- MagicDiv.UMagicDiv: the recipe's arithmetic, not the instructions emitted for it.
- Dominators.ComputeLoops: predecessor and successor lists are taken to agree.
- Bit sets, slot sets and activity bitmaps are sets; the queue of the search is a sequence scanned for its first element.
- Environment knobs, telemetry, traces, audits and debug output.
- The emitters, the borrow checker, symbol lookup and type checking, the ELF writer and the remaining folds of the machine passes.
