# Verified models of the solvers and shared tables

These Dafny modules model the parts of the repository where a small mistake would make a SAT or backbone answer wrong, and prove that the code's algorithms give right answers. `dafny verify dfyconfig.toml` checks everything.

The modules follow the program:

- **YalSAT** (`solvers/yalsat/yals.c`). `Cnf` fixes what formulas and models are. `Yals` adds clauses, simplifies, searches and reads the assignment; `Propagation` is unit propagation with two watched literals and compaction in place; `Occurrences` builds the occurrence index in four passes; `Tally` and `Search` are the flip loop with its counters, critical literals, break weights, best assignment and restarts; `History` says what a whole search is, flip by flip and restart by restart; `Unsat` and `UnsatQueue` hold the falsified clauses, on a stack with positions or on a queue of links cut from chunks; `Luby` is reluctant doubling and the restart limits; `Stride` is the coprime walk over the cache.
  The main result is the contract of `Yals.Solver.Sat`: whatever the strategy, the random choices and the restarts, after 10 every clause ever added has a literal that `yals_deref` reads as true, after 20 there is no model, and 0 is given only by a whole search that reached a limit, a target above zero or the end of its budget.
- **TaSSAT** (`solvers/tassat/yals.c`). `Weights`, `Transfer` and `Liwet` are the search by weight transfer, `WeightedRuns` its runs as a step system, and `FalseMinima` the runs that go wrong: all weight sums and the candidate variables stay exact, a flip lowers the weight of the falsified clauses by exactly its gain, and transfers keep the total.
- **plingeling** (`solvers/lingeling/plingeling.c`). `ClausePool` is the shared pool of clauses under every interleaving of its workers.
- **treengeling** (`solvers/lingeling/treengeling.c`). `CubeTree` is the step system of cubes, leaf clauses and units; `Scheduler` holds the node array and leaf list that refine its steps, and `Rounds` says what a run of rounds is, so that no answer comes without the work.
- **blimc** (`solvers/lingeling/blimc.c`). `Circuit` is the circuit, its runs and its cone of influence; `Unroll` the encoding, renumbering and unrolling, as a compiler proved right against runs of the circuit; `Unnumbered` when the bad literal can lose its number.
- **Shared tables** (`src/containers`). `Claims` is the ownership of blocks over several ranks, `Board` the board of backbone statuses, and `BruteForce` the enumeration of `scripts/check_backbone.py` as its executable specification. `RefCount` is the clause queue with reference counts, `ClauseEq` clause equality and hashing.
- **lglddtrace** (`solvers/lingeling/lglddtrace.c`). `DeltaDebug` is the removal of events from a trace.

`Finite` holds a few facts about finite sets and powers of two that several modules use.

Code that changes things step by step is a class or a method over arrays, proved against functions on sequences; threads and processes are step systems in which any enabled step may come next. Random choices, thread schedules and the initial assignments of restarts are left open, so the results hold for all of them. Solvers that are called but not modelled (lingeling) enter as contracts on what they answer.

## What turned out to be different from what one may expect

- `gcls` (plingeling.c:554-583) either frees every live clause or none: counters never grow along the slots (`ClausePool.AllOrNothing`). An early release of only a part of the pool does not happen.
- The assertion at blimc.c:448-452 that the bad literal has a number holds exactly if the literal is a latch or input of the cone, feeds a latch of it, or is mentioned by the simplified clauses (`Unroll.BadMappedExactly`). With witnesses, when inputs are frozen, it always holds (`Unroll.BadIsMapped`). Without them it can fail (`Unroll.UnmappedBad`), for exactly those circuits whose bad literal is none of these and can have either value whatever the latches and what feeds them show (`Unnumbered.UnnumberedExactly`).
- `areClausesEqual` (ClauseUtils.cpp:37-60) decides set equality for every right-hand clause exactly if the left clause has no repeated literal (`ClauseEq.ScanRightExactly`): each repeat leaves room for a foreign literal on the right (`ClauseEq.RepeatsFool`).
- Reluctant doubling on 32-bit words has a period: after exactly 2^33 - 34 calls the counter returns to zero and the sequence starts again (`Luby.LastState`, `Luby.Restarts.NextReluctant`). The values agree with the Luby sequence for one call more than that, and no longer (`Luby.FirstDifference`).
- TaSSAT's candidates cover all variables with a gain exactly if no other true literal has a weight sum below zero (`Weights.CandidatesSuffice`), and what it takes for a local minimum is one exactly under the same condition, variable by variable (`Liwet.WeightedSearch.LocalMinimum`). Whether that can happen is decided by the options, exactly (`FalseMinima.SafeExactly`): weights stay at least zero over every run with the constant rule if a giver needs the base weight or the initial share is zero, with the linear rule if the initial share is zero, or the base share is zero, or a giver needs the base weight and current and base share are together at most one, and with the second linear rule if a giver needs the base weight. For all other options there is a run, with starts and restarts from any assignment and any draws, that ends below zero, where the search moves weight although a flip gains. The default options are among those (`FalseMinima.DefaultFails`).

## Model

| member | source | states |
|---|---|---|
| Yals.Solver.Sat | solvers/yalsat/yals.c:3021-3092 | End to end: after 10 every clause ever added has a literal that reads true, after 20 they have no model, and 0 comes only after a whole search that reached a limit, a target above zero or the end of its budget; with propagation on or off, over every restart; it aborts exactly on an unfinished clause, or when more clauses remain than the packed cells can tell apart |
| Yals.Solver.Deref | solvers/yalsat/yals.c:3096-3100 | Reads that same assignment, for every literal once an answer is there: 1 exactly for its true literals |
| Yals.Solver.DerefSatisfies | solvers/yalsat/yals.c:3096-3100 | In a model every clause has a literal that reads true |
| Yals.Solver.Add | solvers/yalsat/yals.c:2643-2669 | Collects one clause at a time while the stored clauses keep meaning what was added; which literals abort |
| Yals.Solver.CloseClause | solvers/yalsat/yals.c:2661-2668 | The closed clause joins what was added: tautologies are dropped, repeated literals removed, and the models stay |
| Yals.Solver.NewClause | solvers/yalsat/yals.c:2622-2639 | The clause goes on the stack with its zero; empty and unit clauses are noted |
| Yals.Solver.Simplify | solvers/yalsat/yals.c:3032-3039 | After propagation the clauses and the trail mean what was added, or nothing satisfies it |
| Yals.Solver.Connect | solvers/yalsat/yals.c:2037-2303 | The search starts from an exact index and masks; it aborts exactly when there are too many clauses |
| Yals.Solver.BuildSearch | solvers/yalsat/yals.c:2087-2092 | Refused exactly when the packed cells could not hold the clause indices |
| Yals.Solver.NewSearch | solvers/yalsat/yals.c:2274-2303 | The search stands where no assignment was visited yet, with the intervals of the options |
| Yals.Solver.RunSearch | solvers/yalsat/yals.c:3074-3081 | A whole search took place; 10 exactly if it ended at an assignment that falsifies nothing, and then that is a model of all that was added |
| Yals.Solver.CheckAssignment | solvers/yalsat/yals.c:2991-3001 | Finds out exactly whether every original clause has a true literal; after a search it always does, so the final abort never happens |
| Yals.Solver.UnitMasks | solvers/yalsat/yals.c:2263-2271 | The masks force exactly the unit literals |
| Yals.BestModels | solvers/yalsat/yals.c:867-893 | A best assignment without falsified clauses is a model of the clauses on the stack and of all that was added |
| Yals.StoreClause | solvers/yalsat/yals.c:2622-2639 | Storing the normalised clause keeps the models and the trail of units |
| Yals.DropTautology | solvers/yalsat/yals.c:2665 | A clause with complementary literals may be left out |
| Yals.PropagatedSimplifies | solvers/yalsat/yals.c:1547-1657 | What propagation leaves is what the search needs: no empty clause, no clause mentioning the trail |
| Propagation.Preprocess | solvers/yalsat/yals.c:1547-1657 | Conflict only for an unsatisfiable formula; otherwise remaining clauses and trail have the models of the input, clauses have at least two literals, and share no variable with the trail |
| Propagation.PropagationResult | solvers/yalsat/yals.c:1573-1645 | The same, from the watch invariant once the trail is propagated |
| Propagation.Propagate | solvers/yalsat/yals.c:1573-1611 | Propagates the whole trail, keeping the watch invariant and every derived unit entailed |
| Propagation.PropagateLiteral | solvers/yalsat/yals.c:1574-1610 | One literal of the trail: its watches are visited while the list is rewritten |
| Propagation.VisitClause | solvers/yalsat/yals.c:1587-1607 | One watched clause: keep, move the watch, derive a unit, or find the conflict |
| Propagation.FindReplacement | solvers/yalsat/yals.c:1594-1596 | The replacement is the first literal that is not false, or all others are false |
| Propagation.ConnectWatches | solvers/yalsat/yals.c:1561-1571 | The initial watches satisfy the watch invariant |
| Propagation.SwapStores | solvers/yalsat/yals.c:1591-1597 | Reordering inside a clause changes no clause |
| Propagation.SwapWatched | solvers/yalsat/yals.c:1591-1592 | Exchanging the two watched literals keeps all watches |
| Propagation.MoveWatch | solvers/yalsat/yals.c:1596-1599 | Moving a watch to a literal that is not false keeps the watch invariant |
| Propagation.DropWatch | solvers/yalsat/yals.c:1593-1602 | A watch may go when the other watched literal is on the trail |
| Propagation.UnitEntailed | solvers/yalsat/yals.c:1600-1606 | The last literal that is not false is entailed by the formula |
| Propagation.AssignInv | solvers/yalsat/yals.c:1581-1584 | Assigning the next literal of the trail keeps the invariant |
| Propagation.NoUnitsLeft | solvers/yalsat/yals.c:1630-1639 | Completeness: after propagation every clause is satisfied or has two unassigned literals |
| Propagation.Compact | solvers/yalsat/yals.c:1624-1645 | Compaction in place: the write position never overtakes the read position, and what is written is the reduced formula |
| Propagation.ScanClause | solvers/yalsat/yals.c:1627-1629 | Finds the end of the clause and whether it is satisfied, reading only cells not overwritten |
| Propagation.KeepClause | solvers/yalsat/yals.c:1630-1639 | Copies exactly the unassigned literals, without touching what is still to be read |
| Propagation.ReducedMembers | solvers/yalsat/yals.c:1624-1643 | The reduction consists of the unsatisfied clauses without their false literals, no more and no fewer |
| Propagation.ReducedModels | solvers/yalsat/yals.c:1624-1643 | Under every assignment that extends the trail the formula and its reduction agree |
| Occurrences.Connect | solvers/yalsat/yals.c:2106-2229 | Count, place, fill and rewind yield, for each literal, the list of exactly the clauses with it |
| Occurrences.CountOccurrences | solvers/yalsat/yals.c:2108-2121 | First pass: the number of occurrences of each literal |
| Occurrences.PlaceLists | solvers/yalsat/yals.c:2123-2156 | Second pass: one empty, terminated list per literal, disjoint and filling the buffer exactly |
| Occurrences.FillLists | solvers/yalsat/yals.c:2204-2216 | Third pass: every clause is entered in the lists of its literals |
| Occurrences.RewindReferences | solvers/yalsat/yals.c:2218-2229 | Last pass: every reference is back at the start of its list |
| Occurrences.ClauseOffsets | solvers/yalsat/yals.c:2096-2104 | The offset of each clause on the stack |
| Occurrences.Measure | solvers/yalsat/yals.c:2048-2068 | The number of clauses, and the length of the longest |
| Occurrences.OccListExact | solvers/yalsat/yals.c:2204-2216 | Each clause with the literal once, in order, and nothing else |
| Occurrences.ListsApart | solvers/yalsat/yals.c:2145-2156 | Lists of different literals never share a cell |
| Occurrences.ReadOcc | solvers/yalsat/yals.c:1478-1483 | A negative cell is met exactly at the end of the list, a cell before it names a clause with the literal |
| Occurrences.ListInPlace | solvers/yalsat/yals.c:2218-2229 | The buffer holds the list and its terminator at the reference of the literal |
| Occurrences.Unpack | solvers/yalsat/yals.c:2213 | Unpacking a cell gives the clause index and the capped length back |
| Occurrences.PackIsShift | solvers/yalsat/yals.c:1480-1481 | The same with the shift and mask on 32-bit words, and the word is not negative |
| Tally.XorUndo | solvers/yalsat/yals.c:774-827 | Exclusive or takes a literal out again, whichever order they came in |
| Tally.XorFits | solvers/yalsat/yals.c:774-827 | The critical literal always fits the width of a literal |
| Tally.NoneTrue | solvers/yalsat/yals.c:1946-1979 | The count is zero exactly for the falsified clauses, and nothing is critical then |
| Tally.OneTrue | solvers/yalsat/yals.c:795-826 | With a count of one, the exclusive or is the only true literal |
| Tally.FlipTally | solvers/yalsat/yals.c:1467-1526 | What one flip does to count and exclusive or of any normalised clause |
| Tally.HeldIsBroken | solvers/yalsat/yals.c:1027-1063 | The weight held by the negated literal alone, read from the counters, is the weight that flipping breaks |
| Tally.MakeStep | solvers/yalsat/yals.c:1467-1496 | One visited clause of the literal made true |
| Tally.BreakStep | solvers/yalsat/yals.c:1498-1526 | One visited clause of the literal made false |
| Tally.FlipDone | solvers/yalsat/yals.c:1534-1543 | When both lists are visited all counters are those of the flipped assignment |
| Tally.CounterUpdate | solvers/yalsat/yals.c:774-827 | Which break weights change when the counters of a clause do |
| Tally.NoOverflow | solvers/yalsat/yals.c:728-752 | Break weights fit 32 bits as long as the packed cells can hold the clause indices |
| Tally.BrokenStep | solvers/yalsat/yals.c:1047-1058 | What one clause adds to a scanned break weight |
| Tally.CounterFits | solvers/yalsat/yals.c:2279-2288 | A counter of the width chosen for the longest clause cannot wrap around |
| UnsatQueue.BackPointersExact | solvers/yalsat/yals.c:929-958 | A clause has a back pointer exactly if it is queued, and is queued once |
| UnsatQueue.Queue.EnqueueLnk | solvers/yalsat/yals.c:929-936 | The link goes to the end of the doubly linked list |
| UnsatQueue.Queue.DequeueLnk | solvers/yalsat/yals.c:938-958 | The link leaves, wherever it is, and the order of the others stays |
| UnsatQueue.Queue.LargerNewChunk | solvers/yalsat/yals.c:1376-1404 | All links of a chunk of twice the size become free; `nlnks` is the capacity of all chunks |
| UnsatQueue.Queue.NewLnk | solvers/yalsat/yals.c:1406-1416 | A link that is neither queued nor free any more |
| UnsatQueue.Queue.Enqueue | solvers/yalsat/yals.c:1418-1430 | Appends to the abstract sequence |
| UnsatQueue.Queue.Dequeue | solvers/yalsat/yals.c:1336-1352 | One entry leaves, wherever it is in line, and the links never stay sparse enough to need defragmentation |
| UnsatQueue.Queue.Defrag | solvers/yalsat/yals.c:1276-1325 | The sequence is unchanged, all in one chunk that is no larger than the chunks were |
| UnsatQueue.Queue.Rotate | solvers/yalsat/yals.c:988-994 | The first clause goes to the end (unfair breadth first search) |
| UnsatQueue.Queue.FlushBackPointers | solvers/yalsat/yals.c:1233-1248 | No clause has a back pointer any more |
| UnsatQueue.Queue.Reset | solvers/yalsat/yals.c:1270-1274 | An empty queue without chunks |
| UnsatQueue.Queue.constructor | solvers/yalsat/yals.c:1270-1274 | An empty queue |
| Unsat.Stack.Enqueue | solvers/yalsat/yals.c:1432-1440 | Pushes a clause not on the stack, and its position |
| Unsat.Stack.Dequeue | solvers/yalsat/yals.c:1354-1367 | The top clause takes the place and the position of the one that leaves |
| Unsat.Stack.Reset | solvers/yalsat/yals.c:1449-1458 | Empty, and no clause has a position |
| Unsat.UnsatSet.Enqueue | solvers/yalsat/yals.c:1442-1447 | Adds a clause, on stack or queue |
| Unsat.UnsatSet.Dequeue | solvers/yalsat/yals.c:1369-1374 | Removes a clause, on stack or queue |
| Unsat.UnsatSet.Reset | solvers/yalsat/yals.c:1460-1463 | Removes all |
| Unsat.UnsatSet.Pick | solvers/yalsat/yals.c:981-1023 | The pick is a falsified clause, and the set stays: the first or last in line, the one at the position of the flip count, or the first after the first in line may have gone to the end |
| Search.LocalSearch.IncSatCnt | solvers/yalsat/yals.c:774-799 | Count, critical literal and break weights of a clause with one more true literal |
| Search.LocalSearch.DecSatCnt | solvers/yalsat/yals.c:801-827 | The same with one true literal fewer |
| Search.LocalSearch.MakeClauses | solvers/yalsat/yals.c:1467-1496 | Every clause with the literal is counted up once, the made ones leave the unsatisfied set |
| Search.LocalSearch.BreakClauses | solvers/yalsat/yals.c:1498-1526 | After it all incremental state is that of the flipped assignment |
| Search.LocalSearch.FlipLiteral | solvers/yalsat/yals.c:1224-1229 | Flipping a false literal ends with all state equal to its recomputation |
| Search.LocalSearch.Flip | solvers/yalsat/yals.c:1534-1543 | A literal of a falsified clause is flipped as the strategy allows; everything stays in step, units stay true, both minima are updated for the new assignment, nothing else changes |
| Search.LocalSearch.DynamicBreakExact | solvers/yalsat/yals.c:1027-1031 | The weight kept up to date is exactly the weight of the clauses that the flip falsifies |
| Search.LocalSearch.ComputedBreak | solvers/yalsat/yals.c:1038-1063 | Scanning the clauses of the negated literal finds that very weight |
| Search.LocalSearch.BreakOf | solvers/yalsat/yals.c:1065-1075 | Either mode gives the weight that the flip falsifies |
| Search.LocalSearch.PickLiteral | solvers/yalsat/yals.c:1133-1220 | A literal of the clause; eager choices have a least break weight, unless a walk is on and every literal of the clause breaks something |
| Search.LocalSearch.Candidates | solvers/yalsat/yals.c:1143-1160 | The candidates are literals of the clause, and the best weight is least |
| Search.LocalSearch.CountIsFalsified | solvers/yalsat/yals.c:856-859 | The size of the unsatisfied set is the number of falsified clauses |
| Search.LocalSearch.SaveNewMinimum | solvers/yalsat/yals.c:867-893 | The assignment counts as visited; each minimum and its assignment change exactly if it falsifies fewer clauses, and hits of the best are counted |
| Search.LocalSearch.UpdateSatAndUnsat | solvers/yalsat/yals.c:1946-1979 | From any assignment, everything is recomputed, and every clause has the weight that the strategy gives its length |
| Search.LocalSearch.TallyClause | solvers/yalsat/yals.c:1957-1966 | Count and exclusive or of the true literals |
| Search.LocalSearch.PickAssignment | solvers/yalsat/yals.c:1865-1921 | The best or the current assignment as the options say, otherwise by polarity, from the cache or at random, always with the units true |
| Search.LocalSearch.SetUnits | solvers/yalsat/yals.c:1830-1844 | Bits to clear and bits to set, on every variable |
| Search.LocalSearch.RestartInner | solvers/yalsat/yals.c:2853-2876 | When the best has improved since the last restart nothing but the restart limit and count changes; otherwise a new assignment under a new strategy is taken, counted, and saved as the first of its stretch |
| Search.LocalSearch.Restart | solvers/yalsat/yals.c:2978-2982 | The new assignment is taken as the options allow, under exactly the given strategy and its weights, and becomes the minimum of the new stretch |
| Search.LocalSearch.Done | solvers/yalsat/yals.c:2880-2915 | 1 exactly if few enough clauses are falsified, else -1 exactly if a limit is reached or the caller asks to stop |
| Search.LocalSearch.InnerLoop | solvers/yalsat/yals.c:2923-2931 | A path of flips and restarts, each taken when it is due; it ends at the target, at a limit, at an outer restart, or after exactly as many iterations as the budget allows |
| Search.LocalSearch.OuterLoop | solvers/yalsat/yals.c:2974-2987 | A whole search: rounds from new assignments, an outer restart with doubled interval between them, until the target, a limit or the end of the budget |
| Search.LocalSearch.RestartOuter | solvers/yalsat/yals.c:2947-2972 | The next outer limit is an interval away, and the interval doubles, both saturating |
| Search.LocalSearch.InitOuterRestartInterval | solvers/yalsat/yals.c:2933-2944 | The first outer limit is a multiple of the base interval away, or never |
| History.SolvedAtEnd | solvers/yalsat/yals.c:2974-2987 | A search stops at the first model it meets: its minimum is zero exactly if its last assignment falsifies nothing |
| History.FlipLimitKept | solvers/yalsat/yals.c:2880-2890 | No search makes more flips than its limit |
| History.AnswersNow | solvers/yalsat/yals.c:3074-3081 | What the end of a whole search says about the answer 10 or 0 |
| History.MoveSound | solvers/yalsat/yals.c:2923-2931 | One iteration keeps the minimum right |
| Search.MasksForce | solvers/yalsat/yals.c:1830-1844 | Masking any assignment makes the unit literals true |
| Search.MaskedFlip | solvers/yalsat/yals.c:1534-1543 | A flip of a literal of a clause never touches a unit |
| Search.TracksNext | solvers/yalsat/yals.c:867-893 | One more visited assignment: the best is still the best of all visited |
| Search.LenToWeight | solvers/yalsat/yals.c:1934-1944 | The weight of a length under each strategy: the same for all, the lesser of length and limit, or falling with the length down to 1 |
| Luby.ReluctantIsLuby | solvers/yalsat/yals.c:663-665 | Started at (1, 1), the n-th value is the n-th term of the Luby sequence, for every n |
| Luby.RunsBlock | solvers/yalsat/yals.c:663-665 | From any multiple of 2^k the next values are a whole block, with the state after it |
| Luby.BlockIsLuby | solvers/yalsat/yals.c:663-665 | The blocks list the recursive definition |
| Luby.TameStep | solvers/yalsat/yals.c:663-665 | One step on 32-bit words is the step on numbers unless the counter returns to zero, which is from (2^32 - 1, 1) only |
| Luby.LastState | solvers/yalsat/yals.c:663-665 | The state (2^32 - 1, 1) comes exactly once, after 2^33 - 35 steps, and before that no counter exceeds 32 bits |
| Luby.WordStep | solvers/yalsat/yals.c:663-665 | Within a period the words follow the numbers, and are back at zero after it |
| Luby.FirstDifference | solvers/yalsat/yals.c:2804-2810 | The values on words agree with the Luby sequence for 2^33 - 33 calls, and no longer |
| Luby.Restarts.NextReluctant | solvers/yalsat/yals.c:2804-2810 | For every call: the next Luby term times the unit, counted from the start of the period; the counter is zero exactly after whole periods of 2^33 - 34 calls |
| Luby.Restarts.IncInnerRestartInterval | solvers/yalsat/yals.c:2799-2840 | For every call: the limit is that many flips from now, and saturates exactly instead of overflowing |
| Luby.Restarts.Init | solvers/yalsat/yals.c:2917-2921 | The sequence starts afresh, and the first restart is due at once |
| Stride.Gcd | solvers/yalsat/yals.c:1684-1690 | The greatest common divisor |
| Stride.CoprimeDivides | solvers/yalsat/yals.c:1758-1782 | Euclid's lemma |
| Stride.CoprimeStride | solvers/yalsat/yals.c:1759-1765 | The search for a stride ends with the largest one that is coprime |
| Stride.WalkDistinct | solvers/yalsat/yals.c:1767-1782 | No entry is met twice within one round |
| Stride.WalkReturns | solvers/yalsat/yals.c:1767-1782 | After as many strides as entries the walk is back at the start |
| Stride.Finished | solvers/yalsat/yals.c:1767-1782 | Back at the start for the first time, every entry has been visited exactly once |
| Stride.PickReplaced | solvers/yalsat/yals.c:1758-1790 | The loop meets every entry once, and picks one of the greatest minimum exactly if that is worse than the new minimum |
| Weights.KeptUpdate | solvers/tassat/yals.c:2043-2124 | All weight sums follow a change of one clause by that clause's share |
| Weights.CountedVar | solvers/tassat/yals.c:5239-5304 | A variable is counted exactly if it is in a falsified clause |
| Weights.GainExact | solvers/tassat/yals.c:4819-4852 | The gain read from two sums is exactly what the flip takes off the weight of the falsified clauses |
| Weights.OnlyCountedGain | solvers/tassat/yals.c:4980-4990 | A literal of no falsified clause gains exactly if the clauses that its negation holds alone weigh less than nothing; so never when no weight is negative |
| Weights.CandidatesSuffice | solvers/tassat/yals.c:4980-4990 | The candidates miss no gain exactly if no true literal of another variable has a sum below zero |
| Weights.TransferNonnegative | solvers/tassat/yals.c:4014-4015 | A transfer leaves all weights at least zero exactly if neither side is asked for more than it has |
| Transfer.AffordableExactly | solvers/tassat/yals.c:3906-3949 | Which options never ask a clause for more than it has, whatever weight from the least that may give |
| Transfer.AmountNonnegative | solvers/tassat/yals.c:3906-3949 | No rule moves a negative amount |
| WeightedRuns.SafeRun | solvers/tassat/yals.c:3906-4043 | Over every run from the base weights, safe options keep all weights at least zero |
| WeightedRuns.StuckIsTrue | solvers/tassat/yals.c:4980-4990 | With no weight below zero, no gain of a candidate means no gain at all |
| WeightedRuns.RunAtMinima | solvers/tassat/yals.c:4095-4131 | Over a whole run under safe options, weight is moved at true local minima only |
| FalseMinima.SafeExactly | solvers/tassat/yals.c:3906-4043 | Over all runs from the base weights: no weight falls below zero, and every minimum is a true one, exactly if the options are safe |
| FalseMinima.UnsafeFails | solvers/tassat/yals.c:3906-4043 | For all other options there is a satisfiable formula without units and a run that ends below zero, stuck where a flip gains |
| FalseMinima.UnsafeSteep | solvers/tassat/yals.c:3932-3940 | So for the linear rule among clauses of at least the base weight: one gathers just enough to fall below zero when it gives |
| FalseMinima.DefaultFails | solvers/tassat/yals.c:3932-3940 | The default options: two transfers take 100 and 17.5 from one clause, and the search takes a minimum for one that is none |
| Weights.TransferConserves | solvers/tassat/yals.c:4014-4019 | The total weight stays; the falsified clauses become heavier by what is moved |
| Weights.Relieve | solvers/tassat/yals.c:3897-3904 | What the source's literals notice of a transfer |
| Weights.Burden | solvers/tassat/yals.c:3897-3904 | What the sink's literals notice of a transfer |
| Weights.DescentBounded | solvers/tassat/yals.c:4095-4131 | Assignments of strictly falling weight are at most 2^n |
| Liwet.WeightedSearch.constructor | solvers/tassat/yals.c:4665-4736 | All clauses start with the base weight, and no candidate |
| Liwet.WeightedSearch.AddVar | solvers/tassat/yals.c:5236-5243 | The candidate set gains exactly this variable |
| Liwet.WeightedSearch.AddVars | solvers/tassat/yals.c:5245-5251 | The candidate set gains the variables of the clause |
| Liwet.WeightedSearch.DeleteVar | solvers/tassat/yals.c:5281-5290 | Leaves only if no falsified clause has it; the last candidate takes its place |
| Liwet.WeightedSearch.DeleteVars | solvers/tassat/yals.c:5275-5292 | Exactly the variables of the clause that no falsified clause has leave |
| Liwet.WeightedSearch.AddClause | solvers/tassat/yals.c:5294-5304 | The sums of the literals and the counts of the variables of one clause |
| Liwet.WeightedSearch.MakeWeights | solvers/tassat/yals.c:5039-5052 | The sums follow a clause that gains a true literal |
| Liwet.WeightedSearch.BreakWeights | solvers/tassat/yals.c:5054-5067 | The sums follow a clause that loses a true literal |
| Liwet.WeightedSearch.MakeClauses | solvers/tassat/yals.c:2043-2085 | One pass over the list of the literal made true |
| Liwet.WeightedSearch.BreakClauses | solvers/tassat/yals.c:2087-2124 | One pass over the list of the literal made false |
| Liwet.WeightedSearch.FlipLiwet | solvers/tassat/yals.c:2133-2160 | Everything equals its recomputation, and the weight of the falsified clauses drops by exactly the gain |
| Liwet.WeightedSearch.DetermineUwvar | solvers/tassat/yals.c:4819-4852 | One more candidate: the list of gainful literals and the best so far |
| Liwet.WeightedSearch.ComputeUwrvs | solvers/tassat/yals.c:4980-4990 | All candidates of positive gain, those of gain zero, and the best |
| Liwet.WeightedSearch.FindSource | solvers/tassat/yals.c:3951-3975 | A heaviest satisfied clause that shares a literal with the sink and may give, or none exists |
| Liwet.WeightedSearch.DrawSource | solvers/tassat/yals.c:3977-3989 | The first drawn clause that is satisfied and has at least the base weight, or none if every draw misses |
| Liwet.WeightedSearch.TransferToClause | solvers/tassat/yals.c:3951-4020 | All sums stay exact, and the total is conserved |
| Liwet.WeightedSearch.TransferForClause | solvers/tassat/yals.c:3951-4020 | The giver is a heaviest satisfied neighbour or drawn, the rule decides the amount, all sums stay exact; nothing is given only if every draw misses |
| Liwet.WeightedSearch.TransferWeights | solvers/tassat/yals.c:4022-4043 | A round of the step system: every falsified clause receives from one that may give, unless all draws for one of them miss; sums exact, total kept |
| Liwet.WeightedSearch.Descend | solvers/tassat/yals.c:4095-4131 | Between two transfers there are fewer than 2^n flips, and at the end no candidate gains |
| Liwet.WeightedSearch.LocalMinimum | solvers/tassat/yals.c:4095-4131 | When no candidate gains, flipping a variable does not help exactly if it is a candidate or its true literal has a sum of at least zero |
| Liwet.WeightedSearch.InnerLoop | solvers/tassat/yals.c:4095-4131 | Any number of flips and rounds is a run of the step system; sums exact and the total kept; it ends unsolved only after as many turns as the budget allows or in a round that ran out of draws; under safe options no weight falls below zero, and weight moves at true local minima only |
| Liwet.WeightedSearch.ResetLiwet | solvers/tassat/yals.c:2012-2031 | Sums, counts and candidates are back at nothing |
| Liwet.WeightedSearch.RecountClause | solvers/tassat/yals.c:2711-2720 | Count and exclusive or of the true literals |
| Liwet.WeightedSearch.UpdateSatAndUnsat | solvers/tassat/yals.c:2695-2755 | From any assignment, everything is recomputed |
| ClausePool.Run | solvers/lingeling/plingeling.c:498-630 | Over any interleaving of the workers: each gets each foreign clause at most once, in order and never its own, and at teardown every clause has been freed; in a pool that never held more than 10000 slots nothing is dropped early, and if every worker must pass a clause each received all foreign ones that left |
| ClausePool.Pool.constructor | solvers/lingeling/plingeling.c:498-535 | The empty pool |
| ClausePool.Pool.Resize | solvers/lingeling/plingeling.c:521-527 | Doubling keeps every slot |
| ClausePool.Pool.ProduceCls | solvers/lingeling/plingeling.c:498-535 | A copy of the clause is the last in the pool |
| ClausePool.Pool.DropDead | solvers/lingeling/plingeling.c:594 | The clause a worker still held is freed, once |
| ClausePool.Pool.DeleteCls | solvers/lingeling/plingeling.c:536-542 | Frees what has not been freed |
| ClausePool.Pool.Gcls | solvers/lingeling/plingeling.c:554-583 | Frees, moves the slots down and shifts all cursors, so that nobody's next clause changes |
| ClausePool.Pool.Pass | solvers/lingeling/plingeling.c:600-618 | Moving by one slot: exactly when it empties a slot of a crowded pool, a collection follows |
| ClausePool.Pool.ConsumeCls | solvers/lingeling/plingeling.c:585-630 | The next clause of another worker; skipped ones are its own, already passed, or collected early in this call or before; a call drops clauses early only if the pool held more than 10000 slots of which more than its share were empty |
| ClausePool.Pool.Release | solvers/lingeling/plingeling.c:1353-1365 | Every clause, in a slot or held by a worker, is freed |
| ClausePool.ProducedSound | solvers/lingeling/plingeling.c:498-535 | Production keeps the invariant: counters, prefix of empty slots, one place for each clause |
| ClausePool.SkippedSound | solvers/lingeling/plingeling.c:599-601 | So does moving a cursor over emptied slots |
| ClausePool.PassedSound | solvers/lingeling/plingeling.c:599-612 | So does passing a live clause, also when it is emptied |
| ClausePool.EmptiesFirst | solvers/lingeling/plingeling.c:602-608 | The slot that is emptied is the first live one, so the emptied ones stay a prefix |
| ClausePool.CollectedSound | solvers/lingeling/plingeling.c:554-583 | So does a collection |
| ClausePool.AllOrNothing | solvers/lingeling/plingeling.c:554-583 | Counters fall along the slots: a collection frees every live clause or none |
| ClausePool.DroppedSound | solvers/lingeling/plingeling.c:594 | Freeing what a worker still held never frees twice |
| ClausePool.Complete | solvers/lingeling/plingeling.c:585-630 | A clause that left the pool in the regular way has reached every other worker |
| ClausePool.SmallComplete | solvers/lingeling/plingeling.c:607-622 | While a pool never holds more than 10000 slots nothing is dropped early, so every clause that left has reached every other worker |
| ClausePool.CrowdedIs | solvers/lingeling/plingeling.c:609-610 | A collection shows that more than a share of a large pool had been emptied by enough workers |
| CubeTree.EveryRun | solvers/lingeling/treengeling.c:2356-2378 | Over every run open and closed cubes partition the assignments, and every conclusion is right: no open node or a parallel 20 means unsatisfiable, a 10 satisfiable |
| CubeTree.RunSound | solvers/lingeling/treengeling.c:2356-2378 | Every step of every run keeps the invariant |
| CubeTree.SoundConcludes | solvers/lingeling/treengeling.c:1919-1970 | What may be concluded from the invariant |
| CubeTree.NextSound | solvers/lingeling/treengeling.c:827-1015 | One step of any kind keeps it |
| CubeTree.OpenSound | solvers/lingeling/treengeling.c:827-865 | Opening the child with the negated literal |
| CubeTree.ExtendSound | solvers/lingeling/treengeling.c:1545-1568 | Extending the parent by the literal |
| CubeTree.AnswerSound | solvers/lingeling/treengeling.c:1687-1705 | The answer of a simplification or search |
| CubeTree.RefuteSound | solvers/lingeling/treengeling.c:1344-1361 | A node found inconsistent |
| CubeTree.ConsumeSound | solvers/lingeling/treengeling.c:742-755 | Taking over shared units costs a node no models |
| CubeTree.CloseSound | solvers/lingeling/treengeling.c:883-914 | Closing a refuted node; its negated cube follows from the root formula |
| CubeTree.TakeLeafSound | solvers/lingeling/treengeling.c:988-1001 | The parallel solver receives only consequences |
| CubeTree.UnitSound | solvers/lingeling/treengeling.c:732-740 | A unit of the parallel solver follows from the root formula |
| CubeTree.ParallelSound | solvers/lingeling/treengeling.c:1003-1015 | The answer of the parallel solver is about the root formula |
| CubeTree.NegatedHolds | solvers/lingeling/treengeling.c:933-944 | A leaf clause is satisfied exactly outside the cube |
| Scheduler.LeafList.EnqLeaf | solvers/lingeling/treengeling.c:954-966 | Appends to the linked list of leaf clauses |
| Scheduler.LeafList.DeqLeaf | solvers/lingeling/treengeling.c:968-980 | Takes the oldest, or nothing from an empty list |
| Rounds.WindowFits | solvers/lingeling/treengeling.c:1459-1483 | Where and how many nodes are split: the window lies within the nodes and meets the limits |
| Rounds.SplitTree | solvers/lingeling/treengeling.c:1545-1568 | A split is two steps of the system, and keeps its invariant |
| Scheduler.Conquer.SplitNode | solvers/lingeling/treengeling.c:1545-1568 | The split on the node array refines the step on cubes |
| Scheduler.Conquer.AnswerNode | solvers/lingeling/treengeling.c:1687-1705 | So does the end of a search |
| Scheduler.Conquer.RefuteNode | solvers/lingeling/treengeling.c:1344-1361 | So does the end of an inconsistent simplification |
| Scheduler.Conquer.ConsumeUnits | solvers/lingeling/treengeling.c:742-755 | Hands out exactly the units not seen before, all entailed |
| Scheduler.Conquer.ProduceUnit | solvers/lingeling/treengeling.c:732-740 | Appends a unit |
| Scheduler.Conquer.ConsumeCls | solvers/lingeling/treengeling.c:988-1001 | Hands out the oldest leaf clause, which is entailed |
| Scheduler.Conquer.RunParallel | solvers/lingeling/treengeling.c:1003-1015 | Records the answer of the parallel solver |
| Scheduler.Conquer.NewLeaf | solvers/lingeling/treengeling.c:933-944 | The clause of the negated cube |
| Scheduler.Conquer.DelNode | solvers/lingeling/treengeling.c:883-914 | The last node takes the free position, and is told so |
| Scheduler.Conquer.CloseNode | solvers/lingeling/treengeling.c:883-914 | Closing a node refines the step, and queues its leaf |
| Scheduler.Conquer.Flush | solvers/lingeling/treengeling.c:1793-1819 | Closes exactly the nodes without a solution, and queues exactly their negated cubes; 20 exactly if none is left, and then the root has no model |
| Scheduler.Conquer.Finish | solvers/lingeling/treengeling.c:1919-1970 | The answer of a round is what the tree says after closing, right for the root formula: 20 if no node is left, 10 if one was satisfied, else what the parallel solver said |
| Scheduler.Conquer.WorkOn | solvers/lingeling/treengeling.c:1687-1705 | The node takes over all units and records what its solver says of its cube and these units |
| Scheduler.Conquer.WorkAll | solvers/lingeling/treengeling.c:1734-1750 | As many consistent nodes as there are, up to the limit, record what their solvers say, and no others |
| Scheduler.Conquer.WorkParallel | solvers/lingeling/treengeling.c:988-1015 | The parallel solver receives the oldest leaf clause if there is one, and its unit and its answer are recorded |
| Scheduler.Conquer.LookAhead | solvers/lingeling/treengeling.c:1492-1541 | Every node of the window gets the literal its solver chooses, and the others none |
| Scheduler.Conquer.Split | solvers/lingeling/treengeling.c:1570-1598 | Exactly the consistent nodes with a literal are split, each adding one node |
| Scheduler.Conquer.Divide | solvers/lingeling/treengeling.c:1492-1598 | Look-ahead and split of as many nodes as the window holds are one step on the tree |
| Rounds.SplitAllMeans | solvers/lingeling/treengeling.c:1545-1568 | Splitting several nodes adds one open cube for each: it gets the negated literal, the node the literal, all other cubes stay |
| Scheduler.PicksMean | solvers/lingeling/treengeling.c:1585-1594 | The nodes with a literal are picked, each once and in order |
| Scheduler.Conquer.Solve | solvers/lingeling/treengeling.c:2356-2378 | Whatever the rounds end with is right for the root formula; it is 0 only after as many whole rounds as the budget allows, each of which searched, shared, closed, simplified and split, left a node open, found none satisfied and got no answer from the parallel solver |
| Scheduler.Conquer.OneRound | solvers/lingeling/treengeling.c:2364-2377 | One round up to where something is decided |
| Rounds.OneNode | solvers/lingeling/treengeling.c:2356-2378 | One open node whose solver decides it decides the run, in the first round |
| Rounds.AllAsked | solvers/lingeling/treengeling.c:1734-1750 | With no more open nodes than may be worked on, every one records what its solver says |
| Unroll.UnrollingCorrect | solvers/lingeling/blimc.c:397-459 | The clauses for times 0 to k with the bad literal at k are satisfiable exactly if some run from a reset state is bad after k steps |
| Unroll.UnrolledMeans | solvers/lingeling/blimc.c:397-418 | What the clauses for all times say about the slices of an assignment |
| Unroll.TimedClausesMean | solvers/lingeling/blimc.c:411-414 | A shifted copy speaks about one slice |
| Unroll.WeaveSlices | solvers/lingeling/blimc.c:387-393 | Any assignments for the times can be put together to one |
| Unroll.ShiftInjective | solvers/lingeling/blimc.c:387-393 | Variable and time can be read back from a shifted literal |
| Unroll.LogicMeans | solvers/lingeling/blimc.c:238-251 | The encoding describes constant and gates of the cone, and nothing else |
| Unroll.FixedNever | solvers/lingeling/blimc.c:567-571 | A bad literal forced to false is never reached |
| Unroll.NoLatches | solvers/lingeling/blimc.c:626 | Without latches later steps show nothing new, so stopping is right |
| Unroll.BadIsMapped | solvers/lingeling/blimc.c:448-452 | The assertion holds when the inputs are frozen: the bad literal has a number |
| Unroll.UnmappedBad | solvers/lingeling/blimc.c:448-452 | Without frozen inputs it can fail: a well-formed circuit and a permitted simplification that leave the bad literal without number |
| Unroll.BadMappedExactly | solvers/lingeling/blimc.c:433-452 | Exactly latches and inputs of the cone, what feeds its latches, and what the simplified clauses mention have a number |
| Unnumbered.UnnumberedExactly | solvers/lingeling/blimc.c:220-236 | Without frozen inputs a permitted simplification can take the number away exactly if the literal is no latch or input and feeds no latch, and may switch while all latches and what feeds them stay |
| Unroll.Checker.MapUntimedLit | solvers/lingeling/blimc.c:363-369 | A new number if there was none, and no other changes |
| Unroll.Checker.MapCnf | solvers/lingeling/blimc.c:371-377 | Renumbers all clauses in place by one injective mapping |
| Unroll.Checker.Init | solvers/lingeling/blimc.c:424-459 | Numbers latches, inputs, clauses and latch inputs, and adds exactly the reset values |
| Unroll.Checker.LinkLatches | solvers/lingeling/blimc.c:402-410 | Each latch of the cone equals its input one step before |
| Unroll.Checker.ShiftCnf | solvers/lingeling/blimc.c:397-418 | The clauses of one more time step |
| Unroll.Checker.UnrollTo | solvers/lingeling/blimc.c:586-592 | After the loop the solver holds exactly the unrolled clauses, which decide reachability at the bound |
| Unroll.Checker.Bounds | solvers/lingeling/blimc.c:586-628 | The loop over the bounds: the first step at which the bad literal is reached, none within the bound, or never |
| Unroll.BoundedCheck | solvers/lingeling/blimc.c:558-660 | From circuit to answer: whatever is answered about the bad literal is true of the circuit, and with frozen inputs it always has a number |
| Unroll.EncodeLogic | solvers/lingeling/blimc.c:244-251 | Emits the encoding of the gates of the cone |
| Circuit.TravCoi | solvers/lingeling/blimc.c:274-317 | Marks exactly what the bad literal depends on |
| Circuit.MarkFanin | solvers/lingeling/blimc.c:289-307 | Marks what feeds a variable |
| Circuit.Mark | solvers/lingeling/blimc.c:293-306 | Marks and pushes a variable that is not marked |
| Circuit.MarksFit | solvers/lingeling/blimc.c:274-317 | The stack never overflows |
| Circuit.ConeClosed | solvers/lingeling/blimc.c:274-317 | The cone is closed under what feeds it |
| Circuit.ConeDefined | solvers/lingeling/blimc.c:289-307 | Everything in the cone is constant, input, latch or gate |
| Circuit.SettleHolds | solvers/lingeling/blimc.c:238-251 | Every choice for inputs and latches settles the gates |
| Circuit.LeavesDecide | solvers/lingeling/blimc.c:238-251 | Inputs and latches of a closed set decide everything in it |
| Circuit.ClosedSuffices | solvers/lingeling/blimc.c:274-317 | Reaching the bad literal in the cone is reaching it in the circuit |
| Claims.Stabilises | src/containers/PartClaims.hpp:12-21 | Over every interleaving: when a block shows up claimed in a round's reduction, after the merges of the next round all ranks hold the same owner for ever |
| Claims.Settles | src/containers/PartClaims.hpp:12-21 | That owner is the lowest worker index that ever won a local claim |
| Claims.SettledForever | src/containers/PartClaims.hpp:12-21 | No later step of any rank changes it |
| Claims.NextSound | src/containers/PartClaims.hpp:46-74 | Every step keeps the invariant behind this |
| Claims.NeverDecreases | src/containers/PartClaims.hpp:46-74 | Owner codes only grow, and a won claim is never forgotten |
| Claims.CodeOrder | src/containers/PartClaims.hpp:38 | The lower index has the higher code |
| Claims.PartClaims.TryClaim | src/containers/PartClaims.hpp:46-50 | Succeeds exactly if the block is the caller's afterwards |
| Claims.PartClaims.Snapshot | src/containers/PartClaims.hpp:53-57 | A copy |
| Claims.PartClaims.MergeMax | src/containers/PartClaims.hpp:61-74 | Ends at or above the merged value whatever others do, at the maximum if nobody interferes, with the number of changes |
| Board.EveryRun | src/containers/CandidateBoard.hpp:83-111 | Over any interleaving of publications, copies, reductions and merges, with processes in different exchanges, every status is true of the formula |
| Board.NextSound | src/containers/CandidateBoard.hpp:76-111 | Every step keeps that; a process merges once all have copied, and waits for nobody else |
| Board.NoConflict | src/containers/CandidateBoard.hpp:108-110 | The assertion in publish never fails |
| Board.WriteOnce | src/containers/CandidateBoard.hpp:101-111 | A known status never changes |
| Board.ExchangeAgrees | src/containers/CandidateBoard.hpp:18-28 | When nobody publishes any more, processes that have merged an exchange begun after that agree for ever, whatever exchange the others are in |
| Board.TruthMeans | src/containers/CandidateBoard.hpp:18-22 | The three answers are mutually exclusive and say what they mean |
| Board.CandidateBoard.Publish | src/containers/CandidateBoard.hpp:101-111 | First writer wins; which calls report something new |
| Board.CandidateBoard.PublishBackbone | src/containers/CandidateBoard.hpp:40 | The status shows the literal afterwards, and the board stays true |
| Board.CandidateBoard.PublishFree | src/containers/CandidateBoard.hpp:43 | The status shows free afterwards, and the board stays true |
| Board.CandidateBoard.Status | src/containers/CandidateBoard.hpp:46-61 | 0 outside the range |
| Board.CandidateBoard.StatusMeans | src/containers/CandidateBoard.hpp:46-61 | What a reader may conclude |
| Board.CandidateBoard.Snapshot | src/containers/CandidateBoard.hpp:76-80 | The raw statuses, shifted by one |
| Board.CandidateBoard.Merge | src/containers/CandidateBoard.hpp:83-90 | Fills in exactly what was unknown, and counts it |
| BruteForce.BruteForceBackbone | scripts/check_backbone.py:43-82 | Satisfiability and exactly the backbone literals in order, in spite of the early exit; too many variables are refused |
| BruteForce.NothingLeft | scripts/check_backbone.py:66-70 | The early exit changes nothing |
| BruteForce.AlwaysBackbone | scripts/check_backbone.py:75-82 | The masks after all assignments are the backbone |
| BruteForce.SomeNumber | scripts/check_backbone.py:64-65 | The numbers stand for all assignments |
| BruteForce.MakeMask | scripts/check_backbone.py:48-57 | The two masks of a clause |
| BruteForce.MeetsSatisfies | scripts/check_backbone.py:65 | Meeting a mask is satisfying the clause |
| BruteForce.BoardComplete | scripts/check_backbone.py:43-82 | A true board with every variable decided shows exactly the backbone |
| BruteForce.BoardIsBackbone | scripts/check_backbone.py:43-82 | After any run of any number of boards, a decided board shows what the enumeration returns |
| ClauseEq.AreClausesEqual | src/containers/ClauseUtils.cpp:37-60 | Without repeated literals on the left: equal exactly if they have the same literals; the right index stays in bounds |
| ClauseEq.ScanExact | src/containers/ClauseUtils.cpp:45-59 | The scan from any point on |
| ClauseEq.RepeatsFool | src/containers/ClauseUtils.cpp:45-59 | For every left clause with a repeated literal there is a different clause that the scan accepts |
| ClauseEq.ScanRightExactly | src/containers/ClauseUtils.cpp:45-59 | The scan is right for every right-hand clause exactly if the left one repeats no literal |
| ClauseEq.HashClause | src/containers/ClauseUtils.cpp:63-73 | The loop computes the exclusive or over the literals |
| ClauseEq.StagesUnwind | src/containers/ClauseUtils.cpp:9-31 | Mixing loses nothing: from the three words at the end the literal and the seeds come back |
| ClauseEq.HashOfOne | src/containers/ClauseUtils.cpp:9-31 | A known hash |
| ClauseEq.HashOfMinusOne | src/containers/ClauseUtils.cpp:9-31 | Another known hash, where shifts keep the sign |
| ClauseEq.HashUnordered | src/containers/ClauseUtils.cpp:63-73 | The order of the literals does not matter |
| ClauseEq.EqualHashes | src/containers/ClauseUtils.cpp:63-73 | Equal clauses without repeats have equal hashes |
| RefCount.EveryRun | src/containers/ClauseBuffer.hpp:82-181 | Over every run: first in first out, each counter is the number of references, freed once and exactly when none is left, size exact when nothing is under way |
| RefCount.NextSound | src/containers/ClauseBuffer.hpp:82-181 | Every step of every thread keeps the invariant |
| RefCount.NoUseAfterFree | src/containers/ClauseBuffer.hpp:158-181 | No step touches a freed clause, and none is queued |
| RefCount.ClauseBuffer.AddClause | src/containers/ClauseBuffer.hpp:82-93 | Queued with one more reference, or refused without a trace |
| RefCount.ClauseBuffer.GetClause | src/containers/ClauseBuffer.hpp:158-168 | The oldest clause; the reference passes to the caller |
| RefCount.ClauseBuffer.GetClauses | src/containers/ClauseBuffer.hpp:174-181 | All clauses, in order |
| RefCount.ClauseBuffer.SizeExact | src/containers/ClauseBuffer.hpp:82-181 | The size is that of the queue |
| RefCount.ClauseBuffer.Release | src/containers/ClauseExchange.hpp:191-198 | Freed with the last reference, and only then |
| DeltaDebug.Reducer.Dd | solvers/lingeling/lglddtrace.c:501-608 | Rounds of passes over all granularities and widths, each with all its attempts; they terminate, keep the golden outcome, and end with a trace from which no single event can be dropped |
| DeltaDebug.Reducer.Pass | solvers/lingeling/lglddtrace.c:560-606 | All attempts of a granularity; a pass without change at the finest shows that every live event is needed |
| DeltaDebug.Reducer.Sweep | solvers/lingeling/lglddtrace.c:562-604 | All chunks of one width, each tried once |
| DeltaDebug.Reducer.TryChunk | solvers/lingeling/lglddtrace.c:569-602 | A chunk goes only if the outcome stays golden, otherwise everything is as before |
| DeltaDebug.Reducer.RemoveRanges | solvers/lingeling/lglddtrace.c:570-582 | Stamps exactly the live events of the chunk |
| DeltaDebug.Reducer.RestoreRanges | solvers/lingeling/lglddtrace.c:590-602 | Undoes exactly that |
| DeltaDebug.Reducer.MakeRanges | solvers/lingeling/lglddtrace.c:501-557 | Ranges are disjoint and cover the live events, and each joins the events its granularity says |
| DeltaDebug.Reducer.RangeEnd | solvers/lingeling/lglddtrace.c:508-533 | Which events a range joins: calls with their results, clauses with their closing zero, or single events |
| DeltaDebug.Reducer.constructor | solvers/lingeling/lglddtrace.c:827 | At first everything is live, and its outcome is golden |

## Left out

- The search need not end: the loops take a `budget` of iterations, after which the caller's wish to stop is taken as given, as the source's callback would; the budget fits the 64-bit flip counter.
- YalSAT stores assignments as bits in words: the model has one boolean per variable, so clearing the bits beyond the last variable does not arise.
- YalSAT's struct is split in two objects, one for adding and one for searching; the index that the search only reads is a sequence there.
- YalSAT's cache of assignments, its signatures, the score tables and the roulette: a restart that goes to the cache may take any assignment, and a pick that is not eager any literal of the clause. Random strategies may be any, whether a formula counts as uniform is an option, and which clause is picked is not part of the run's history.
- YalSAT without critical literals scans for the break weights it picks by (`useCrit` is false); the model then keeps the arrays of critical literals and break weights all the same, but reads them no more.
- YalSAT's phases, statistics, memory limits, and a second call of `yals_sat` on the same object.
- Critical literals are exclusive ors of two's complement integers of any width; `Tally.XorFits` shows that they never leave the width of their operands.
- Defragmentation takes the free links of the new chunk as fresh objects chained by address; that a link is a cell of an array is not modelled.
- TaSSAT's weights are real numbers; rounding is not modelled.
- TaSSAT's random loop for a source draws a bounded number of clauses; when none fits, the model stops where the program would draw on. Which falsified clause receives first follows the clause index, not the stack or queue. Restarts and the switch to and from the other search are not part of its inner loop.
- TaSSAT's break weights while weight transfer is active, its sorted insertion of variables, its sharing between instances, and its set of falsified clauses, which is that of YalSAT.
- TaSSAT's clauses are read from the formula, not from the clause stack.
- plingeling's sharing of units and equivalences, memory accounting, and the conversion of long slot numbers to int.
- treengeling's worker counter and condition variables, the sorting of nodes, the look-ahead heuristics, conflict and memory limits, statistics and printing of witnesses. A node is simplified again even if it was not searched since.
- Scheduler.Conquer.Solve: within a round nodes and parallel solver take turns; their free interleaving is that of `CubeTree`. The root formula is not simplified first.
- lingeling itself: its answers are right for what it was given, and simplification keeps the models as far as frozen variables show.
- blimc's freezing and melting between bounds, its clones, the printing of witnesses, and the overflow of literals beyond 32 bits.
- Claims.PartClaims.MergeMax: a failed exchange without cause (`compare_exchange_weak`) is part of the step system only; memory order is not modelled.
- The reduction over all ranks is a maximum of one contribution of each, as the class comments say; MPI calls are not modelled.
- The word sizes of owner codes and statuses appear as ranges.
- The enumeration of assignments works on bits of sequences rather than of unbounded integers, and does not read files.
- The lock-free queue is a first-in-first-out sequence changed in atomic steps; its bulk operations' returned differences and `clear` are left out, and counters do not overflow.
- lglddtrace's removal of options and renaming of variables; a run is a function of the live events, with the same outcome every time.
- Formula containers, distributed sharing, sharing strategies, command lines, files, signals and timers.
