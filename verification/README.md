# DenseCore mixture-of-experts execution layer: a verified model

DenseCore runs mixture-of-experts transformers on CPUs. This project models the part of `core/src/backend` that
decides where experts live, what is cached, in which order and on which threads they run, and proves what callers rely
on. Every module follows one component:

| file | component |
|---|---|
| `NodeDispatch.dfy` | the node task dispatcher: busy flag, try-lock fallback, post/wait handshake, nested calls |
| `ExpertSelection.dfy` | the sticky local expert set with hysteresis |
| `ExpertPlacement.dfy` | page migration, commit, registration and node records of a layer |
| `RebalanceCycle.dfy` | the rebalance thread: churn, sleep interval, stable cycles |
| `DequantCache.dfy` | the byte-budgeted cache of dequantized experts |
| `CachedWeights.dfy` | weights picked from a cache entry against weights built on the spot |
| `Reorder.dfy` | the counting sort that packs assignments by expert |
| `ForwardPlan.dfy`, `ExecutionPlan.dfy` | locality ordering, load balancing, and the execution plan |
| `ExpertRun.dfy` | claiming and running the planned items on worker threads |
| `SmallDecode.dfy` | the serial and parallel paths for small decode steps |
| `PackedPath.dfy` | the batched path end to end, and its agreement with the decode path |
| `Q4KTiling.dfy` | the tiled Q4_K dense products |
| `PluginLifecycle.dfy` | plugin handles and backends of the backend registry |
| `Int8.dfy` | symmetric INT8 quantisation |
| `Ordering.dfy`, `Arithmetic.dfy` | shared facts on sorting, sets, sums and quotients |

`dafny verify dfyconfig.toml` checks the project.

How the source is read:

- A concurrent protocol is a state machine over its atomic steps; a run is any sequence of enabled steps. A class that
  updates its fields is a class with those fields, tied to a value that the lemmas speak about.
- `std::sort` and its relatives are some sorted permutation. A map or set is iterated in any order.
- `ThreadPool::ParallelFor` runs any split of its range in any interleaving; the split the pool makes is shown to be
  one of them.
- The operating system, plugins, kernel availability and wall-clock hit rates are parameters that may answer anything.
- Expert networks, dot products, conversions and scales are functions. Where the source keeps the order of additions
  the addition is uninterpreted; where it does not, values are reals.

Where code and intent part ways the code is modelled and the difference is a result:

- `InitMoEProfiler` means to clear the local ids when the expert count changes, but the profiler has been replaced by
  then and the clear never happens (`LayerRegistry.InitProfiler` gives the exact condition under which the registry
  stays sound).
- The sleep interval is meant to shrink on a high cycle and to grow on calm ones; for a base below 250 ms a high cycle
  can lengthen it, and an interval below 4 ms never grows (`HighNeverLengthens`, `CalmReachesCap`).
- Sorting by locality is reported as applied only if it did not add switches; with an unverified item it can add one
  (`UnverifiedWorkCanGainSwitches`).
- The reported reuse union counts a repeated id of the previous batch twice (`ReuseUnionIsUnion`).
- Churn of lists with repeats can be negative, exactly when `ChurnNonNegative` says so. Only a direct caller of the
  function can see this: the hot lists of the rebalance thread have no repeats (`HotExperts`).
- A scale that does not apply leaves unscaled floats in a cache entry where the uncached construction gives up
  (`EntryServesUnscaled`), and a weight may have two sources (`BatchedPathAgrees`).
- An entry may hold more than it is charged for (`ChargeCoversEntry` gives the exact condition, `TwiceTheCharge` a
  family of experts that take twice their charge).
- A request that dequantized its expert before the experts were registered again can still install the old weights
  (`StaleInstallIsServed`); the cache is up to date exactly as long as none does (`CurrentIffNoStaleInstall`).
- A rebalance asked for more experts than are profiled may put one into the local ids that has no record; `RunKeepsSound`
  says exactly when.
- An expert with 256 rows or more is split over threads without a test for a token it lists twice. Without one the
  output is right under every interleaving (`AddRoutedRows`); with one an addition can be lost (`LostAddition`).

## Model

| member | source | states |
|---|---|---|
| NodeDispatch.StepKeeps | core/src/backend/cpu_backend.cpp:430-586 | every atomic step of any caller or helper (posting, taking, finishing, falling back, returning, a nested call) keeps the invariant that ties locks, helpers and task counts to where each call stands |
| NodeDispatch.RunKeeps | core/src/backend/cpu_backend.cpp:430-586 | the invariant holds in every reachable state of every interleaving |
| NodeDispatch.ReturnedCallsAreComplete | core/src/backend/cpu_backend.cpp:419-456 | when a call has returned, its task ran to the end exactly once for each node it asked for that the machine has (for a call on one node: exactly once) and never for another, and no helper holds it or is inside it |
| NodeDispatch.RunsWhereItBelongs | core/src/backend/cpu_backend.cpp:430-515 | a run for node 0 starts on the calling thread and one for another node on the helper of that node, unless the call runs everything itself; a call on one node starts on the helper of that node or on its own thread |
| NodeDispatch.InlineOnlyForCause | core/src/backend/cpu_backend.cpp:430-515 | a call runs everything on its own thread exactly if there is nothing to spread, another call is inside the dispatcher, or, for a call on one node, the node is unknown or its own or another call has its helper |
| NodeDispatch.NothingRunsTwice | core/src/backend/cpu_backend.cpp:478-574 | no task run is ever started twice, a helper has at most one task, and a post never replaces an unfinished one |
| NodeDispatch.WaitsForLater | core/src/backend/cpu_backend.cpp:430-515 | what an open call waits for (a call made inside a run it executes itself, or inside the run that its awaited helper executes) was made later, and from one of its own runs |
| NodeDispatch.WaitsForIsAcyclic | core/src/backend/cpu_backend.cpp:430-515 | so the waits-for relation, through a thread's own work and through the helpers it waits for, has no cycle |
| NodeDispatch.SomethingIsEnabled | core/src/backend/cpu_backend.cpp:430-574 | no deadlock: while a call is open some thread can step without a new call being made |
| NodeDispatch.StepShrinks | core/src/backend/cpu_backend.cpp:430-574 | every step other than a new call uses up one of finitely many remaining steps |
| NodeDispatch.QuietRunsDrain | core/src/backend/cpu_backend.cpp:430-574 | once no new calls are made, every run is bounded and can only stop with every call returned |
| ExpertSelection.RankPrevious | core/src/backend/cpu_backend_moe_registry.cpp:73-78 | the previous local ids, in range and without repeats, with their loads |
| ExpertSelection.Truncate | core/src/backend/cpu_backend_moe_registry.cpp:80-89 | what survives truncation are the most loaded members, of the target size |
| ExpertSelection.Candidates | core/src/backend/cpu_backend_moe_registry.cpp:91-98 | the candidates are the in-range hot ids that did not survive |
| ExpertSelection.Admit | core/src/backend/cpu_backend_moe_registry.cpp:100-121 | the admission loop under any tie-breaking: survivors leave from the bottom, candidates enter from the top, and one admitted is not evicted again |
| ExpertSelection.Select | core/src/backend/cpu_backend_moe_registry.cpp:59-129 | the result is a selection: distinct, drawn from survivors and hot ids, of the right size, and going by the loads as SelectionGoesByLoad says |
| ExpertSelection.SelectionGoesByLoad | core/src/backend/cpu_backend_moe_registry.cpp:67-119 | a local expert that goes has at most the load of any selected one, and any that joins more than 1.15 times its load; a hot expert left outside has at most 1.15 times the load of any selected one and at most that of any that joined |
| ExpertSelection.SelectionSize | core/src/backend/cpu_backend_moe_registry.cpp:62 | with in-range distinct hot ids the selection has exactly the size of the hot set |
| ExpertSelection.KeptIffStable | core/src/backend/cpu_backend_moe_registry.cpp:113-120 | a full previous set is kept if and only if no hot expert outside it exceeds a member by more than the hysteresis |
| ExpertSelection.SelectionIsAFixpoint | core/src/backend/cpu_backend_moe_registry.cpp:59-129 | selecting again from the result, with the same hot set and loads, gives the same set however either run broke ties |
| ExpertSelection.TieFreeSelectionIsUnique | core/src/backend/cpu_backend_moe_registry.cpp:59-129 | with pairwise different loads the selection is determined |
| ExpertSelection.ExchangeIsATie | core/src/backend/cpu_backend_moe_registry.cpp:100-119 | two selections from the same survivors differ only by experts of equal load |
| ExpertSelection.SelectTwice | core/src/backend/cpu_backend_moe_registry.cpp:59-129 | two runs in a row return the same set |
| ExpertPlacement.PagesAreInside | core/src/backend/cpu_backend_moe_registry.cpp:349-353 | the pages counted are exactly the pages of memory that lie inside the buffer |
| ExpertPlacement.MigrateBuffer | core/src/backend/cpu_backend_moe_registry.cpp:346-423 | a buffer is verified exactly if some page of memory lies inside it, every such page was reported on the target by a batch of 4096 that went through, and the whole range is resident there; the count is of the pages so reported; permission trouble is reported exactly when the batch of such a page met it |
| ExpertPlacement.MigrateExpert | core/src/backend/cpu_backend_moe_registry.cpp:439-446 | an expert migrated exactly if all its buffers verified and at least one page moved |
| ExpertPlacement.VerifiedHasLanded | core/src/backend/cpu_backend_moe_registry.cpp:439-446 | verified means that all pages inside each of the three buffers that are there were reported on the target |
| ExpertPlacement.ExpertInPages | core/src/backend/cpu_backend_moe_registry.cpp:439-446 | the page count of an expert is the sum over its three buffers of the pages reported on the target, and it is denied exactly if a page of one of them was |
| ExpertPlacement.Commit | core/src/backend/cpu_backend_moe_registry.cpp:459-480 | placed members of the proposal first and in its order, then previous experts in their old order until the size of the proposal is reached |
| ExpertPlacement.CommitIsFailureSafe | core/src/backend/cpu_backend_moe_registry.cpp:459-480 | no duplicates, never larger than the proposal, only previously local or placed experts; when the previous set was no larger than the proposal the experts lost are at most the newcomers committed, and total failure at equal size changes nothing |
| ExpertPlacement.RegisterKeepsSound | core/src/backend/cpu_backend_moe_registry.cpp:811-866 | registration leaves the local ids distinct, in range and recorded on a node |
| ExpertPlacement.RebalanceKeepsSound | core/src/backend/cpu_backend_moe_registry.cpp:425-480 | a rebalance for any expert count, whatever failed, leaves them so if and only if it placed no member of the proposal beyond the profiled experts |
| ExpertPlacement.RunKeepsSound | core/src/backend/cpu_backend_moe_registry.cpp:249-272 | a run of registrations and rebalances is sound at every moment if and only if none of its rebalances places an expert beyond the profiled ones |
| ExpertPlacement.CountWithinProfile | core/src/backend/cpu_backend_moe_registry.cpp:425-450 | a rebalance asked for no more experts than are profiled never does |
| ExpertPlacement.NodeRecordsFollowVerifiedMoves | core/src/backend/cpu_backend_moe_registry.cpp:434-450 | over every run of rebalances an expert is recorded on the target of the last move that was verified for it, or where it was |
| ExpertPlacement.RecordsTellTheTruth | core/src/backend/cpu_backend_moe_registry.cpp:425-450 | a record that a migration changes names a node on which every page of all three buffers of the expert was reported |
| ExpertPlacement.DetectNode | core/src/backend/cpu_backend_moe_registry.cpp:826-856 | a valid hint wins; otherwise a node is found exactly if every present tensor was sampled on that node |
| ExpertPlacement.LayerRegistry.SwapProfiler | core/src/backend/cpu_backend_moe_registry.cpp:205-208 | the profiler is replaced exactly when the expert count changed |
| ExpertPlacement.LayerRegistry.InitProfiler | core/src/backend/cpu_backend_moe_registry.cpp:713-733 | the exact inputs after which the registry is still sound: the clear of the local ids never happens because the profiler was already replaced |
| ExpertPlacement.LayerRegistry.Register | core/src/backend/cpu_backend_moe_registry.cpp:784-866 | registration of the same experts changes nothing; otherwise the local ids are cleared and the detected nodes recorded |
| ExpertPlacement.LayerRegistry.Propose | core/src/backend/cpu_backend_moe_registry.cpp:289-309 | the proposal is the hot set or the hysteresis selection, and only its newcomers are migrated |
| ExpertPlacement.LayerRegistry.MigrateAll | core/src/backend/cpu_backend_moe_registry.cpp:425-457 | placed are exactly the listed experts already recorded on the target or verified there, recorded anew exactly the second kind; rebalancing is disabled exactly when an expert really attempted met a permission error; the page count is the sum over the attempts |
| ExpertPlacement.LayerRegistry.Rebalance | core/src/backend/cpu_backend_moe_registry.cpp:274-492 | a rebalance takes place exactly when it is not disabled, there is a hot set, there are weights and the system has NUMA; it is then a step of the run model with the proposal, placements, records, pages and disabling as above, and otherwise changes nothing |
| RebalanceCycle.ComputeHotSetChurn | core/src/backend/cpu_backend_moe_registry.cpp:131-142 | the loop computes the churn of two hot lists |
| RebalanceCycle.ChurnIsJaccard | core/src/backend/cpu_backend_moe_registry.cpp:135-141 | without repeats churn is one minus intersection over union |
| RebalanceCycle.ChurnRange | core/src/backend/cpu_backend_moe_registry.cpp:131-142 | it lies in [0, 1], is 0 exactly for equal and 1 exactly for disjoint sets |
| RebalanceCycle.ChurnNonNegative | core/src/backend/cpu_backend_moe_registry.cpp:131-142 | for any two lists churn is non-negative if and only if twice the overlap, counted with repeats, is at most the size of the previous set plus the length of the current list |
| RebalanceCycle.HotExperts | core/src/moe/profiler.cpp:88-117 | the hot list the thread compares: the busiest experts under any tie-breaking, as many as asked for, in range and without repeats |
| RebalanceCycle.IntervalFollowsFlags | core/src/backend/cpu_backend_moe_registry.cpp:144-154 | after a high cycle the next interval is the least one not below 250, base / 4 and 0.7 of the current one rounded down; after a calm one the greatest not above 4 base and 1.3 of the current one; otherwise the current one |
| RebalanceCycle.IntervalStaysInBounds | core/src/backend/cpu_backend_moe_registry.cpp:144-154 | from a base of 250 the interval stays in [max(250, base/4), 4 base] over every sequence of cycles |
| RebalanceCycle.IntervalStaysPositive | core/src/backend/cpu_backend_moe_registry.cpp:144-154 | from any base it stays in [min(base, 250), max(250, 4 base)] |
| RebalanceCycle.HighNeverLengthens | core/src/backend/cpu_backend_moe_registry.cpp:147-149 | a high cycle never lengthens a reachable interval if and only if the base is at least 250 |
| RebalanceCycle.CalmReachesCap | core/src/backend/cpu_backend_moe_registry.cpp:150-152 | calm cycles reach the cap, and stay there, if and only if the interval is at least 4; truncation stalls shorter ones |
| RebalanceCycle.StableCyclesCount | core/src/backend/cpu_backend_moe_registry.cpp:156-161 | the stable-cycle counter counts the trailing calm cycles, up to two |
| RebalanceCycle.MigratesIffTwiceCalm | core/src/backend/cpu_backend_moe_registry.cpp:594-649 | a layer is moved if and only if moving is enabled, there is something to move, and the last two cycles brought new hits with churn at most 0.10 from a non-empty hot set; never before its third cycle |
| RebalanceCycle.VerdictsOf | core/src/backend/cpu_backend_moe_registry.cpp:612-645 | a layer is high if its churn against the cycle before reaches 0.35 or its hit rate is high, and low if the churn is at most 0.10 and, where moving is enabled, there is something to move; a layer without a registry is low |
| RebalanceCycle.SeenAfterOf | core/src/backend/cpu_backend_moe_registry.cpp:647-649 | a cycle extends the history of each profiled layer by what it showed |
| RebalanceCycle.TallyFlags | core/src/backend/cpu_backend_moe_registry.cpp:571-572 | a cycle is high if some layer is, low if there are layers and all are |
| RebalanceCycle.TallyMigrated | core/src/backend/cpu_backend_moe_registry.cpp:638-645 | exactly the layers whose own history calls for it are moved |
| RebalanceCycle.RebalanceThread.Visit | core/src/backend/cpu_backend_moe_registry.cpp:594-649 | one layer in one cycle updates its record as its history prescribes |
| RebalanceCycle.RebalanceThread.VisitAll | core/src/backend/cpu_backend_moe_registry.cpp:574-649 | the loop over the layers gathers the verdicts of their histories |
| RebalanceCycle.RebalanceThread.Cycle | core/src/backend/cpu_backend_moe_registry.cpp:555-665 | one turn of the thread over all layers; the interval is the one prescribed by all cycles so far, and follows the flags of this one |
| DequantCache.BytesAddUp | core/src/backend/cpu_backend_moe_ops.cpp:1297-1319 | the total held against the budget is the sum of the bytes of all entries |
| DequantCache.FittingIsLongest | core/src/backend/cpu_backend_moe_ops.cpp:1297-1319 | the entries kept beside a new one are the longest most recently used run whose bytes fit |
| DequantCache.InsertKeeps | core/src/backend/cpu_backend_moe_ops.cpp:1296-1326 | an install keeps ids unique and the total within the budget |
| DequantCache.PlayKeeps | core/src/backend/cpu_backend_moe_ops.cpp:1262-1328 | over every interleaving of lookups, installs and clears ids stay unique, bytes within the budget, and every entry holds its expert's weights |
| DequantCache.CurrentIffNoStaleInstall | core/src/backend/cpu_backend_moe_ops.cpp:1262-1328 | over every run of requests, installs and registrations the cache holds only currently registered weights, at every moment, if and only if no install that is neither a hit nor too large carries weights dequantized under an earlier registration that differ from the current ones |
| DequantCache.StepStaysCurrent | core/src/backend/cpu_backend_moe_ops.cpp:1284-1324 | one event keeps an up-to-date cache up to date if and only if it is not such an install |
| DequantCache.CoherentSinceClear | core/src/backend/cpu_backend_moe_registry.cpp:818-822 | so requests that span no registration, or only ones that kept their expert's weights, never make the cache serve old weights |
| DequantCache.StaleInstallIsServed | core/src/backend/cpu_backend_moe_ops.cpp:1284-1324 | in any run the weights of such an install are the front entry of the cache right after it |
| DequantCache.LargerBudgetKeepsMore | core/src/backend/cpu_backend_moe_ops.cpp:1296-1324 | what a smaller budget keeps is a prefix of what a larger one keeps |
| DequantCache.HitsAreMonotone | core/src/backend/cpu_backend_moe_ops.cpp:1291-1295 | so every hit under the smaller budget is a hit under the larger |
| DequantCache.StampRepresents | core/src/backend/cpu_backend_moe_ops.cpp:1292-1295 | refreshing a timestamp is moving to the front of the recency list |
| DequantCache.PushRepresents | core/src/backend/cpu_backend_moe_ops.cpp:1320-1324 | a new entry with the next timestamp is a new front |
| DequantCache.OldestIsLast | core/src/backend/cpu_backend_moe_ops.cpp:1299-1311 | the scan for the smallest timestamp finds the last of the list |
| DequantCache.LayerCache.constructor | core/src/backend/cpu_backend_moe_ops.cpp:1258-1265 | an empty cache represents the empty list |
| DequantCache.LayerCache.Clear | core/src/backend/cpu_backend_moe_registry.cpp:820-822 | re-registration empties the cache |
| DequantCache.LayerCache.Lookup | core/src/backend/cpu_backend_moe_ops.cpp:1269-1282 | the first lock section is a touch of the recency list and returns the entry if there is one |
| DequantCache.LayerCache.Oldest | core/src/backend/cpu_backend_moe_ops.cpp:1299-1311 | the scan returns an entry with the smallest timestamp, in any map order |
| DequantCache.LayerCache.EvictOldest | core/src/backend/cpu_backend_moe_ops.cpp:1312-1318 | an eviction drops the last of the list, and the clamped subtraction subtracts its bytes exactly |
| DequantCache.LayerCache.MakeRoom | core/src/backend/cpu_backend_moe_ops.cpp:1297-1319 | the eviction loop leaves the longest fitting run |
| DequantCache.LayerCache.Install | core/src/backend/cpu_backend_moe_ops.cpp:1289-1327 | the second lock section is an insert into the recency list; an entry that fits the budget is always returned |
| CachedWeights.SmallPathAgrees | core/src/backend/cpu_backend_moe_ops.cpp:1648-1675 | on the small-decode path the picked tensor is the one built without a cache if and only if the scale does not fail and a weight without floats is F32 and has no sidecar |
| CachedWeights.BatchedPathAgrees | core/src/backend/cpu_backend_moe_ops.cpp:1929-1948 | the same for the batched path, and for a weight both INT4-bound and F32 in reference mode exactly when both sources hold the same matrix |
| CachedWeights.ApplyScale | core/src/backend/cpu_backend_moe_reference.inl:466-510 | the in-place loops succeed exactly for a sidecar that is as long as the matrix or one long in each direction, and then multiply every cell by its own factor; a sidecar that does not fit changes nothing |
| CachedWeights.ScaledCells | core/src/backend/cpu_backend_moe_reference.inl:466-510 | which factor each cell gets: that of its row and column, or the single one in a direction where the sidecar is one long |
| CachedWeights.ConvertRows | core/src/backend/cpu_backend_moe_ops.cpp:672-676 | element c of converted row r lands at r * cols + c |
| CachedWeights.MakeWeight | core/src/backend/cpu_backend_moe_ops.cpp:634-690 | the uncached tensor: every cell is its stored, converted or unpacked value times its factor, with exactly the cases in which it is empty or the storage itself |
| CachedWeights.UncachedIsTensorOf | core/src/backend/cpu_backend_moe_ops.cpp:634-690 | the specification of the uncached construction says just that of every weight |
| CachedWeights.FillVector | core/src/backend/cpu_backend_moe_ops.cpp:692-729 | exactly when an entry gets floats and which, cell by cell; with a good verdict it is the uncached tensor, with a bad one the unscaled floats where the uncached construction gives up |
| CachedWeights.EntryServesUnscaled | core/src/backend/cpu_backend_moe_ops.cpp:728-763 | an entry whose scale did not apply serves unscaled floats, since nobody looks at the verdict |
| CachedWeights.MaterializeIsIrrelevant | core/src/backend/cpu_backend_moe_ops.cpp:747-765 | which path filled the entry does not show in what is picked |
| CachedWeights.CachedExpertAgrees | core/src/backend/cpu_backend_moe_ops.cpp:634-765 | for an expert with sound weights all three tensors agree on both paths, whoever filled the entry |
| CachedWeights.ChargeOfWeight | core/src/backend/cpu_backend_moe_ops.cpp:607-632 | exactly which weights leave floats in an entry uncounted, and which are counted without leaving any |
| CachedWeights.BytesAreFloats | core/src/backend/cpu_backend_moe_ops.cpp:607-632 | held and charged bytes are four per float |
| CachedWeights.ChargeCoversEntry | core/src/backend/cpu_backend_moe_ops.cpp:607-632 | the entry of an expert, whose matrices have one area, holds no more bytes than it is charged if and only if the weights it holds uncounted are no more than those counted in vain |
| CachedWeights.TwiceTheCharge | core/src/backend/cpu_backend_moe_ops.cpp:607-632 | every two-matrix expert with a converted gate and a plain F32 down projection takes twice its charge when the batched path caches it |
| Reorder.CountRows | core/src/moe/moe_routing.cpp:560-571 | the count of each expert is the number of its routed assignments |
| Reorder.PrefixSums | core/src/moe/moe_routing.cpp:573-580 | the offsets are where each expert's rows start, and the largest count is attained |
| Reorder.Scatter | core/src/moe/moe_routing.cpp:582-600 | every routed assignment is placed in its slot |
| Reorder.BuildReorderMap | core/src/moe/moe_routing.cpp:534-603 | the map exists if and only if the workspace fits, and groups the routed assignments by expert as MapGroups says |
| Reorder.GoesToItsToken | core/src/moe/moe_routing.cpp:565-569 | the token of an assignment is the one listed for it, or the one among whose topK assignments it lies |
| Reorder.MapGroups | core/src/moe/moe_routing.cpp:560-600 | every assignment with a known expert and token has exactly one row, with its token and weight, in the range of its expert; rows are in expert order and, for one expert, in routing order; the largest range is attained |
| Reorder.PackedInOrder | core/src/moe/moe_routing.cpp:573-600 | of two rows the earlier has the smaller expert, or the same one and the earlier assignment |
| Reorder.SlotHolds | core/src/moe/moe_routing.cpp:594-599 | the slot of an assignment holds it in the packed order |
| Reorder.SlotOnto | core/src/moe/moe_routing.cpp:584-600 | every packed position is the slot of exactly one routed assignment |
| Reorder.PackedEntries | core/src/moe/moe_routing.cpp:594-599 | every packed entry carries token and weight of one routed assignment and lies in the range of its expert |
| ForwardPlan.CountSwitches | core/src/backend/cpu_backend_moe_forward_plan.cpp:10-20 | the loop counts the NUMA switches of the work list |
| ForwardPlan.SwitchesAreCounted | core/src/backend/cpu_backend_moe_forward_plan.cpp:10-20 | a switch is a place whose two neighbouring items sit on different known nodes |
| ForwardPlan.GroupedSwitches | core/src/backend/cpu_backend_moe_forward_plan.cpp:47-48 | grouped work has exactly one switch fewer than it has verified nodes |
| ForwardPlan.SwitchesAtLeast | core/src/backend/cpu_backend_moe_forward_plan.cpp:10-20 | no order of fully verified work has fewer |
| ForwardPlan.LocalityIsOptimal | core/src/backend/cpu_backend_moe_forward_plan.cpp:43-66 | locality order attains the minimum over all orders of fully verified work |
| ForwardPlan.UnverifiedWorkCanGainSwitches | core/src/backend/cpu_backend_moe_forward_plan.cpp:15-17 | a family of inputs with one unverified item where sorting adds a switch |
| ForwardPlan.LocalityOrderMeans | core/src/backend/cpu_backend_moe_forward_plan.cpp:44-63 | what sorted means, in nodes, the 32, 24 and 3 points of the score, loads, rows and ids |
| ForwardPlan.ApplyLocalityOrdering | core/src/backend/cpu_backend_moe_forward_plan.cpp:22-68 | a permutation, sorted in that sense exactly when the thresholds are met; `applied` holds exactly if the switches were at least the verified nodes less one, and always for fully verified work |
| ForwardPlan.CheapestOpen | core/src/backend/cpu_backend_moe_forward_plan.cpp:88-97 | the inner loop finds the cheapest bucket that is not full |
| ForwardPlan.PutKeepsBalanced | core/src/backend/cpu_backend_moe_forward_plan.cpp:101-102 | adding to the cheapest open bucket keeps every bucket within its last item of any bucket that fills later or never |
| ForwardPlan.GreedyFill | core/src/backend/cpu_backend_moe_forward_plan.cpp:87-103 | the greedy loop never reaches its overflow fallback and ends balanced, with every item in one bucket |
| ForwardPlan.CostIsRows | core/src/backend/cpu_backend_moe_forward_plan.cpp:101-102 | a bucket costs the rows of its items, one without rows counting as one |
| ForwardPlan.BucketIsShare | core/src/backend/cpu_backend_moe_forward_plan.cpp:105-109 | when all buckets are full, bucket t is the t-th even share of the list |
| ForwardPlan.BalanceWork | core/src/backend/cpu_backend_moe_forward_plan.cpp:70-110 | balancing permutes the work into buckets of at most the rounded-up share; when the threads divide the items every thread's even share of the result is one bucket |
| ExecutionPlan.TilesAreDisjoint | core/src/backend/cpu_backend_moe_forward_plan.cpp:125-145 | two items never share a packed row and no item leaves the packed rows |
| ExecutionPlan.ActiveTiles | core/src/backend/cpu_backend_moe_forward_plan.cpp:125-131 | dropping the experts without rows loses no row: the items tile the packed rows |
| ExecutionPlan.PermutedTiles | core/src/backend/cpu_backend_moe_forward_plan.cpp:105-109 | ordering and balancing keep the tiling |
| ExecutionPlan.ActiveWork | core/src/backend/cpu_backend_moe_forward_plan.cpp:125-145 | the items, ids and local-hot count of the active experts |
| ExecutionPlan.WorkIsExperts | core/src/backend/cpu_backend_moe_forward_plan.cpp:119-138 | one item per expert with rows, with its own rows, recorded node, load and local mark, in any order |
| ExecutionPlan.ActiveIsListed | core/src/backend/cpu_backend_moe_forward_plan.cpp:119-138 | the batch lists exactly the experts with rows, in order, and counts the local ones |
| ExecutionPlan.CountReuse | core/src/backend/cpu_backend_moe_forward_plan.cpp:147-154 | the loop counts the experts shared with the previous batch |
| ExecutionPlan.ReuseUnionIsUnion | core/src/backend/cpu_backend_moe_forward_plan.cpp:155-156 | the reported union is at least the real one, and equals it if and only if the previous batch lists no expert twice |
| ExecutionPlan.ChooseParallelism | core/src/backend/cpu_backend_moe_forward_plan.cpp:162-177 | which parallel form runs, in terms of batch, workers, registry and verified nodes; never both |
| ExecutionPlan.Arrange | core/src/backend/cpu_backend_moe_forward_plan.cpp:179-183 | balancing happens only on at most one verified node, so it adds no switch |
| ExecutionPlan.BuildPlan | core/src/backend/cpu_backend_moe_forward_plan.cpp:114-186 | for every offsets table the plan's items are those of the experts with rows and tile the packed rows after filtering, ordering and balancing; flags by their thresholds, switches, reuse counts and balance as above |
| ExpertRun.CounterStart | core/src/backend/cpu_backend_moe_ops.cpp:2039-2050 | claiming from the shared counter, by any number of workers, is a start of the run model |
| ExpertRun.PoolStart | core/src/backend/thread_pool_impl.h:155-158 | so is the pool's split into ranges, the last ones cut off or empty; one thread is the serial call |
| ExpertRun.PoolIsEven | core/src/backend/thread_pool_impl.h:155-158 | its ranges follow each other from 0 and none exceeds the rounded-up share |
| ExpertRun.AdvanceKeeps | core/src/backend/cpu_backend_moe_ops.cpp:2043-2049 | every worker step (take, write a row, finish) keeps the invariant: no item taken twice, rows written so far are right, nobody else's rows touched |
| ExpertRun.RunKeeps | core/src/backend/cpu_backend_moe_ops.cpp:2038-2057 | so does every schedule |
| ExpertRun.EveryScheduleRuns | core/src/backend/cpu_backend_moe_ops.cpp:2038-2057 | every sequence of workers is a run: no choice of who moves next is stuck or outside the model |
| ExpertRun.RunsEnd | core/src/backend/cpu_backend_moe_ops.cpp:2043-2050 | every schedule of unfinished workers is bounded by the steps left at its start |
| ExpertRun.OutputIsUnique | core/src/backend/cpu_backend_moe_ops.cpp:1989-1992 | the expert-by-expert output is one sequence |
| ExpertRun.FinishedRun | core/src/backend/cpu_backend_moe_ops.cpp:1989-2057 | when all workers are done every item ran exactly once and the packed output is that of the experts on their own rows, whatever the sharing and interleaving |
| SmallDecode.SerialDecode | core/src/backend/cpu_backend_moe_ops.cpp:1611-1714 | the serial path takes the assignments in order, each as AccumulatedSteps says |
| SmallDecode.AccumulatedSteps | core/src/backend/cpu_backend_moe_ops.cpp:1616-1714 | an assignment of non-zero weight adds weight times its expert's row to the token it is sent to, and nothing else changes |
| SmallDecode.RangeOwner | core/src/backend/cpu_backend_moe_ops.cpp:1516-1517 | the worker ranges cover every assignment exactly once, for every count and worker number |
| SmallDecode.RangesEven | core/src/backend/cpu_backend_moe_ops.cpp:1516-1517 | and every worker gets the even share, rounded down or up |
| SmallDecode.StepKeeps | core/src/backend/cpu_backend_moe_ops.cpp:1518-1574 | a worker's step leaves the slots of the others alone |
| SmallDecode.RunWorkers | core/src/backend/cpu_backend_moe_ops.cpp:1513-1576 | under any interleaving every counting assignment's slot is written once with its value, and no other |
| SmallDecode.ParallelDecode | core/src/backend/cpu_backend_moe_ops.cpp:1513-1597 | the parallel path ends with the output of the serial one, with nothing assumed of the additions |
| PackedPath.MapOffsets | core/src/moe/moe_routing.cpp:573-579 | the offsets of a built map are monotone from 0 to the total |
| PackedPath.PackRows | core/src/moe/moe_routing.cpp:605-638 | each packed row is its token's row, or cleared |
| PackedPath.TokensKnown | core/src/moe/moe_routing.cpp:614-620 | in a built map no row is cleared |
| PackedPath.AddInOrder | core/src/moe/moe_routing.cpp:655-681 | the rows of one expert on one thread: every token gains its weighted rows |
| PackedPath.AddInAnyOrder | core/src/moe/moe_routing.cpp:678-679 | the additions of one expert as separate reads and writes in any interleaving, when it has no token twice: every token gains the same |
| PackedPath.SafeIffNoRepeat | core/src/moe/moe_routing.cpp:678-679 | the range of an expert in a built map has no token twice if and only if no two routed assignments send one token to it |
| PackedPath.LostAddition | core/src/moe/moe_routing.cpp:678-679 | two entries of one token read before either writes: the first addition is lost, and the result differs from the sequential one if and only if that addition was not zero |
| PackedPath.AddRows | core/src/moe/moe_routing.cpp:640-684 | over all experts the output gains, per token, all its weighted packed rows |
| PackedPath.AddRoutedRows | core/src/moe/moe_routing.cpp:640-684 | the same for every built map, with a pool provided no expert of 256 rows or more is routed one token twice |
| PackedPath.PackedSumIsDirect | core/src/moe/moe_routing.cpp:647-683 | adding expert by expert equals adding assignment by assignment in routing order |
| PackedPath.PackedPathIsDirect | core/src/backend/cpu_backend_moe_ops.cpp:1734-2063 | end to end: routing, packing, any tiling plan, any sharing and interleaving, and the final additions give per token the sum over its routed assignments of weight times expert output |
| PackedPath.PackedPathIsTheLayer | core/src/backend/cpu_backend_moe_ops.cpp:1734-2063 | so the batched path adds to every token the sum, over the assignments that send it to an expert, of weight times what that expert makes of it |
| PackedPath.TokenGetsItsChoices | core/src/moe/moe_routing.cpp:560-600 | which, when each token owns topK consecutive assignments, is the sum over its own topK choices |
| PackedPath.DecodePathIsDirect | core/src/backend/cpu_backend_moe_reference.inl:790-835 | the decode paths and the reference executor, which skip zero weights, add the same |
| PackedPath.DecodePathIsTheLayer | core/src/backend/cpu_backend_moe_reference.inl:790-835 | so they compute the same layer |
| Q4KTiling.CompleteMeans | core/src/backend/cpu_backend_q4k_dense.cpp:57-181 | a complete output holds, in every cell, the product of that row and column, written once |
| Q4KTiling.RawBatchedGemm | core/src/backend/cpu_backend_q4k_dense.cpp:57-101 | chunks of 256 rows through one scratch buffer complete the output if and only if every chunk projects; exact success condition |
| Q4KTiling.PartNext | core/src/backend/cpu_backend_q4k_dense.cpp:147-150 | the next cell of a tile is in bounds, new, and at the expected row and column |
| Q4KTiling.RunBlock | core/src/backend/cpu_backend_q4k_dense.cpp:145-150 | a tile kernel writes exactly its block of cells, each once |
| Q4KTiling.TakeUnit | core/src/backend/cpu_backend_q4k_dense.cpp:142-144 | the cells of unit u are exactly the 4 by 8 block at the quotient and remainder of u |
| Q4KTiling.RunUnits | core/src/backend/cpu_backend_q4k_dense.cpp:139-157 | the units in any order cover exactly the rows of the 4-row groups |
| Q4KTiling.RunTail | core/src/backend/cpu_backend_q4k_dense.cpp:28-53 | the tail tiles in any order cover the remaining rows; success if and only if every tile succeeds |
| Q4KTiling.RepackedGemm | core/src/backend/cpu_backend_q4k_dense.cpp:103-181 | every cell is written exactly once with its plain value for every admitted shape; exact success condition, including a tail that cannot be quantised |
| PluginLifecycle.WorldHistory | core/src/backend/backend_registry.cpp:172-178 | what is open, closed, made and destroyed follows from the log |
| PluginLifecycle.ClosedOnceAndLast | core/src/backend/backend_registry.cpp:124-129 | in every legal log a close follows its open, is the only one, and comes after every backend made through the handle has ended |
| PluginLifecycle.EveryOpenClosedOnce | core/src/backend/backend_registry.cpp:124-129 | in a legal log that leaves nothing open every open has exactly one close, and there is no other |
| PluginLifecycle.BackendRegistry.constructor | core/src/backend/backend_registry.cpp:92-97 | an empty registry is valid |
| PluginLifecycle.BackendRegistry.Register | core/src/backend/backend_registry.cpp:225-243 | a backend replaces the one of its device; the first becomes the default; null is ignored |
| PluginLifecycle.BackendRegistry.RegisterCpuBackend | core/src/backend/backend_registry.cpp:158-223 | which backends are there afterwards and which is the default, for every availability of the built-in ones |
| PluginLifecycle.BackendRegistry.OpenPlugin | core/src/backend/backend_registry.cpp:255-310 | opening and creating either yields a pending backend or leaves no open library behind |
| PluginLifecycle.BackendRegistry.Discard | core/src/backend/backend_registry.cpp:327-332 | rollback destroys the backend before it closes the library |
| PluginLifecycle.BackendRegistry.LoadPlugin | core/src/backend/backend_registry.cpp:245-374 | success if and only if the plugin identifies a free device in 0 to 3 or 100 to 254 and the containers can grow; a failed load leaves backends, handles, default and open libraries unchanged |
| PluginLifecycle.BackendRegistry.Shutdown | core/src/backend/backend_registry.cpp:103-130 | all backends end, then every handle ever opened is closed, last first |
| PluginLifecycle.LastOpenedClosesFirst | core/src/backend/backend_registry.cpp:120-129 | in the log that leaves, the handle opened last is closed first |
| PluginLifecycle.BackendRegistry.NothingLeftOpen | core/src/backend/backend_registry.cpp:103-130 | a registry without handles, as after a shutdown, has closed every handle it ever opened exactly once |
| PluginLifecycle.BackendRegistry.SetDefault | core/src/backend/backend_registry.cpp:427-439 | the default changes if and only if the device is registered here or in the fallback |
| PluginLifecycle.BackendRegistry.GetDefault | core/src/backend/backend_registry.cpp:391-425 | never empty-handed; the chosen default whenever it is still there |
| Int8.FindMaxAbs | core/src/backend/cpu_backend.cpp:1016-1022 | the loop finds the largest magnitude |
| Int8.MaxAbsBounds | core/src/backend/cpu_backend.cpp:1016-1022 | it bounds every element and is attained |
| Int8.ClampIsIdle | core/src/backend/cpu_backend.cpp:1044 | the clamp never changes a scaled element |
| Int8.CodeRepresents | core/src/backend/cpu_backend.cpp:1057-1061 | a code is within half a step of its element, in [-127, 127], zero for zero and exact for the largest magnitude, by either rounding |
| Int8.RoundingsDiffer | core/src/backend/cpu_backend.cpp:1045-1060 | the two roundings differ only on ties, and then by one |
| Int8.TiesGo | core/src/backend/cpu_backend.cpp:1045-1060 | on a tie the vector loop takes the even code, the scalar loops the one further from zero |
| Int8.QuantisedTies | core/src/backend/cpu_backend.cpp:1034-1074 | so which code a tie gets depends on whether its element falls into the groups of eight |
| Int8.Quantize | core/src/backend/cpu_backend.cpp:1013-1074 | vector loop and tail, or the scalar loop, give every element its code; the rest of the buffer is untouched |
| Int8.Dequantize | core/src/backend/cpu_backend.cpp:1105-1136 | every restored element is its code times the step |
| Int8.RestoredMaxAbs | core/src/backend/cpu_backend.cpp:1013-1136 | the restored tensor has the same largest magnitude |
| Int8.RequantisingIsStable | core/src/backend/cpu_backend.cpp:1013-1136 | quantising the restored tensor gives the same step and codes, whichever loop rounds |

## Left out

- Floating point: rounding, NaN and infinities; loads, weights and scales are reals, and the factors 0.7 and 1.3 of the interval are exact.
- Machine integers: counters, byte sizes and indices do not wrap around.
- Null functions and null output pointers, telemetry counters, logging, tracing, prefetch hints and debug checks.
- The kernels themselves (SIMD, ggml, Highway, Apple, QNN, flash attention): abstract functions with the contract their callers rely on.
- NodeDispatch: tasks are assumed to return; thread creation, pinning and the destructor are not modelled, and spinning before a wait is part of the wait.
- ExpertPlacement.LayerRegistry.Rebalance: the two lock sections that read and write back the local ids are one step, the disabled flag is kept per layer, and the registry always has a profiler.
- ExpertPlacement.DetectNode: the residency sampled per tensor is a parameter; the sampling of 16 pages is not modelled.
- ExpertPlacement.LayerRegistry.Register: comparing experts by their recorded fields is equality of experts, and whether the dimensions differ is not part of it.
- RebalanceCycle.RebalanceThread.Cycle: the verdict on the hit rate is a parameter, since it depends on wall-clock time; starting and stopping the thread is not modelled.
- DequantCache.LayerCache.Install: entries with a null pointer, which the source guards against and never creates, are not modelled.
- CachedWeights.MakeWeight: converting a row and unpacking INT4 are functions; the cases in which quantized kernels take the raw rows and no float tensor is picked are not modelled.
- Reorder.BuildReorderMap: the workspace arrays are values of the size in use.
- PackedPath.AddRows: one component of the rows at a time; what a split over threads leaves in a token listed twice is not determined, beyond `LostAddition`.
- PackedPath.PackedPathIsDirect: assumes that an expert computes each row from that row alone.
- SmallDecode.ParallelDecode: the tile-parallel path and the shared input caches are not modelled; a slot is written in one step.
- ExpertRun.FinishedRun: an output row is written in one step.
- Q4KTiling.RepackedGemm: quantising four rows together is quantising each, and group quantisation is sequential.
- PluginLifecycle.BackendRegistry.LoadPlugin: each entry point is one step; exceptions that are not standard exceptions while registering are not modelled, nor is a CPU backend that fails to construct.
- PluginLifecycle.BackendRegistry.GetDefault: the process-wide fallback registry is the set of devices it holds at the time of the call.
- Int8.Quantize: tensors are sequences; shapes, other quantisation types and graph capture are not modelled.
- The other parts of the repository: Python SDK, servers, loaders, tokenizers, schedulers, attention, the operator and benchmarks.
