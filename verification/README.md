# Verified models of a GRPO/SFT training stack

This project models seven algorithmic components of the repository in Dafny and proves what
each one promises over all inputs and all runs. `dafny verify dfyconfig.toml` checks all of it.

| component | source | files |
|---|---|---|
| activation offloading | `verl/utils/activation_offload.py` | `OffloadModel`, `OffloadHandler`, `OffloadRuns`, `OffloadMemory`, `OffloadDriver` |
| sequence-length balancing and micro-batches | `verl/utils/seqlen_balancing.py`, `verl/workers/fsdp_workers.py` | `PartitionModel`, `BalancedStates`, `PartitionResult`, `KarmarkarKarp`, `SeqlenBalancing`, `TokenLimit`, `LimitSharp`, `HeavyRow`, `MicroBatches` |
| trajectory replay and cleaning | `src/travel_grpo/collection/clean_travel_trajectories.py` | `TravelReplay`, `TravelProtocol`, `TravelCleaning`, `TravelSft`, `TravelReclean`, `TravelVerdicts`, `TravelEligible`, `TravelLines` |
| teacher pass cache | `src/travel_grpo/collection/teacher_collection.py` | `TeacherModel`, `TeacherRuns`, `TeacherCache`, `TeacherDriver`, `TeacherLaws` |
| sequence parallelism | `verl/utils/ulysses.py` | `Ulysses` |
| batch container and layer placement | `verl/protocol.py`, `verl/utils/megatron_utils.py` | `DataBatches`, `LayerPlacement` |
| flat memory buffers | `verl/utils/memory_buffer.py` | `MemoryBuffers` |

`Common` and `BlockSequences` hold shared types and facts about sequences of blocks.

## How the models are built

Objects that the source updates in place are classes: the offload handler, the `Set` and
`State` objects of the partitioner, the teacher cache and its file, memory buffers and
parameters. Their methods, and the source's loops, are proved against functions on values; the
theorems about whole runs are lemmas about those functions. For the handler and the cache the
connection is complete: each method's postcondition says that its new state is one step of the
model, and `OffloadDriver.RunStep` and `TeacherDriver.Play` play whole runs on the objects, the
latter reopening the cache from its file.

An assert, a failing dictionary lookup or a raised exception of the source is an error value, a
`Crash`, or a precondition that every caller in the model discharges.

## What the proofs found

- The docstring of `rearrange_micro_batches` calls `max_token_len` the maximum per micro-batch.
  That is false (`LimitCanBeExceeded`: three rows of 5 tokens under limit 8). Strictly less than
  twice the limit always holds (`BelowTwiceLimit`). The limit itself is kept whenever the total
  plus (count - 1) times the longest row is less than count times (limit + 1) (`LimitKept`). On
  these three figures the condition is exact among the covering splits with non-empty sorted parts
  and loads within the longest row of each other: when it fails, some rows with the same total and
  longest row have such a split above the limit (`RoomIff`). Three special cases have exact
  conditions of their own: one part, where the total must fit (`LimitNeeds`); a part per row, where
  each row must fit (`SinglesLimit`); and rows of one length, where the ceiling of the average
  number of rows must fit (`EqualRowsLimit`).
- Popping the largest spread first buys more than balance: a row at least as long as all the others
  together ends up with empty rows only, so no part exceeds it (`HeavyRowAlone`).
- `greedy_partition` names a list `sorted_seqlen` but does not sort it. Its guarantees hold
  anyway and are proved for the given order.
- The even branch of `get_transformer_layer_offset` takes ranks as arguments but asks the
  calling process whether it is the first stage. With the embedding counted, the starts tile if
  and only if every stage is asked about by a process with that stage's own answer
  (`AnswersTileIff`): never when one process asks about all stages (`OneAnswerTilesIff`), and when
  each pipeline rank asks about its virtual ranks only if there is one virtual rank
  (`RankAnswersTileIff`).
- The uneven interleaved branch needs the first stage's count: without it stages 0 and 1 start at
  the same layer, and the ranges tile exactly in two degenerate cases (`UnsetFirstTilesIff`).
  Without any middle stage it divides by zero (`NoMiddleStageFails`).
- Truthful state lines in the observations are not harmless: when an accepted search of an aspect
  searched before shows the current aspect, the line makes that same search a repeated one, because
  the error check reads the open aspect from the line but the searched aspects from before it
  (`LineReopens`). In every other case truthful lines change nothing (`TruthfulSameIff`).
- A teacher record saved with its default provenance loads if and only if the first "::" of its
  task key is the separator.
  An environment name containing "::" or ending in ":" makes the cache unable to read its own
  file (`LoadsIffClearName`, `RunOpensIff`, `ColonPairBreaksReload`); a single inner ":" does no harm.
- Cleaning is not idempotent, because a repair is searched in the whole transcript and may be cut
  away (`RecleanCanCut`); `RecleanIff` says exactly when a second cleaning changes nothing.
- `_unpad_tensor` with padding zero would remove every row (`slice(0, -0)`); the attention
  exchange never calls it so (`RemovesSome`).
- `invalid_trajectories` and `abandoned_trajectories` count events, not records. Each is the
  number of such records plus the number of calls that overwrote one (`TalliesCount`), so it is
  exact if and only if no such call happened (`TallyExactIff`).
- The two-groups memory claim of `enable_activation_offloading` holds for its own setting, one
  group fewer than layers, and for no other number of groups except all of at most three
  (`TwoGroupsIff`). With as many groups as layers each group after the first is offloaded before
  its tensors are pushed, so they stay on the device (`FullWindowUnmoved`).

## Model

| member | source | states |
|---|---|---|
| OffloadModel.ScheduleValid | verl/utils/activation_offload.py:241-250 | The window map is strictly increasing, never early, ends at the last layer, and is i + 1 with one group fewer than layers |
| OffloadModel.WindowsBalanced | verl/utils/activation_offload.py:241-250 | Each group has the quotient of layers by groups to leave the device, and the first remainder many groups one layer more |
| OffloadModel.HostCopiesHold | verl/utils/activation_offload.py:294-313 | The host copy kept for a storage key is the contents of every tensor of the group with that key |
| OffloadHandler.AsyncDoubleBufferGroupOffloadHandler.constructor | verl/utils/activation_offload.py:221-254 | The loop over quotient, remainder and running constant builds exactly that window map, on a fresh handler |
| OffloadHandler.AsyncDoubleBufferGroupOffloadHandler.WindowMap | verl/utils/activation_offload.py:241-250 | The loop with its running constant equals the closed form of the load-balanced share |
| OffloadHandler.AsyncDoubleBufferGroupOffloadHandler.TensorPush | verl/utils/activation_offload.py:256-279 | Hands out tag (group, count), which must be unused, counts it, and stores the tensor under it (and as buffer, for offloaded groups); tensors that need no offloading are their own handle and change nothing |
| OffloadHandler.AsyncDoubleBufferGroupOffloadHandler.TensorPop | verl/utils/activation_offload.py:281-292 | Returns what is stored under the tag and forgets tag and buffer |
| OffloadHandler.AsyncDoubleBufferGroupOffloadHandler.BulkOffloadGroup | verl/utils/activation_offload.py:294-313 | In whatever order the dictionary is walked, the group's entries become host entries and its mapping holds one copy per storage key |
| OffloadHandler.AsyncDoubleBufferGroupOffloadHandler.OnGroupCommitForward | verl/utils/activation_offload.py:315-349 | The forward commit is the model's step: group 0 offloaded at the first commit, and at a window boundary the finished group's buffers freed and the next group offloaded |
| OffloadHandler.AsyncDoubleBufferGroupOffloadHandler.BulkReloadGroup | verl/utils/activation_offload.py:351-367 | The group's host entries become device tensors with the saved shape and contents, and its mapping is dropped |
| OffloadHandler.AsyncDoubleBufferGroupOffloadHandler.OnGroupCommitBackward | verl/utils/activation_offload.py:369-391 | The backward commit is the model's step: at a window boundary the last offloaded group is reloaded and counted down, never below one before group 0 |
| OffloadRuns.StepInSync | verl/utils/activation_offload.py:256-391 | Every legal call is enabled (no assert or lookup fails) and keeps the invariant tying dictionaries, buffers, mapping and counters to the position of the run |
| OffloadRuns.RunNeverCrashes | verl/utils/activation_offload.py:256-391 | No legal forward/backward run, for any valid window, ever fails an assert or a lookup |
| OffloadRuns.LiveIsPushed | verl/utils/activation_offload.py:256-292 | A tag not yet popped stands for the one tensor pushed under it |
| OffloadRuns.PopReturnsPushed | verl/utils/activation_offload.py:281-292 | Whenever a pop is legal it succeeds and returns the shape and contents pushed under that tag, offloaded or not |
| OffloadRuns.PushReturnsNextTag | verl/utils/activation_offload.py:270-279 | A push hands out the tag (group, count) that the run expects |
| OffloadRuns.CompleteRunRestoresHandler | verl/utils/activation_offload.py:369-391 | A complete run leaves the handler exactly as constructed |
| OffloadMemory.ResidentExactly | verl/utils/activation_offload.py:315-391 | With fewer groups than layers, at every point of every run a group is on the device exactly when it has live tensors and its window has not passed |
| OffloadMemory.FullWindowUnmoved | verl/utils/activation_offload.py:315-391 | With as many groups as layers, in every run only group 0 ever leaves the device |
| OffloadMemory.ResidentFullWindow | verl/utils/activation_offload.py:315-391 | Then a group is on the device exactly when it has live tensors and is not group 0 between its commits |
| OffloadMemory.AtMostTwoGroupsResident | verl/utils/activation_offload.py:494-537 | With layers - 1 groups, at every point of every run at most two groups (the current and the previous) have a device tensor in either dictionary |
| OffloadMemory.TwoGroupsIff | verl/utils/activation_offload.py:494-537 | Over all numbers of groups, at most two groups are on the device in every run if and only if one fewer than the layers is offloaded, or all of at most three |
| OffloadDriver.RunStep | verl/utils/activation_offload.py:256-391 | A whole legal run on the handler object meets every precondition, every pop returns the pushed contents, and a complete run leaves it fresh |
| PartitionModel.SetLessCotransitive | verl/utils/seqlen_balancing.py:41-46 | The order on sets is a strict weak order, so sorting by it is well defined |
| PartitionModel.ItemsLessIff | verl/utils/seqlen_balancing.py:41-46 | One item list precedes another exactly when it is a proper prefix, or smaller at the first place where they differ |
| PartitionModel.SetLessIff | verl/utils/seqlen_balancing.py:41-46 | One set precedes another exactly when its sum is smaller, or the sums are equal and it has fewer items, or these too are equal and its items precede |
| PartitionModel.SortDescSorts | verl/utils/seqlen_balancing.py:56 | The sort gives a decreasing permutation of the sets |
| PartitionModel.ZipGap | verl/utils/seqlen_balancing.py:67-69 | Pairing largest with smallest, any two merged sums differ by at most the larger input spread |
| PartitionModel.IndicesZip | verl/utils/seqlen_balancing.py:67-69 | Merging keeps every index of both states, with multiplicity |
| PartitionModel.ZipNonEmpty | verl/utils/seqlen_balancing.py:67-69 | Two states filled from the front by p and q sets merge to min(k, p + q) filled sets |
| PartitionModel.DecreasingFront | verl/utils/seqlen_balancing.py:41-56 | In a sorted state the non-empty sets come first, even when lengths are zero |
| BalancedStates.MergeSpread | verl/utils/seqlen_balancing.py:67-74 | Merging never widens: the spread is at most the larger of the two |
| BalancedStates.MergeGood | verl/utils/seqlen_balancing.py:67-70 | Merging keeps the whole state invariant: order, exact sums, spread bound, equal sizes, min(k, items) filled sets; and conserves the indices |
| BalancedStates.SingleGood | verl/utils/seqlen_balancing.py:108-110 | A state of one item meets the invariant with spread at most its length |
| BalancedStates.BlockGood | verl/utils/seqlen_balancing.py:100-107 | A state of k consecutive sorted items meets the invariant with equal sizes and the block's width as spread |
| KarmarkarKarp.Set.Merge | verl/utils/seqlen_balancing.py:36-39 | Appends the other set's items and adds its sum |
| KarmarkarKarp.State.constructor | verl/utils/seqlen_balancing.py:49-56 | One item per set, the rest empty, sorted in decreasing order |
| KarmarkarKarp.State.Merge | verl/utils/seqlen_balancing.py:67-70 | The in-place merge and sort computes the merge of the two values and leaves the other state alone |
| KarmarkarKarp.SortedReverse | verl/utils/seqlen_balancing.py:56 | Sorting the set objects gives the same objects in the order of the value sort |
| KarmarkarKarp.HeapPop | verl/utils/seqlen_balancing.py:76-82 | The popped state has the largest spread, and among those of the same spread no state has a larger first set; which of several equal ones is left open |
| KarmarkarKarp.RoundKeeps | verl/utils/seqlen_balancing.py:112-117 | A largest-first round keeps the invariant of all states and all indices |
| KarmarkarKarp.InitialStatesGood | verl/utils/seqlen_balancing.py:98-110 | The initial states meet the invariant and hold exactly the indices of the sorted prefix |
| KarmarkarKarp.KarmarkarKarp | verl/utils/seqlen_balancing.py:97-124 | The parts are those of largest-first rounds from the initial states; every index exactly once, min(k, n) parts filled and first, sizes n/k with equal_size, sums within the largest length or the widest k-block |
| PartitionResult.CoverConserves | verl/utils/seqlen_balancing.py:145-186 | Covering partitions conserve the total length |
| SeqlenBalancing.CheckAndSortPartitions | verl/utils/seqlen_balancing.py:173-183 | No assert of the final check fails on a cover without empty parts; each part comes back as its own sorted rearrangement |
| SeqlenBalancing.GetSeqlenBalancedPartitions | verl/utils/seqlen_balancing.py:145-186 | Succeeds if and only if 1 <= k <= n (and k divides n for equal sizes); then the parts are those of largest-first differencing, each sorted: a cover without empty parts within the spread bound |
| HeavyRow.HeavyRound | verl/utils/seqlen_balancing.py:112-117 | A largest-first round keeps one state with the longest row in its first set and every other state with an empty last set, if that row is at least all the others together |
| HeavyRow.HeavyRowAlone | verl/utils/seqlen_balancing.py:76-117 | So no part of a largest-first split exceeds the longest row, the best any split can do |
| HeavyRow.HeavyRowSorted | verl/utils/seqlen_balancing.py:145-186 | The same of the sorted parts that callers get |
| SeqlenBalancing.GreedyStep | verl/utils/seqlen_balancing.py:132-138 | One greedy choice keeps sums exact, sizes within one (with the bias) and loads within the largest length (without) |
| SeqlenBalancing.EvenSizesAreEqual | verl/utils/seqlen_balancing.py:139-141 | Sizes within one of each other are all n/k if and only if k divides n |
| SeqlenBalancing.GreedyPartition | verl/utils/seqlen_balancing.py:127-142 | The size assert holds if and only if k divides n; each row went to the part with the fewest rows (with equal_size), then the least load, then the lowest number, at the time; parts cover, sizes are equal with equal_size, otherwise sums are within the largest length |
| TokenLimit.CeilDivIsCeiling | verl/utils/seqlen_balancing.py:223-224 | Negated floor division by the negated divisor is the ceiling |
| TokenLimit.RoundupIsNextMultiple | verl/utils/seqlen_balancing.py:227-228 | The result is the least multiple not below the argument |
| TokenLimit.CeilingWithinBatch | verl/utils/seqlen_balancing.py:252-253 | When every row fits the limit the ceiling count never exceeds the batch |
| MicroBatches.CountAtLeastCeiling | verl/utils/seqlen_balancing.py:253-262 | Minimum, other ranks and rounding never bring the count below the ceiling |
| MicroBatches.CountIsLeast | verl/utils/seqlen_balancing.py:252-262 | The requested count is the least number whose tokens cover the total, that is at least the minimum and the count of the other ranks, and a multiple where asked |
| MicroBatches.CountInRange | verl/utils/seqlen_balancing.py:252-265 | It lies between 1 and the batch size if and only if some count up to the batch size is enough and none at all is not |
| MicroBatches.MaskSumCounts | verl/utils/seqlen_balancing.py:250-251 | The length of a row is the number of positions its mask attends to |
| TokenLimit.BalancedLoad | verl/utils/seqlen_balancing.py:145-186 | No part is far above the average: k times the load less the gap, plus the gap, is at most the total |
| TokenLimit.BelowTwiceLimit | verl/utils/seqlen_balancing.py:231-267 | With at least the ceiling count of parts, every part is strictly below twice the limit |
| TokenLimit.LimitCanBeExceeded | verl/utils/seqlen_balancing.py:237-237 | The documented per-batch maximum is not kept: any split of [5, 5, 5] under limit 8 has a part of at least 10 |
| TokenLimit.LimitKept | verl/utils/seqlen_balancing.py:231-279 | Any balanced split keeps the limit when total + (count - 1) * longest < count * (limit + 1) |
| TokenLimit.LimitNeeds | verl/utils/seqlen_balancing.py:231-279 | No split keeps the limit unless the total fits the parts and every row fits; with one part this is exact |
| TokenLimit.EqualRowsLimit | verl/utils/seqlen_balancing.py:231-279 | With rows of one length the limit is kept if and only if the ceiling of the average number of rows fits |
| TokenLimit.SafeIsSharp | verl/utils/seqlen_balancing.py:231-279 | For rows of one length, one more than a multiple of the count, that condition is exact |
| LimitSharp.RoomIsNeeded | verl/utils/seqlen_balancing.py:231-279 | Whatever total, longest row and count fail that condition, some rows with these figures have a split above the limit that covers them in non-empty sorted parts within the longest row of each other |
| LimitSharp.RoomIff | verl/utils/seqlen_balancing.py:231-279 | So, for all figures any rows can have, every such split keeps the limit if and only if the condition holds |
| TokenLimit.SinglesLimit | verl/utils/seqlen_balancing.py:252-267 | With a part per row the limit is kept if and only if every row fits |
| MicroBatches.RearrangeMicroBatches | verl/utils/seqlen_balancing.py:231-279 | Succeeds if and only if the limit covers the width and some count from 1 to the batch size is enough; the count is the least that is; each row is in exactly one non-empty micro-batch, in index order, below twice the limit, and within a longest row that outweighs the others; within the limit under the condition of LimitKept and with a part per row, and with one part or rows of one length exactly under the conditions above |
| MicroBatches.GetReverseIdx | verl/utils/seqlen_balancing.py:282-297 | Raises exactly when some entry is no index, negative ones included; otherwise each position holds the last place naming it, or its old entry where none does |
| MicroBatches.ReversePermutation | verl/utils/seqlen_balancing.py:282-297 | For a permutation the loop yields its two-sided inverse |
| MicroBatches.PickInverse | verl/workers/fsdp_workers.py:1408-1412 | Scoring permuted rows and indexing with the inverse is scoring in place |
| MicroBatches.ScoreDynamic | verl/workers/fsdp_workers.py:1396-1412 | Scoring in partition order and reverting gives each original row its own score |
| MicroBatches.ComputeRmScore | verl/workers/fsdp_workers.py:1396-1412 | With dynamic or fixed batching the scores are those of the original rows in place, and dynamic batching fails exactly when the limit does not cover the width or no count from 1 to the batch size is enough |
| TravelReplay.MakeEvents | src/travel_grpo/collection/clean_travel_trajectories.py:285-419 | The reducer's loop computes the recursive replay |
| TravelLines.TurnReads | src/travel_grpo/collection/clean_travel_trajectories.py:319-370 | An event records its call, the aspect named by its single answered option or single hint (else the current one), the option it answers, and the open aspect, shown by the observation if none is open |
| TravelLines.TurnState | src/travel_grpo/collection/clean_travel_trajectories.py:333-417 | After a turn each of current, searched, answered and visible is the shown value when its line is shown and the value before otherwise, plus what an accepted search or answer adds |
| TravelLines.KindIff | src/travel_grpo/collection/clean_travel_trajectories.py:342-376 | Without an explicit rejection, each error kind arises exactly under its own condition on the call and the state |
| TravelLines.RejectionIsKind | src/travel_grpo/collection/clean_travel_trajectories.py:359-364 | An explicit rejection is the error, whatever the call was |
| TravelLines.MentionedIff | src/travel_grpo/collection/clean_travel_trajectories.py:165-178 | Several aspects are counted exactly when two different ones are mentioned by hints or option ids |
| TravelProtocol.ReplayLinked | src/travel_grpo/collection/clean_travel_trajectories.py:313-418 | Each event judges its own assistant turn in exactly the state its predecessor left, and observations are never shared |
| TravelProtocol.AssistantHasEvent | src/travel_grpo/collection/clean_travel_trajectories.py:313-418 | Every assistant message has an event |
| TravelProtocol.ReplayCausal | src/travel_grpo/collection/clean_travel_trajectories.py:313-418 | Replaying a prefix cut between exchanges yields exactly the prefix of the events |
| TravelProtocol.AcceptedIffAllowed | src/travel_grpo/collection/clean_travel_trajectories.py:342-376 | A turn is accepted if and only if the public protocol, stated for allowed calls, allows it |
| TravelProtocol.PlainStep | src/travel_grpo/collection/clean_travel_trajectories.py:252-417 | Without state lines only an opening search or a closing answer changes the state, each accepted only in the right state |
| TravelProtocol.ReplayTracks | src/travel_grpo/collection/clean_travel_trajectories.py:308-417 | The reducer's state always says which search is open, what it listed and which aspects were answered |
| TravelProtocol.NoSearchWhileOpen | src/travel_grpo/collection/clean_travel_trajectories.py:252-282 | No search is accepted while an aspect is open |
| TravelProtocol.AnswerHasOneSearch | src/travel_grpo/collection/clean_travel_trajectories.py:252-282 | Since the previous accepted answer, an accepted answer has exactly one aspect-setting search, for the same aspect, whose observation listed the answered id |
| TravelProtocol.AnswersAreDistinct | src/travel_grpo/collection/clean_travel_trajectories.py:271-281 | Accepted answers are for distinct aspects |
| TravelLines.TurnSame | src/travel_grpo/collection/clean_travel_trajectories.py:333-417 | One turn with truthful state lines is judged as without them, unless it is an accepted search of a searched aspect that shows the current aspect; then the line makes it a repeated search |
| TravelLines.TruthfulSameIff | src/travel_grpo/collection/clean_travel_trajectories.py:285-419 | With truthful lines the whole replay gives the same accepted turns, errors and states as without any if and only if no such search occurs |
| TravelLines.LineReopens | src/travel_grpo/collection/clean_travel_trajectories.py:333-341 | Such a transcript exists: a truthful line makes an accepted second search of flights a repeated one |
| TravelLines.LinedNoSearchWhileOpen | src/travel_grpo/collection/clean_travel_trajectories.py:252-282 | With truthful lines too no search is accepted while an aspect is open |
| TravelLines.LinedAnswerHasOneSearch | src/travel_grpo/collection/clean_travel_trajectories.py:252-282 | With truthful lines too an accepted answer has exactly one aspect-setting search since the previous one, which listed the answered id |
| TravelLines.LinedAnswersAreDistinct | src/travel_grpo/collection/clean_travel_trajectories.py:271-281 | With truthful lines too accepted answers are for distinct aspects |
| TravelCleaning.FutureRepairFinds | src/travel_grpo/collection/clean_travel_trajectories.py:422-471 | The search finds a repair exactly when some turn of the input is one |
| TravelCleaning.RepairMeans | src/travel_grpo/collection/clean_travel_trajectories.py:422-471 | A repair is a later accepted call that stays on the failed turn's aspect, moves to another one only after a duplicate answer, and without a known aspect is the first accepted search |
| TravelVerdicts.RepairIff | src/travel_grpo/collection/clean_travel_trajectories.py:422-471 | A later accepted turn repairs an error if and only if it is the right call for that kind and on the right aspect, kind by kind |
| TravelCleaning.ScanLeast | src/travel_grpo/collection/clean_travel_trajectories.py:634-677 | The scan stops at the earliest of the fatal turns and the fault's cut |
| TravelCleaning.LongestCleanPrefix | src/travel_grpo/collection/clean_travel_trajectories.py:622-684 | No exchange is split by the cut, and the kept messages are the longest prefix the scan finds clean; CutMeans says which turns those are |
| TravelVerdicts.FatalIff | src/travel_grpo/collection/clean_travel_trajectories.py:634-677 | A turn cuts if and only if it has no observation, an unrecoverable kind, is neither accepted nor refused outright and repaired later, or is a known-wrong answer that no other aspect follows; with the reason recorded for each |
| TravelVerdicts.SupervisedIff | src/travel_grpo/collection/clean_travel_trajectories.py:667-677 | A turn is supervised if and only if it is accepted and no known-wrong answer |
| TravelVerdicts.RepairedContextIff | src/travel_grpo/collection/clean_travel_trajectories.py:645-659 | A turn is kept as repaired context if and only if it is observed, refused outright with a recoverable kind, and repaired later; with its first repair |
| TravelVerdicts.WrongContextIff | src/travel_grpo/collection/clean_travel_trajectories.py:667-676 | A known-wrong answer is kept as context if and only if another accepted aspect follows it |
| TravelVerdicts.FaultCutMeans | src/travel_grpo/collection/clean_travel_trajectories.py:622-633 | The fault cut is at the earliest fault, or for a faulty observation at the nearest assistant turn before it |
| TravelVerdicts.CutMeans | src/travel_grpo/collection/clean_travel_trajectories.py:622-684 | Cleaning keeps the longest prefix in which no turn must cut and no fault cuts, all spelled out, with the reason of the turn or fault at its end |
| TravelVerdicts.MaskMeans | src/travel_grpo/collection/clean_travel_trajectories.py:634-686 | The mask is 1 exactly at the kept accepted turns that are no known-wrong answers |
| TravelVerdicts.KeptWhole | src/travel_grpo/collection/clean_travel_trajectories.py:570-726 | Without faults, a transcript whose turns are all accepted and not known to be wrong is kept whole, with mask 1 at every assistant turn |
| TravelVerdicts.RetainedAre | src/travel_grpo/collection/clean_travel_trajectories.py:645-659 | The retained errors are exactly the kept refused turns, with their kind and first repair |
| TravelCleaning.KeptTurnKinds | src/travel_grpo/collection/clean_travel_trajectories.py:634-684 | Every kept turn keeps its observation and is exactly one of: accepted and supervised; rejected, recoverable and repaired later; known-wrong answer followed by another accepted aspect |
| TravelCleaning.KeptAssistantHasEvent | src/travel_grpo/collection/clean_travel_trajectories.py:313-418 | The three kinds cover every assistant message |
| TravelCleaning.AnswersFrom | src/travel_grpo/collection/clean_travel_trajectories.py:491-496 | Every recorded answer comes from an accepted answer turn for its aspect |
| TravelEligible.AnswersAre | src/travel_grpo/collection/clean_travel_trajectories.py:491-496 | The recorded answers are exactly the last accepted ones, aspect by aspect |
| TravelEligible.CorrectAre | src/travel_grpo/collection/clean_travel_trajectories.py:497-504 | The correct aspects are those of the task whose last accepted answer names a correct option |
| TravelEligible.MetricsMean | src/travel_grpo/collection/clean_travel_trajectories.py:491-516 | Every metric, stated on the events: availability, answered and correct aspects, completion, success |
| TravelEligible.FoldedAre | src/travel_grpo/collection/clean_travel_trajectories.py:293-307 | Each index keeps the last fault reported for it |
| TravelEligible.FaultsAre | src/travel_grpo/collection/clean_travel_trajectories.py:593-604 | The faults of a transcript are those reported and, under the strict policy, tool calls without reasoning |
| TravelSft.FirstFault | src/travel_grpo/collection/clean_travel_trajectories.py:624-633 | The cut of the earliest canonical fault, moved from an observation back to its assistant turn |
| TravelCleaning.CompletionMeans | src/travel_grpo/collection/clean_travel_trajectories.py:505-516 | The completion ratio lies between 0 and 1, is positive exactly when some aspect is correct, and is 1 exactly on success when each aspect is listed once |
| TravelSft.RecomputeMetrics | src/travel_grpo/collection/clean_travel_trajectories.py:491-516 | The metrics are those of the last accepted answer per aspect of a replay |
| TravelSft.JudgeEvents | src/travel_grpo/collection/clean_travel_trajectories.py:634-677 | The loop's cut, its mask (1 exactly at supervised turns before the cut), whether repaired context was kept, and the list of repaired errors |
| TravelSft.CleanTrajectory | src/travel_grpo/collection/clean_travel_trajectories.py:570-726 | Messages, mask, metrics, class, sample weight and repaired errors of the whole cleaning, including the infrastructure-invalid return |
| TravelSft.CorrectAnswerSupervised | src/travel_grpo/collection/clean_travel_trajectories.py:491-516 | A correct answer counted on the cleaned messages was supervised by the mask loop on the full ones |
| TravelSft.RetainedMeans | src/travel_grpo/collection/clean_travel_trajectories.py:645-659 | Repaired context was retained if and only if some kept turn was not accepted |
| TravelSft.ClassMeans | src/travel_grpo/collection/clean_travel_trajectories.py:519-538 | Gold and recoverable records teach every aspect of the task with a supervised correct answer; gold ones have only accepted turns, recoverable ones some refused turn; partially correct ones teach some aspect, totally wrong ones have no correct answer |
| TravelEligible.ClassIff | src/travel_grpo/collection/clean_travel_trajectories.py:519-538 | Each class, with its weight, if and only if: input not fine; all aspects answered right with or without a refused turn; some right; none right |
| TravelReclean.RecleanIff | src/travel_grpo/collection/clean_travel_trajectories.py:622-684 | Cleaning the cleaned messages cuts nothing if and only if each kept repaired turn has a repair among the kept turns and each kept wrong answer a later aspect among them |
| TravelReclean.RecleanSame | src/travel_grpo/collection/clean_travel_trajectories.py:622-686 | In that case, and no other, the second cleaning with the same reasoning policy cuts nothing, and it returns the same messages and mask |
| TravelReclean.RecleanCanCut | src/travel_grpo/collection/clean_travel_trajectories.py:645-666 | It may cut: a transcript whose refused action is kept for a repair that the cut removes |
| TravelSft.CleanAndSelect | src/travel_grpo/collection/clean_travel_trajectories.py:729-736 | Every eligible record, asked with or without its audit, contains a supervised Answer turn whose option is correct for the task, and one for every aspect unless only partially correct |
| TravelEligible.EligibleIff | src/travel_grpo/collection/clean_travel_trajectories.py:729-736 | A cleaned record is eligible, asked with or without its audit, if and only if its input is fine and some aspect of the task is answered right in it |
| TeacherCaches.TeacherCache.Load | src/travel_grpo/collection/teacher_collection.py:224-271 | Loads exactly when every stored record passes the checks, and then holds the stored records with refreshed statistics |
| TeacherCaches.TeacherCache.RefreshCompletedTasks | src/travel_grpo/collection/teacher_collection.py:498-513 | Recounts completed tasks and in-flight passes and changes nothing else |
| TeacherCaches.TeacherCache.Claim | src/travel_grpo/collection/teacher_collection.py:316-345 | Returns an id exactly when the pass is valid and its key has no record or one of a retryable error; then stores and saves an in-flight record with that id and provenance, and nothing else |
| TeacherCaches.TeacherCache.RecordSuccess | src/travel_grpo/collection/teacher_collection.py:347-414 | Raises on an invalid pass or mismatched provenance, leaves a success alone, or stores the given trajectory and provenance with its counters and saves |
| TeacherCaches.TeacherCache.ReconcileInFlight | src/travel_grpo/collection/teacher_collection.py:416-427 | Touches only an in-flight record: removes it for a retry, or marks it as an error |
| TeacherCaches.TeacherCache.AbandonInFlight | src/travel_grpo/collection/teacher_collection.py:429-463 | Touches only an in-flight record, and says whether it did |
| TeacherCaches.TeacherCache.RecordError | src/travel_grpo/collection/teacher_collection.py:465-496 | Never touches a success; otherwise stores an error, or keeps the pass in flight for reconciliation |
| TeacherCaches.TeacherCache.Pending | src/travel_grpo/collection/teacher_collection.py:289-314 | Succeeds for pass_k 2 and valid tasks, and lists in task order the passes whose claim would be granted |
| TeacherCaches.TeacherCache.ClaimablesExactly | src/travel_grpo/collection/teacher_collection.py:289-345 | A pass is in that list if and only if it is pass 0 or 1 of a given task and claiming it would return an id |
| TeacherCaches.TeacherCache.PendingMeans | src/travel_grpo/collection/teacher_collection.py:289-314 | The list holds exactly the passes 0 and 1 of the given tasks whose key has no record or one of a retryable error |
| TeacherCaches.TeacherCache.PendingInOrder | src/travel_grpo/collection/teacher_collection.py:289-314 | It names each of them once, task by task in the given order, pass 0 before pass 1 |
| TeacherLaws.ClaimMeans | src/travel_grpo/collection/teacher_collection.py:316-345 | A claim is granted if and only if the pass is valid and its key has no record or one of a retryable error, and then stores exactly an in-flight record |
| TeacherLaws.ResultMeans | src/travel_grpo/collection/teacher_collection.py:347-414 | When a result raises, when it is ignored, and otherwise the whole record and every counter it stores |
| TeacherLaws.ErrorMeans | src/travel_grpo/collection/teacher_collection.py:465-496 | An error is stored over anything but a success, as retryable or to be reconciled, with the merged provenance and one API error more |
| TeacherLaws.InFlightMeans | src/travel_grpo/collection/teacher_collection.py:416-463 | Reconciling and abandoning change only an in-flight record, in the stated way |
| TeacherLaws.UpdatedMeans | src/travel_grpo/collection/teacher_collection.py:316-345 | Merging provenance replaces exactly the given entries |
| TeacherLaws.StripMeans | src/travel_grpo/collection/teacher_collection.py:29-35 | Names lose exactly the blanks at both ends |
| TeacherLaws.PassKeyMeans | src/travel_grpo/collection/teacher_collection.py:29-35 | A key exists for non-blank names and index 0 or 1, and is env, task and index joined in order |
| TeacherLaws.RefreshMeans | src/travel_grpo/collection/teacher_collection.py:498-513 | The recounted figures are the in-flight records and the tasks with a success record for each pass |
| TeacherDriver.Play | src/travel_grpo/collection/teacher_collection.py:224-513 | Playing a run of calls and reloads on the object and its file stays at the run model, and each claim is granted exactly when the model says |
| TeacherRuns.SuccessNeverChanges | src/travel_grpo/collection/teacher_collection.py:316-496 | In every run, reloads included, a success record never changes |
| TeacherRuns.ClaimsAreSeparated | src/travel_grpo/collection/teacher_collection.py:316-496 | Between two granted claims of one key lies a reconciliation or a retryable error on that key |
| TeacherLaws.GrantedAgain | src/travel_grpo/collection/teacher_collection.py:316-496 | After a retryable error on a pass without success, or a reconciliation of one in flight, the next claim of the key is granted unless a call in between stored another status |
| TeacherRuns.ReloadRestores | src/travel_grpo/collection/teacher_collection.py:224-283 | After every run with clear environment names and provenance that agrees with its pass, reloading the file restores records and statistics |
| TeacherRuns.AgreeingLoads | src/travel_grpo/collection/teacher_collection.py:243-268 | Under a clear name a record loads whenever no entry of its provenance speaks of another pass or pool, entries missing or not |
| TeacherLaws.LoadableIff | src/travel_grpo/collection/teacher_collection.py:243-268 | Under a clear name, a record whose task key is its own or missing loads if and only if no other entry contradicts its pass or the task pool |
| TeacherLaws.OtherTaskRefused | src/travel_grpo/collection/teacher_collection.py:243-268 | A record whose task key names another pass is refused |
| TeacherLaws.OpenIff | src/travel_grpo/collection/teacher_collection.py:224-271 | A readable file opens if and only if its schema is known, its run id is missing or the same, and every record loads; the cache then holds exactly its records |
| TeacherRuns.LoadsIffClearName | src/travel_grpo/collection/teacher_collection.py:224-271 | A record with its own provenance loads if and only if the name's first "::" is the separator |
| TeacherRuns.RunOpensIff | src/travel_grpo/collection/teacher_collection.py:224-513 | After every run whose given provenance is made for its pass, the file opens if and only if every stored record names a clear environment, and then the cache is restored |
| TeacherRuns.ColonPairBreaksReload | src/travel_grpo/collection/teacher_collection.py:224-271 | A claim for "a::b" is granted and saved, and the file no longer loads |
| TeacherRuns.NoColonIsClear | src/travel_grpo/collection/teacher_collection.py:29-35 | Every name without ":" is clear, so the theorems above cover it |
| TeacherRuns.CountersExact | src/travel_grpo/collection/teacher_collection.py:347-513 | In every run valid_trajectories and in_flight_passes equal the numbers of such records |
| TeacherRuns.TalliesCount | src/travel_grpo/collection/teacher_collection.py:347-496 | In every run the invalid and abandoned counts are the numbers of such records plus the number of calls that overwrote one |
| TeacherRuns.TallyExactIff | src/travel_grpo/collection/teacher_collection.py:347-496 | Each count is exact if and only if no call of the run overwrote such a record |
| TeacherRuns.InvalidMayBeRetried | src/travel_grpo/collection/teacher_collection.py:465-496 | Such a run exists: a retryable error after an invalid result |
| TeacherRuns.CompletedExact | src/travel_grpo/collection/teacher_collection.py:498-513 | In every run completed_tasks counts exactly the tasks with both passes successful |
| Ulysses.ScatterHeadsIsGlobal | verl/utils/ulysses.py:133-152 | After the exchange each rank holds its column block of the whole sequence |
| Ulysses.ScatterSeqIsRows | verl/utils/ulysses.py:133-152 | The reverse exchange gives each rank its row block |
| Ulysses.GatherHeadsUndoesScatter | verl/utils/ulysses.py:62-101 | On all ranks gathering heads undoes scattering them exactly, without an unpadded size or with one the world size divides |
| Ulysses.GatherHeadsUndoesScatterUnpadded | verl/utils/ulysses.py:62-115 | With an unpadded size the result over all ranks is the unpadded rows followed by zero rows |
| Ulysses.RemovesSome | verl/utils/ulysses.py:77-82 | The exchange never asks to remove zero rows, which would remove all of them |
| Ulysses.ScatterHeadsUndoesGather | verl/utils/ulysses.py:165-191 | The other direction: the exchange used by the backward pass inverts the forward one |
| Ulysses.UlyssesPad | verl/utils/ulysses.py:271-286 | Pads to a multiple with zeros and, when positions are given, restarted positions, by less than the parallel size, and keeps the input as prefix |
| Ulysses.SliceThenGather | verl/utils/ulysses.py:117-130 | Padding, slicing on every rank, gathering and unpadding changes nothing |
| LayerPlacement.ChainTiles | verl/utils/megatron_utils.py:868-966 | Ranges that each start where the previous one ends tile the layers, without gap or overlap |
| LayerPlacement.EvenTiles | verl/utils/megatron_utils.py:935-963 | The even branches, interleaved or not, tile when each process asks for its own stage |
| LayerPlacement.AskedAt | verl/utils/megatron_utils.py:955-963 | A wrong answer moves the first stage before layer 0 and any other stage one layer on |
| LayerPlacement.AnswersTileIff | verl/utils/megatron_utils.py:935-963 | With any answers, the starts tile if and only if the embedding is not counted or every answer is the asked stage's own |
| LayerPlacement.OneAnswerTilesIff | verl/utils/megatron_utils.py:935-963 | Asked from one process, the starts tile if and only if the embedding is not counted |
| LayerPlacement.RankAnswersTileIff | verl/utils/megatron_utils.py:796-808 | With one answer per pipeline rank, as the weight collection asks, they tile with the embedding counted if and only if there is one virtual rank and only rank 0 answers that it is first |
| LayerPlacement.UnevenTiles | verl/utils/megatron_utils.py:923-934 | The uneven branch tiles, with or without middle stages |
| LayerPlacement.UnevenInterleavedTiles | verl/utils/megatron_utils.py:902-922 | The uneven interleaved branch tiles when the first count is set and a middle stage exists |
| LayerPlacement.UnsetFirstTilesIff | verl/utils/megatron_utils.py:902-922 | Without the first count it tiles if and only if middle stages have no layers, or stage 1 is the last one and has none |
| LayerPlacement.NoMiddleStageFails | verl/utils/megatron_utils.py:902-922 | Without a middle stage every later stage divides by zero |
| LayerPlacement.OneStageStartsAtZero | verl/utils/megatron_utils.py:964-966 | Without pipeline parallelism every start is layer 0 |
| DataBatches.PadToDivisor | verl/protocol.py:85-110 | The loop ends, pads to the next multiple, and row n + j is row j mod n |
| DataBatches.CopiesRepeat | verl/protocol.py:85-110 | Concatenating whole copies and a final prefix is cyclic repetition, for the tensor and every column |
| DataBatches.Chunk | verl/protocol.py:667-702 | Succeeds if and only if the chunk count divides the size; row j of chunk i is row i * size + j of the batch, for the tensor and every column |
| DataBatches.MapThenConcat | verl/protocol.py:731-761 | Mapping each chunk and concatenating is mapping the whole batch |
| DataBatches.MappedRow | verl/trainer/main_generation.py:131-131 | A mapped batch has the same size and metadata, and in each row what the row-wise function makes of the whole input row, tensors and columns together |
| DataBatches.UnpadMapped | verl/protocol.py:113-116 | Mapping a padded batch and dropping the padding is mapping the batch |
| DataBatches.Dispatch | verl/trainer/main_generation.py:125-132 | Pad, chunk, map per worker, concatenate, unpad: the same as mapping the original rows |
| MemoryBuffers.PaddedIsLeastAligned | verl/utils/memory_buffer.py:53-57 | The padded size is the least 128-bit aligned size that fits |
| MemoryBuffers.RegionsDisjointAligned | verl/utils/memory_buffer.py:70-96 | Regions of one dtype are disjoint, aligned and inside the buffer |
| MemoryBuffers.RegionsPacked | verl/utils/memory_buffer.py:113-137 | The regions of one dtype follow one another without gaps beyond the padding |
| MemoryBuffers.BuildMemoryBuffer | verl/utils/memory_buffer.py:70-96 | One fresh zeroed buffer for exactly the dtypes that occur, of exactly the total padded size |
| MemoryBuffers.BuildMemoryReference | verl/utils/memory_buffer.py:113-137 | The views are the regions of the parameters, and no range assert fails |
| MemoryBuffers.CopyInto | verl/utils/memory_buffer.py:99-110 | The copy gives the target the source's values and writes nowhere else |
| MemoryBuffers.BuildMemoryReferenceFromModule | verl/utils/memory_buffer.py:99-110 | No range assert fails, every parameter ends on its own region, and after the whole loop each still holds its original values |

## Left out

- CUDA streams, events and pinned memory: copies are synchronous, collectives are functions of all ranks' inputs.
- Recomputation under activation checkpointing and autograd's own order: a run is forward pushes and commits, then backward commits and pops in any order per layer.
- Offload storage identity: `_get_unique_tensor_key` is a label; a reload makes fresh labels, and `.view(shape)` is equality of flat contents.
- Heap layout: a pop returns some least state, so every theorem holds for every tie-breaking.
- Regexes, JSON and text: a message carries its parsed call, the aspects and option ids found in its text, the rejection kind and the state lines; an empty argument dictionary is an absent call.
- `canonicalize_record` and `validate_canonical`: messages are already canonical, per-message fault annotations are already hoisted, fault positions are non-negative, and schema validity is an input.
- Audit texts, per-event audit lists and hashes of the cleaning.
- Timestamps, elapsed times, costs, request payloads and uuids of the cache: parameters or dropped; the payload of a record is one string, and token counts are one number.
- Provenance entries are text or a number: an entry of another JSON type, and a record or provenance that is no object, are not modelled.
- Atomic file replacement and file locks: writing replaces the saved copy; code revision, manifests and sanitizers are not modelled.
- String stripping: blanks are space, tab, newline and carriage return.
- Tensor dimensions other than sequence and heads are folded into the elements; gradient scaling in `Gather` is not modelled.
- `unpadded_dim_size` larger than the gathered sequence: the exchange is modelled for sizes up to it.
- `DataProto` metadata beyond being shared by all parts, the `conversation_histories` special case of the generation loop and printing of warnings.
- DataBatches.Chunk: models the checked mode. With auto-padding switched on the divisibility assert is skipped and the sizes of uneven chunks are those of the tensor library, which is not part of this model.
- Layer offsets for a zero or negative number of stages: process groups do not have them.
- Parameter names: metadata and module parameters are lists in the order the source sorts or visits them.
- The device count of other data-parallel ranks in `rearrange_micro_batches` is one number, their maximum.
- Integer widths: Python integers are unbounded, and tensor sizes are taken to fit their types.
