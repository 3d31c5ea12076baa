# riptimize: reconciliation and planning core, in Dafny

`riptimize` compares two inventories in one cloud region:

- the on-demand instances running in a set of linked accounts;
- the capacity reservations (RIs) held in one reservation account.

It produces:

- the mismatch between the two, per (instance type, availability zone);
- the instances running in zones the reservation account does not cover;
- the surplus or deficit per instance type;
- a greedy plan that moves idle reservations into zones that need them.

It then turns the plan into one reservation-modification request per donor
reservation group. A request is made live only when the caller asks for it and no
earlier modification is still processing. Otherwise every request is a dry run with
the placeholder id `rimod-<DRY-RUN>`.

The project models that core, stage by stage, in the form the source has:

| file | module | stage |
|---|---|---|
| `dict.dfy` | `Dict` | Python dictionaries as association lists `seq<(K, V)>` with distinct keys. `ToMap` gives the mapping a list stands for. Lookup-with-default, assignment, `+=` and `del` are stated against it. Iteration order is list order: insertion order, with an update kept in place and a deletion closing the gap. |
| `inventory.dfy` | `Inventory` | The tally loops over running instances and reservation groups, the merge of the per-account inventories, and the zone check. |
| `mismatch.dfy` | `Mismatch` | `ri - demand` with zero entries dropped, the split by zone support, the surplus per type and its non-zero part. |
| `greedy.dfy` | `Greedy` | `greedy_distribution`. `Plan` is the plan as a function of the mismatch. `GreedyDistribution` is the source's nested loops, over a snapshot of the donors, proved to compute exactly that plan. The properties of the plan are lemmas about `Plan`. |
| `executor.dfy` | `Executor` | `execute_plan` and `move_reserved_instances`. The listed reservation groups are records; their instance counts are an array that the batching loop decrements in place. Moves are grouped into a dictionary of batches keyed by group id. Each batch becomes one modification request with a remainder configuration, or a dry-run placeholder. |
| `riptimize.dfy` | `Riptimize` | The `riptimize` driver: the stages chained in the source's order, the abort on an unavailable zone, and the guard that decides between a live run and a dry run. |

The loops that update dictionaries in place are methods with loop invariants. This
covers the tallies, the merge, the mismatch, the surplus and the planner; each is
proved against a function or a map-level statement of its result. The dictionary
comprehensions are functions: the zone split, the non-zero filters and the mode
guard.

The batcher works on the listing `execute_plan` fetches. The listing is a sequence
of `ReservationGroup` records. The instance counts the batcher decrements in place
are an `array` indexed by listing position, and a move names its donor group by that
position. Its loops are specified by functions of the counts:

- `DonorGroups` gives the donor groups of one action.
- `TakeMoves` gives the moves of one action and the counts it leaves.
- `Schedule` does the same for the whole plan, action after action.
- `Batches` gives the dictionary of batches keyed by group id.

`BatchMoves` is proved to leave exactly `Schedule`'s counts and `Batches` of its
moves; its inner `while` loop is `WalkDonors`, proved equal to `TakeMoves`. What the
source promises about the moves is proved about `Schedule` and `Batches` as lemmas:
where each move comes from and goes to, each action's total, per-group conservation,
and one batch per donor group id. `ExecutePlan` and `Riptimize` carry these facts
up (the ghost predicate `Executed`).

`Serve`, `Run` and `Plan`, the plan as a function of the mismatch, carry no
contract of their own. `ServeShape`, `ServeType`, `RunShape` and the `Greedy…`
lemmas below state what they compute. Likewise `RecipientsNegative` and
`DonorsFacts` state what `Recipients` and `Donors` hold.

Where the data comes from:

- The service listings are parameters of `Riptimize.Riptimize`:
  - the (type, placement) of every running instance, per linked account;
  - the zones of the reservation account with their states;
  - the modifications still processing;
  - two listings of the active reservation groups: the one the reservation
    inventory is tallied from (riptimize.py:202-208) and the one `execute_plan`
    fetches for itself (riptimize.py:280).
- A live modification request is the value `Requested(ModifyRequest(ids, targets))`.
  It stands for the answer of the external call.

## Model

| member | source | states |
|---|---|---|
| Dict.Get | riptimize.py:162-165 | The `if k in d: … d[k] … else: <fallback>` lookup: when `k` is a key, the value it maps to; otherwise the fallback. The create-or-update idiom at 175-178 and 218-219 is `Dict.AddTo`, which reads the old value through `Get`. |
| Dict.Put | riptimize.py:242-244 | `d[k] = v` keeps the keys distinct and maps `k` to `v`. An existing entry is updated where it stands; a new key is appended. |
| Dict.AddTo | riptimize.py:175-178 | The `+=`-or-create idiom adds `k` to the keys and changes only `k`'s value, by `delta` |
| Dict.Remove | riptimize.py:258 | `del d[k]` removes exactly `k`. The other entries keep their order. |
| Dict.Negate | riptimize.py:272 | `{k: -diff …}`: the same keys in the same order, each mapped to the negated value |
| Dict.NonZero | riptimize.py:222 | The comprehension keeps exactly the entries whose value is not zero |
| Inventory.TallyInstances | riptimize.py:160-165 | Per account: the keys are exactly the (type, placement) pairs that occur. For each, the count is the number of running instances with that pair. |
| Inventory.TallyReservations | riptimize.py:203-208 | The keys are the (type, zone) pairs of the active groups. For each, the value is the sum of those groups' instance counts. |
| Inventory.AggregateInventory | riptimize.py:171-179 | The key set is the union of all account key sets. For each key, the value is that key's count summed over all accounts. |
| Inventory.AccountKeysMembers | riptimize.py:173-178 | A key is in the merged key set iff some account's inventory holds it |
| Inventory.AggregateOrderIrrelevant | riptimize.py:173 | Any reordering of the accounts, such as another dictionary order of `values()`, gives the same keys and the same totals |
| Inventory.SupportedZones | riptimize.py:187-193 | The zone names, in order, if every zone is available. Otherwise the first zone whose state is not `available`, which stops the run. |
| Mismatch.ComputeMismatch | riptimize.py:214-222 | A key is in the mismatch iff it is in either inventory and its reserved count minus its running count, each 0 where the key is absent, is not 0. That includes keys found only in the instance inventory. The value is that difference. |
| Mismatch.EliminateUnsupportedZones | riptimize.py:269-273 | The key sets of the clean mismatch and the eliminated inventory are disjoint, and their union is the mismatch's keys. The clean part keeps `diff` for supported zones; the eliminated part holds `-diff` for the others. |
| Mismatch.ZoneSplitReconstructs | riptimize.py:269-273 | The clean part together with the negated eliminated part gives back the mismatch exactly |
| Mismatch.ComputeSurplus | riptimize.py:225-233 | The keys are exactly the instance types of the mismatch. The value for a type is the sum of `diff` over all keys of that type. |
| Mismatch.Imbalance | riptimize.py:118 | `ri_imbalance` is exactly the non-zero part of the surplus |
| Greedy.RecipientsNegative | riptimize.py:238-242 | `Recipients`, the first half of the split, keeps exactly the entries with a deficit: every value is negative and equals the mismatch's value for its key |
| Greedy.DonorsFacts | riptimize.py:238-244 | `Donors`, the second half, keeps exactly the entries with a surplus: every value is positive, and for every key what the donors hold is the mismatch's value when positive and 0 otherwise |
| Greedy.GreedyDistribution | riptimize.py:236-266 | The nested loops produce exactly the plan `Plan(m)`. They split the mismatch into recipients and donors and serve each recipient from a snapshot of the donors left. |
| Greedy.ServeRecipient | riptimize.py:248-264 | One pass of the outer loop, with deletions and decrements on the live donor dictionary while a snapshot of it is walked, equals `Serve`. It gives the same actions and the same donors left. |
| Greedy.TakeDonor | riptimize.py:256-260 | A used-up donor is deleted; a donor used in part is decremented in place. No other entry moves. |
| Greedy.ServeShape | riptimize.py:249-260 | `Serve`, one recipient served from the donors in order: every action it records is of the recipient's type, goes to the recipient's zone, moves a positive count and comes from a key that holds surplus. The donors it leaves all still hold a positive surplus. |
| Greedy.RunShape | riptimize.py:248-264 | `Run`, the recipients served one after the other: every action moves a positive count into the key of one of the recipients, and the donors left all hold a positive surplus |
| Greedy.ServeConservation | riptimize.py:253-260 | For one recipient, reservations moved out of a key plus what is left of it equal its surplus before |
| Greedy.RunConservation | riptimize.py:248-264 | The same conservation over all recipients |
| Greedy.ServeType | riptimize.py:249-264 | One recipient of type `t` receives `min(need, total surplus of type t)`. The donors left lose exactly that amount of type `t`, and nothing of other types. |
| Greedy.RunTypeTotals | riptimize.py:248-264 | Over all recipients, the amount of type `t` moved is `min(total surplus, total deficit)` of that type |
| Greedy.GreedyActionsValid | riptimize.py:240-255 | Every action moves a positive count from a key with positive mismatch to a key of the same type with negative mismatch. So source and destination differ. |
| Greedy.GreedyDonorBound | riptimize.py:248-260 | The total moved out of a key is at least 0 and at most its original surplus. It is 0 for a key with no surplus. |
| Greedy.GreedyRecipientBound | riptimize.py:248-264 | The total moved into a key is at least 0 and at most its original deficit. It is 0 for a key with no deficit. |
| Greedy.GreedyTypeTotals | riptimize.py:248-266 | Per instance type, the plan moves exactly `min(total surplus, total deficit)` of that type |
| Greedy.OneSidedTypeIdle | riptimize.py:240-251 | A type that has only donors, or only recipients, gets no action |
| Greedy.SingleMoveExample | riptimize.py:236-266 | `{(m4.large,1a): 6, (m4.large,1b): -6}` gives the single action `(m4.large, 1a, 1b, 6)` |
| Executor.InstanceCounts | riptimize.py:280 | The counts the batcher starts from are the instance counts of the listed groups, position by position |
| Executor.DonorGroups | riptimize.py:287 | The positions of exactly the listed groups of the action's type and source zone whose count is positive, each once, in listing order |
| Executor.TakeMovesFrom | riptimize.py:288-297 | Every move of one action takes from one of the action's donor groups and goes to the action's destination, and no move is negative |
| Executor.TakeMovesPositive | riptimize.py:287-290 | With donors in listing order that all hold instances, every move of the action is positive |
| Executor.TakeMovesCounts | riptimize.py:288-297 | For one action, every group's count drops by exactly what the moves take from it, and a count that changes stays at 0 or above |
| Executor.TakeMovesTotal | riptimize.py:288-297 | With donors in listing order that all hold instances, the action's moves add up to `min(count, what the donors hold)` |
| Executor.ActionTotal | riptimize.py:284-297 | Per action: its moves add up to `min(count, what the groups of its type and source zone hold when the action starts)` |
| Executor.ScheduleMoves | riptimize.py:284-297 | Every move of the plan takes a positive count from a listed group of the type and source zone of some action, and goes to that action's destination |
| Executor.ScheduleConservation | riptimize.py:284-297 | Over the whole plan, every group's count drops by exactly what the moves take from it, and a count that changes stays at 0 or above |
| Executor.AddMoveIsPut | riptimize.py:292-295 | Creating the batch when `id` is not yet a key and appending the move is the dictionary assignment of the batch extended by the move (the empty batch extended, for a new key). Keys stay distinct, an existing batch grows where it stands, and a new one is appended. |
| Executor.BatchesByGroup | riptimize.py:284-297 | The batch of an id holds exactly the moves of the groups with that id, in the order they were made. There is a batch for the id exactly when some move takes from such a group. |
| Executor.BatchIds | riptimize.py:292-295 | The batches are keyed by exactly the ids of the groups the moves take from |
| Executor.OneBatchPerGroup | riptimize.py:284-303 | There are exactly as many batches, and so modifications, as distinct donor group ids among the moves |
| Executor.BatchesBatched | riptimize.py:292-295 | Every batch is non-empty, and all its moves belong to groups whose id is the batch's key |
| Executor.Configs | riptimize.py:313-316 | One configuration per move, in order: the move's destination and its count |
| Executor.Targets | riptimize.py:312-318 | The configurations of the moves, followed by the group's remainder in its own zone exactly when that remainder is positive |
| Executor.Request | riptimize.py:310-320 | The request names only the first move's group id. Its targets hold the moved counts plus the remainder of the batch's last group, when that is positive. |
| Executor.ConfigsTotal | riptimize.py:313-316 | The configurations built from the moves hold exactly the moved counts |
| Executor.TargetsTotal | riptimize.py:312-318 | With the remainder configuration added only when the leftover is positive, the targets hold the moved counts plus that leftover |
| Executor.ScheduleBatchTotal | riptimize.py:296-318 | With distinct group ids, the targets of every batch hold exactly the instance count its group was listed with: what its moves took plus what it kept |
| Executor.MoveReservedInstances | riptimize.py:309-324 | Live: the request for the batch, as `Request` states. Dry run: `rimod-<DRY-RUN>`. |
| Executor.BatchMoves | riptimize.py:284-297 | The batching loop leaves exactly the counts of the plan's schedule, and its dictionary is the batches of the schedule's moves |
| Executor.TakeForAction | riptimize.py:285-297 | One action: the counts end up where `TakeMoves` over the action's donor groups leaves them, and the batches gain exactly its moves |
| Executor.WalkDonors | riptimize.py:288-297 | The `while` loop over the donors: the counts and the new batch entries are those of the walk over all the donors, which `WalkedTakes` proves equal to `TakeMoves` |
| Executor.WalkedTakes | riptimize.py:288-297 | Walking the donors one at a time until the count is met makes exactly the moves of `TakeMoves` and leaves its counts |
| Executor.Record | riptimize.py:292-295 | Appending a move to the batch of its group's id gives the batches of the moves so far, one move longer |
| Executor.SubmitBatches | riptimize.py:300-303 | One modification per batch, in batch order. Each is the batch's live request, or the dry-run placeholder. |
| Executor.ExecutePlan | riptimize.py:276-306 | Through `Executed`: one id per batch in batch order, so one per distinct donor group id, each the batch's request (live) or the placeholder (dry run); every move positive, from a group of some action's type and source zone to that action's destination; every group's count drops by exactly what its moves take. The ghost `batches` are the batches of the schedule's moves. With distinct group ids, every batch's targets hold its group's listed count. |
| Riptimize.PerformOptimization | riptimize.py:107-128 | A run is live only when `optimize` holds and no modification is processing: a dry run when not asked, a dry run when anything is processing, live otherwise |
| Riptimize.TalliesCountRunning | riptimize.py:101-103 | Merging the per-account tallies counts every running instance exactly once |
| Riptimize.InstanceInventory | riptimize.py:101-103 | One tally per account, in account order. Each tally has no repeated key, its keys are exactly the (type, placement) pairs running in that account, and each count is the number of such instances. The merge has no repeated key, and its keys are exactly the pairs running somewhere. For every key, the merged count is the number of running instances with that key over all accounts. |
| Riptimize.ReservationInventory | riptimize.py:199-208 | No repeated key, and the keys are exactly the (type, zone) pairs of the listed groups, including those whose groups hold 0. For every key, the value is the sum of the instance counts of the listed groups with that key. |
| Riptimize.CleanAndEliminated | riptimize.py:109-113 | For every key: the clean mismatch is `ri - demand` in a supported zone and nothing elsewhere; the eliminated inventory is `demand - ri` in an unsupported zone and nothing elsewhere |
| Riptimize.Reconcile | riptimize.py:109-118 | The clean mismatch, the eliminated inventory and the imbalance, each stated per key or per type in terms of the two inventories. None of them has a repeated key, and the clean mismatch and the eliminated inventory hold no zero entry. |
| Riptimize.Analyse | riptimize.py:101-126 | The run up to the plan. It aborts exactly when some zone is unavailable, at the first one. Otherwise it reports what `InstanceInventory`, `ReservationInventory` and `Reconcile` state: the per-account inventories, the merged and reservation inventories with their key sets, the mismatch, the imbalance (without a repeated type) and the plan, together with the processing modifications it was given and no ids yet. |
| Riptimize.Riptimize | riptimize.py:100-138 | Everything `Reports` states, as for `Analyse`, and the processing modifications returned unchanged. An empty plan gives no ids. A non-empty plan is executed on the executor's listing, with everything `Executed` states: the ids, one per batch and per distinct donor group id; where every move comes from and goes to; and per-group conservation. Unless `optimize` holds and no modification is processing, every id is the dry-run placeholder; otherwise every id is a live request. |

## Left out

- Network calls are not modelled:
  - the connections to the service;
  - the listing calls, which are parameters here;
  - the server-side filters (`running`, `active`, `processing`), which are taken to have been applied to the listings.
- The account loop of `get_i_inventory_by_account` (riptimize.py:145-150) is modelled by `Riptimize.InstanceInventory`. The source keys the per-account tallies by account id; the model indexes them by the account's position in the list of accounts, and the ids themselves are not modelled.
- The live `modify_reserved_instances` call and its `time.time()` client token (riptimize.py:322) are external. A live id is the request the call would carry.
- The `platform = "EC2-VPC"` field of a target configuration is a constant and carries no logic.
- `publish_cw_metrics` (riptimize.py:327-334) is CloudWatch I/O, and so is step 9 of `riptimize`.
- `example_main.py` (printing, CSV and S3 reports, the driver) is presentation and I/O only.
- The error raised for an unavailable zone (riptimize.py:191) is not modelled. Its format string has two placeholders and one argument, so the source raises a formatting error instead of the intended message. Either way the run stops with no result, which is what `Aborted(zone)` models.
- Python 2 dictionary order is unspecified. The model uses insertion order everywhere, so the plan is deterministic. The properties proved about the plan hold for every order of the mismatch, because they quantify over any input sequence.
- Group objects are modelled by listing position: every entry of a listing has its own instance count. A listing in which one object appears twice, so that decrementing one entry changes the other, is not modelled. Two distinct groups that share an id are modelled.
- Executor.ExecutePlan: a batch's targets are stated to hold its group's listed count only when the listed groups have distinct ids. With two groups sharing an id, their moves share one batch, and the request carries only the remainder of the batch's last group, as the source does.
- Executor.ExecutePlan: each action's total, `min(count, what its donor groups hold)`, is stated through `Schedule`, whose per-action part `ActionTotal` proves it. `Executed` does not repeat it action by action.
- Riptimize.Riptimize: the listing the reservation inventory is tallied from and the listing `execute_plan` fetches come from two service calls, so they are two parameters. The model does not relate them.
