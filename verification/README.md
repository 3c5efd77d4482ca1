# VPN control plane: a verified model

The control plane keeps a fleet of VPN nodes in step with what users have paid for. This project
models the parts of it where several operations have to work together, and proves what they keep.

- **Placements** (`PlacementTable`, `PlacementMigration`, `PlacementRepository`, `PlacementProtocol`,
  `PlacementService`). A placement row says which backend serves a key, what the backend should do and what it
  last acknowledged; a command tells the backend that, and what the key looks like. Commands are numbered by the row's operation version, deduplicated by message id, answered
  in any order, possibly late or never. `PlacementProtocol` is the state machine of all of this; its theorems
  are about every run.
- **Auto-heal and rebalancing** (`RoundRobin`, `AutoHeal`, `Reconcile`). Orphaned keys of a failed backend are
  spread over the candidates; a periodic tick fills in missing placements.
- **Billing and subscriptions** (`Billing`, `BillingService`, `Subscriptions`). Orders, balances, the ledger and
  the expiry of subscriptions, under repeated webhooks and a sweep that runs beside them.
- **Nodes and entries** (`Heartbeat`, `Fleet`, `FleetService`). Heartbeat hysteresis, drains by administrators,
  heartbeats, auto-heal, probes and the entry tick, and the pool snapshots owed to entry nodes after each of them.
- **Recurring expenses** (`Calendar`, `RecurringExpenses`), **failure alerts** (`FailureMonitor`) and the
  **route bootstrap** (`RouteBootstrap`).

Tables are maps from identifiers to rows. What the source does by updating objects and rows is a class whose
methods are proved against functions on values; the results over whole runs are lemmas about those functions.
A call that raises leaves its tables unchanged, as its database transaction does. Times, identifiers a database
would generate, and the answers of services outside the model are parameters.

`dafny verify dfyconfig.toml` checks everything.

## Where the code falls short of what one would expect

Each of these is kept as the code has it; the lemmas named give the exact condition under which the expectation holds
and a case where it does not.

- A rebalancing tick that finds nothing missing closes its session without a commit, so the withdrawal of
  placements from draining nodes that it began with is lost (`Reconcile.WithdrawalCommitted`,
  `Reconcile.WithdrawalLost`).
- A key changed while its placement is pending raises no version, and its command is then dropped as a repetition
  (`PlacementProtocol.DeduplicationExactly`, `PlacementService.RenewedKeyIsNotResent`).
- The expiry sweep reads without a lock and updates without looking at the status again, so an order paid in
  between ends as expired (`Billing.SweepSparesSettled`, `Billing.PaidOrderIsSafe`,
  `Billing.SweepCanOverwritePaidOrder`).
- A refund is subtracted from the balance without a check and may leave it negative (`Billing.SolventExactly`); a
  purchase fulfilled on a negative balance books the payment but skips the purchase (`Billing.FulfilmentNetsZero`,
  `Billing.RefundThenPurchaseFails`).
- The support desk's refund looks for orders in status paid, in which no order ever rests, so it never finds one
  (`Billing.AtMostOnce`).
- The drain cooldown of auto-heal depends on a moment that the next heartbeat drops
  (`Heartbeat.CooldownNeedsDrainingBeat`).
- The entry tick takes back an entry it once drained even if an administrator has drained it since
  (`Fleet.AdminDrainSticks`, `Fleet.HoldOverAutoDrain`).
- The administrator's PATCH of a node sends no pool snapshots (`Fleet.SilentChangeKeepsAgreement`,
  `Fleet.PatchBreaksAgreement`), although the note on the snapshot helper asks it of every flip
  (`services/entry/events.py`).
- Monthly expenses of the 29th to the 31st slip to an earlier day for good after a short month
  (`Calendar.MonthlyDrift`, `Calendar.DriftFromJanuary`).
- An edit of a recurring template does not check that a foreign currency has a rate, and one due template without it
  makes every tick fail for all templates (`RecurringExpenses.StandsStillExactly`,
  `RecurringExpenses.OneTemplateStopsAll`).
- A route bootstrap with recovery on and base weight zero never settles (`RouteBootstrap.ZeroWeightNeverSettles`),
  and a dry run does not foresee routes moving to a transport still to be created
  (`RouteBootstrap.DryRunForecasts`, `RouteBootstrap.DryRunMisses`).

## Model

| member | source | states |
|---|---|---|
| `PlacementTable.SetDesiredKeepsTable` | services/placements/repository.py:473-503 | Changing the desired state of any rows keeps one row per key and node and keeps 0 ≤ applied version ≤ operation version. |
| `PlacementTable.UpsertKeepsTable` | services/placements/repository.py:152-192 | An upsert never makes a second row for a key on a node and keeps the versions ordered. |
| `PlacementTable.UpsertWrites` | services/placements/repository.py:152-192 | Exactly one row is written: the key's row on the node, one version higher, or else a new row at version one; it is active, pending, with the given desired state and stickiness, and its acknowledged version is untouched. |
| `PlacementTable.MigrationKeepsTable` | services/placements/repository.py:356-471 | Of any selection: the unique constraint lets the migration through if and only if no two rows of one key would be moved, whichever source the database picks for a merge. |
| `PlacementTable.OneMigration` | services/placements/repository.py:356-471 | With one selected row per key nothing collides and the outcome is determined. |
| `PlacementTable.MigrateKeepsUnique` | services/placements/repository.py:356-471 | So such a migration never puts two rows of one key on one node, whatever rows were there before. |
| `PlacementTable.MigrateCarries` | services/placements/repository.py:356-471 | For each selected row not yet on the target there is a carrier, and it is the only row of that key there; it is active and pending, has the source's desired state and stickiness, a version one higher and an untouched applied version; a merged source is only switched off, and nothing selected stays active elsewhere. |
| `PlacementTable.CarriersAreRaised` | services/placements/repository.py:356-471 | The rows a migration leaves waiting are exactly those whose version it raises, and they are active and pending on the target. |
| `PlacementTable.MigrateFrame` | services/placements/repository.py:356-471 | Rows neither selected nor standing on the target for a selected key are left exactly as they were. |
| `PlacementTable.LandKeepsMatches` | services/placements/repository.py:294-318 | Accepting a report leaves every row's backend and version alone, so it changes for no other report whether it would be accepted. |
| `PlacementMigration.PartitionCovers` | services/placements/repository.py:391-414 | Move and merge are disjoint and together are exactly the selected rows that are not on the target. |
| `PlacementMigration.MergeStageTargets` | services/placements/repository.py:419-460 | The second UPDATE, which already sees the rows the first one moved, still picks exactly the old target rows, each with one of its own sources. |
| `PlacementMigration.StagesMigrate` | services/placements/repository.py:391-471 | The three UPDATE statements one after the other are a migration as defined row by row, for every selection. |
| `PlacementMigration.MergedRowsCount` | services/placements/repository.py:405-460 | With one selected row per key there are as many merged target rows as merge sources. |
| `PlacementMigration.MigrationPlan` | services/placements/repository.py:391-471 | From the partitioning loop to the last statement: the table is a migration, the moved and the merged rows are disjoint and together all the carriers, and with one row per key their number is the number of rerouted rows. |
| `PlacementRepository.SetDesiredSettles` | services/placements/repository.py:473-503 | Repeating the same desired-state request finds no row left to raise. |
| `PlacementRepository.GroupedIsPermutation` | services/placements/repository.py:320-354 | Grouping a batch of reports by state loses and duplicates none. |
| `PlacementRepository.LandGroupIsSequential` | services/placements/repository.py:320-354 | The single UPDATE of a group has the effect of its reports applied one by one. |
| `PlacementRepository.LandAllKeepsMatches` | services/placements/repository.py:320-354 | After any batch the same reports would be accepted as before it. |
| `PlacementRepository.UserPlacementRepository.UpsertSetPending` | services/placements/repository.py:152-192 | Inserts or raises exactly the one row of key and node; afterwards it is active, pending, one version higher and uniquely there; every other row is unchanged. |
| `PlacementRepository.UserPlacementRepository.BulkUpsertSetPending` | services/placements/repository.py:643-685 | The loop over pairs equals the upserts in order; the returned rows serve exactly the requested pairs and are exactly the rows new or changed. |
| `PlacementRepository.UserPlacementRepository.MapActiveBackendNodesByKey` | services/placements/repository.py:542-561 | The dictionary has exactly the requested keys with an active row, each with all of its nodes. |
| `PlacementRepository.UserPlacementRepository.DeactivatePlacementsOnNode` | services/placements/repository.py:194-222 | Returns exactly the rows active and wanted on the node; each becomes inactive in desire, pending and one version higher; afterwards no row on the node is active and wanted, and all others are unchanged. |
| `PlacementRepository.UserPlacementRepository.SetDesiredStateForKey` | services/placements/repository.py:224-269 | Afterwards no permitted row of the key is out of step; what changed is permitted, carries the request, is pending and one version higher; the count is the number of rows changed. |
| `PlacementRepository.UserPlacementRepository.BulkSetDesiredStateForKeys` | services/placements/repository.py:473-503 | Raises and returns exactly the rows out of step; none is out of step afterwards. |
| `PlacementRepository.UserPlacementRepository.SetPendingForBackend` | services/placements/repository.py:271-292 | Returns exactly the active rows on the node; each is pending and one version higher, and no other row changes. |
| `PlacementRepository.UserPlacementRepository.Split` | services/placements/repository.py:405-414 | The partitioning loop sorts every source row off the target into move or merge by whether its key already has a row there. |
| `PlacementRepository.UserPlacementRepository.BulkMigrateBackend` | services/placements/repository.py:356-471 | Fails, changing nothing, if and only if two rows of one key would be moved; otherwise the table becomes a migration that keeps rows unique, the returned rows are exactly the carriers without repetition, and with one row per key the count is the number of rerouted rows. |
| `PlacementRepository.UserPlacementRepository.ApplyBackendReport` | services/placements/repository.py:294-318 | Accepts the report, and counts it, exactly when the row still has the reported version and the reporting backend; otherwise changes nothing. |
| `PlacementRepository.UserPlacementRepository.ApplyGroup` | services/placements/repository.py:334-353 | One grouped statement lands the group's reports as if in sequence and returns exactly the rows hit. |
| `PlacementRepository.UserPlacementRepository.GroupByState` | services/placements/repository.py:328-332 | The dictionary holds, per state in first-seen order, exactly the reports of that state in order. |
| `PlacementRepository.UserPlacementRepository.BulkApplyBackendReport` | services/placements/repository.py:320-354 | The batch lands its reports as a sequence of single applications in grouped order and returns exactly the rows whose report matched. |
| `PlacementRepository.BatchOutcome` | services/placements/repository.py:320-354 | After any sequence of reports a row is changed if and only if one names its present version and backend; then it is acknowledged at that version with the state of such a report, and nothing else of it changes. |
| `PlacementProtocol.StatementKeepsInv` | services/placements/repository.py:152-503 | Any statement that raises a version whenever it changes an instruction, and inserts only new rows, keeps the protocol invariant. |
| `PlacementProtocol.DiscardedExactly` | services/nodes/agent/repository.py:23-28 | In any reachable state, what the conflict clause on the message id discards differs from what is queued at most in the columns of the key, and nothing is lost if and only if it does not differ at all. |
| `PlacementProtocol.StepKeepsInv` | services/placements/repository.py:152-503 | Every step keeps the invariant: upsert, desired state, requeue, drain withdrawal, migration of any selection, change and deletion of a key, enqueue, snapshot, answer, delivery. |
| `PlacementProtocol.RunKeepsInv` | services/placements/service.py:135-162 | The invariant holds after every sequence of steps. |
| `PlacementProtocol.ProtocolSafety` | services/placements/service.py:135-162 | In every run, a row shown as applied at its current version was last acknowledged by its current backend, answering a command that was sent and that names this row, its present key, backend, version and desired state; versions stay ordered. |
| `PlacementProtocol.LandsExactlyWhenCurrent` | services/placements/repository.py:294-318 | In every run, the answer to a command is accepted if and only if the row still has the command's key, backend, version and desired state and the command went to the backend itself; then exactly the acknowledgement is written, and otherwise nothing. |
| `PlacementProtocol.CommandsExactly` | services/placements/transport.py:38-157 | A command is sent if and only if it carries a listed active row's own key, backend, version and desired state and its active key's columns, to the backend or to an entry paired with it. |
| `PlacementProtocol.StepWrites` | services/placements/repository.py:194-292 | What each statement, key change and snapshot writes, column by column. |
| `PlacementProtocol.AnswerApplies` | services/placements/service.py:135-162 | Progress: after any run, an active row with an active key can be enqueued, answered and delivered, and is then applied at its current version, with nothing else changed. |
| `PlacementProtocol.BatchIsDeliveries` | services/placements/repository.py:320-354 | Landing a batch is a run of single deliveries, so everything proved of runs covers the bulk path. |
| `PlacementProtocol.MessageIdsFaithful` | services/placements/transport.py:38-79 | In every run, two commands for one placement and version carry one instruction and can differ only in recipient and key columns; the outbox never holds two commands under one message id. |
| `PlacementProtocol.SentOnce` | services/placements/transport.py:38-79 | Every message in the outbox entered it at one step of the run, with the columns its key had then. |
| `PlacementProtocol.DeduplicationExactly` | services/placements/transport.py:38-79 | Over every run, enqueueing with deduplication gives the outbox that enqueueing everything would give if and only if the key of each row enqueued again is what it was when the message of the row's version was first sent. |
| `PlacementProtocol.RunAdvances` | services/placements/repository.py:152-503 | Along every run versions only grow and removed rows never return. |
| `PlacementProtocol.SupersededForever` | services/placements/repository.py:294-318 | A command once superseded can never be acknowledged by any continuation of the run. |
| `PlacementService.RenewedKeyIsNotResent` | services/vpn/subscriptions/service.py:586-609 | The failing run, for any two states of a key: renewed while its placement is pending, it raises no version, and the command with the new columns is dropped and never sent. |
| `PlacementService.NodeRowsHaveDistinctKeys` | services/placements/service.py:78-93 | The rows served on one node belong to different keys, so a migration of them cannot collide. |
| `PlacementService.UserPlacementService.CommandsForRow` | services/placements/transport.py:52-78 | One command for the backend and one copy for each entry in front of it, each with the row's own key, backend, version and desired state, and nothing else. |
| `PlacementService.UserPlacementService.CommandsForRows` | services/placements/transport.py:52-78 | The loop over rows builds exactly the commands of all rows. |
| `PlacementService.UserPlacementService.EnqueueForPlacementIds` | services/placements/transport.py:38-79 | Nothing queued is lost; what is new carries the columns of a listed active row; and every listed active row with an active key has a command of its current version for its backend in the outbox. |
| `PlacementService.WhatIsEnqueued` | services/placements/transport.py:38-79 | What enqueueing adds and guarantees, in terms of the rows' columns. |
| `PlacementService.UserPlacementService.MigrateBackend` | services/placements/service.py:57-107 | Succeeds if and only if source and target exist, differ and the target is active, enabled and not draining; then no row on the source is active and wanted, each key that had one has a pending row on the target, rows stay unique, and exactly the carriers are announced; otherwise the error is the first check that failed and nothing changes. |
| `PlacementService.SourceIsEmptied` | services/placements/service.py:57-107 | Migrating what a node serves leaves no row there active and wanted, and an active, pending row on the target for each of its keys. |
| `PlacementService.UserPlacementService.ApplyResult` | services/placements/service.py:135-162 | Answers "stale" if and only if the report does not match, and then changes nothing; otherwise lands it and answers with its state. |
| `RoundRobin.DealtSize` | services/nodes/auto_heal_service.py:351-362 | Dealt in turn, place j receives ⌊m/n⌋ entries, and one more exactly when j < m mod n. |
| `RoundRobin.DealtPartitions` | services/nodes/auto_heal_service.py:351-362 | No entry is dealt to two places, and every entry is dealt to one. |
| `AutoHeal.OrphansAvoidCandidates` | services/nodes/auto_heal_service.py:326-358 | The key of an orphan sits on no candidate, so the fallback to the full candidate list never happens. |
| `AutoHeal.FirstLeastLoaded` | services/nodes/auto_heal_service.py:360 | The minimum over the list is the first of the least loaded. |
| `AutoHeal.LeastLoadedIsNext` | services/nodes/auto_heal_service.py:360 | After k placements the first least loaded of n candidates is number k mod n. |
| `AutoHeal.Choose` | services/nodes/auto_heal_service.py:355-360 | One turn of the loop picks a candidate, and the first least loaded of all when none is taken. |
| `AutoHeal.Distribute` | services/nodes/auto_heal_service.py:351-362 | The greedy loop deals the orphans to the candidates in turn. |
| `AutoHeal.SpreadIsEven` | services/nodes/auto_heal_service.py:351-362 | Any two candidates receive numbers of orphans that differ by at most one. |
| `AutoHeal.MigrateIsLocal` | services/placements/repository.py:356-471 | A migration touches only rows of the keys selected. |
| `AutoHeal.HealGroup` | services/nodes/auto_heal_service.py:364-374 | Migrating one more group keeps every earlier orphan's new home and gives each row of the group one. |
| `AutoHeal.HandsAreEven` | services/nodes/auto_heal_service.py:351-374 | Once every hand has been migrated, the numbers of orphans the table serves from any two candidates differ by at most one. |
| `AutoHeal.NodePlacementAutoHealService.FindOrphans` | services/nodes/auto_heal_service.py:328-336 | Splits the served rows into orphans and covered ones exactly, and counts the covered. |
| `AutoHeal.NodePlacementAutoHealService.MigrateGroup` | services/nodes/auto_heal_service.py:364-374 | Migrates one group and announces exactly its carriers. |
| `AutoHeal.NodePlacementAutoHealService.MigrateGroups` | services/nodes/auto_heal_service.py:364-374 | After the loop every orphan has a home on a candidate, the total is the number of orphans, and the final table carries numbers of them to any two candidates that differ by at most one. |
| `AutoHeal.NodePlacementAutoHealService.SmartMigratePlacements` | services/nodes/auto_heal_service.py:287-384 | Without candidates nothing changes; otherwise each key that had an active, wanted row on the failed node has an active row on a candidate, exactly the keys on no other healthy node are moved, to active, pending, announced rows, evenly to within one, and the return value is their number. |
| `AutoHeal.AutoHealCoverage` | services/nodes/auto_heal_service.py:287-384 | Afterwards every key with an active, wanted row on the failed node has an active row on a candidate; if it had one before, its rows are unchanged. |
| `AutoHeal.AutoHealFrame` | services/nodes/auto_heal_service.py:287-384 | A row changes only if its key was active and wanted on the failed node and active on no candidate. |
| `Reconcile.UpsertAllServes` | services/placements/repository.py:643-685 | After a batch of upserts a pair is served if and only if it was before or is in the batch. |
| `Reconcile.BatchShrinksMissing` | services/placements/repository.py:591-685 | Upserting some missing pairs removes exactly those from what is missing and makes no new key active. |
| `Reconcile.TickProgress` | services/placements/reconcilers/rebalance.py:54-122 | Each tick shrinks what is missing by exactly a full batch, or to nothing, and leaves no draining node served when anything was missing. |
| `Reconcile.Convergence` | services/placements/reconcilers/rebalance.py:54-122 | After k ticks exactly max(0, m − k·batch) pairs are missing, whichever pairs each tick picked; when none is, every key wanted anywhere has an active, wanted row on every healthy node, after ⌈m/batch⌉ ticks. |
| `Reconcile.WithdrawalCommitted` | services/placements/reconcilers/rebalance.py:54-122 | A tick leaves no active, wanted row on a draining node if and only if fewer than two nodes are healthy, or a pair was missing, or there was no such row before: with nothing missing the session closes without commit and the withdrawal is lost. |
| `Reconcile.WithdrawnExactly` | services/placements/reconcilers/rebalance.py:105-122 | The withdrawal turns exactly the active, wanted rows on draining nodes to inactive, raising their version and leaving their acknowledgement. |
| `Reconcile.WithdrawalLost` | services/placements/reconcilers/rebalance.py:54-122 | The failing case: a key served on two healthy nodes and a draining one; every tick leaves the table as it is. |
| `Reconcile.FindMissingPlacements` | services/placements/repository.py:591-641 | Returns distinct pairs of a healthy node and a key wanted somewhere but not there, as many as the batch allows; all of them if there is room. |
| `Reconcile.MissingExactly` | services/placements/repository.py:591-641 | A pair is missing if and only if the node is healthy, the key has an active, wanted row somewhere, and none on that node. |
| `Reconcile.RebalanceTick` | services/placements/reconcilers/rebalance.py:54-122 | The tick is one of the transitions the convergence result speaks about, for every batch size including non-positive ones; it returns the number of pairs filled, and the outbox gains the commands of the withdrawn rows and of exactly the rows new or changed, or nothing when it does not commit. |
| `Billing.FulfilCounts` | services/billing/service.py:764-858 | Fulfilling writes one payment entry, and completes the order, exactly when it changes anything; it never writes a refund. |
| `Billing.FulfilExactly` | services/billing/service.py:764-860 | An order awaiting payment of an existing user is completed, with a payment entry of its amount and, for slots or a plan on sale that the balance covers, a purchase entry of the same amount; any other order is left alone. |
| `Billing.TopUpIsCredited` | services/billing/service.py:764-860 | A paid order that buys nothing raises the balance by its amount, with that one payment entry, and is completed. |
| `Billing.StepConsistent` | services/billing/service.py:675-963 | Every step keeps order statuses and ledger entries consistent with each other. |
| `Billing.StepWrites` | services/billing/service.py:498-1034 | For every step, which order, balance and ledger entry it writes, with amounts and running totals, and when it does nothing. |
| `Billing.RunConsistent` | services/billing/service.py:675-963 | So does every run, from any consistent state. |
| `Billing.AtMostOnce` | services/billing/service.py:675-963 | However webhooks, confirmations, cancellations, refunds and the two halves of the sweep interleave, an order has at most one payment and one refund, a completed or refunded external order exactly one payment, no external order more refunds than payments, and none ever rests as paid or failed. |
| `Billing.SweepSparesSettled` | services/billing/repository.py:238-258 | The sweep's UPDATE leaves settled orders alone if and only if each listed order still awaits payment or is expired already. |
| `Billing.SweepCanOverwritePaidOrder` | services/billing/repository.py:238-258 | Every overdue order is exposed: selected, then paid, then swept, it ends expired with its payment booked and no refund possible. |
| `Billing.PaidOrderExpires` | services/billing/repository.py:238-258 | Along any run a settled order ends expired if and only if a recorded sweep that lists it is carried out. |
| `Billing.PaidOrderIsSafe` | services/billing/repository.py:238-258 | A settled order stays settled in every continuation if and only if no sweep selected before lists it. |
| `Billing.PostAgrees` | services/billing/service.py:1054-1078 | A balance update with its entry keeps balances equal to opening plus ledger. |
| `Billing.LedgerConsistency` | services/billing/service.py:1054-1078 | After every run each balance is its opening plus the sum of its entries, and each entry's balance-after is the running total. |
| `Billing.SolventExactly` | services/billing/service.py:920-950 | From non-negative balances, no balance is negative after a run and none was on the way if and only if every refund that took effect found a balance covering it, which the code does not check. |
| `Billing.OnlyRefundsMakeDebt` | services/billing/service.py:764-1034 | In every run, refunds included, no balance is further below zero than refunds have taken back from that user. |
| `Billing.RefundFreeRunsStaySolvent` | services/billing/service.py:764-1034 | Without refunds no balance, now or in any ledger entry, is ever negative. |
| `Billing.FulfilmentNetsZero` | services/billing/service.py:764-858 | Fulfilling a purchase moves the balance by zero, with two entries, if it was not negative; else only the payment is booked. |
| `Billing.SolventFulfilmentNetsZero` | services/billing/service.py:764-858 | After any run whose refunds were covered the next such fulfilment leaves every balance where it was. |
| `Billing.RefundThenPurchaseFails` | services/billing/service.py:764-963 | The failing run: a refund of a spent payment leaves the balance at minus its amount, and the next plan paid for is booked but not bought. |
| `BillingService.BillingService.RecordTransaction` | services/billing/service.py:1054-1078 | Balance and ledger move together: balances that were opening plus ledger stay so, for every opening. |
| `BillingService.BillingService.ChargeBalance` | services/billing/service.py:1250-1274 | Debits with an entry if and only if the balance covers the amount. |
| `BillingService.BillingService.FulfillOrderLocked` | services/billing/service.py:764-860 | The outcome by status; on success the order is completed and the ledger gains the payment and, where something is bought, the purchase, with these amounts and running totals; anything else changes nothing. |
| `BillingService.BillingService.ProcessWebhook` | services/billing/service.py:665-711 | Not found, amount mismatch and success are told apart exactly; a payment fulfils an order awaiting it, a cancellation expires it, and nothing else changes anything. |
| `BillingService.BillingService.ConfirmStarsPayment` | services/billing/service.py:715-732 | Refuses exactly the orders of other providers; an order awaiting payment is fulfilled, any other left alone. |
| `BillingService.BillingService.Refund` | services/billing/service.py:920-963 | Succeeds if and only if the order is paid or completed and its user exists; then it is refunded and its amount subtracted, with an entry. |
| `BillingService.BillingService.CreateBalanceOrder` | services/billing/service.py:498-575 | Succeeds if and only if the balance covers the order; then it is completed and its amount subtracted, with an entry; otherwise nothing remains of it. |
| `BillingService.BillingService.CreditBalance` | services/billing/service.py:998-1014 | If and only if the user exists the amount is added, with one entry of it and the new balance. |
| `BillingService.BillingService.DebitBalance` | services/billing/service.py:1016-1034 | If and only if the user exists and the balance covers it the amount is subtracted, with one entry of it and the new balance. |
| `BillingService.BillingService.SelectOverdue` | services/billing/repository.py:238-258 | Picks orders awaiting payment past their expiry, the earliest first, as many as the limit allows; with room left no such order is passed over. |
| `BillingService.BillingService.ExpireSelected` | services/billing/repository.py:238-258 | No money moves, every listed order ends expired, and settled orders are spared if and only if each listed one was still awaiting payment or expired. |
| `Subscriptions.SubscriptionTable.LatestForUser` | services/vpn/subscriptions/repository.py:471-481 | Finds one of the user's dated subscriptions that expires last, or none when there is none. |
| `Subscriptions.SubscriptionTable.ApplyPurchase` | services/billing/service.py:1277-1353 | Extends exactly one row of the user's own: the renewed one when it fits, else an active one of the plan, else a dated one that expires last; creates one if and only if there is none of these. |
| `Subscriptions.PeriodLengths` | services/billing/constants.py:9-11 | One, three, six and twelve months are 30, 90, 180 and 365 days; any other period counts as one month. |
| `Subscriptions.PurchaseWrites` | services/billing/service.py:1277-1353 | The row after a purchase: the plan's period runs from the later of now and the old expiry if the plan stays, else from now; paid slots grow by the extra devices, and the device limit is set anew with a new row or plan. |
| `Subscriptions.NoPaidDayLost` | services/billing/service.py:1277-1353 | After any purchases the expiry is the largest of the old expiry plus everything paid and, for each purchase, its moment plus everything paid from it on. |
| `Subscriptions.RowAfterExpiry` | services/billing/service.py:1277-1353 | The expiry of the stored row after any purchases is the one the results above speak about. |
| `Subscriptions.ExpiryNeverDecreases` | services/billing/service.py:1277-1353 | The expiry never moves back along the way. |
| `Subscriptions.UnlimitedStartsNow` | services/billing/service.py:1277-1353 | A subscription without an expiry goes through any purchases as if it had expired at the first of them, and loses no paid day. |
| `Heartbeat.CountersAreStreaks` | services/nodes/service.py:499-528 | The stored counters are the lengths of the trailing healthy and unhealthy streaks, from any stored start. |
| `Heartbeat.FlapPotential` | services/nodes/service.py:213-294 | Thresholds spent on transitions plus the counter now running never exceed the starting counter plus the heartbeats received; drains and restores alternate. |
| `Heartbeat.AntiFlap` | services/nodes/service.py:213-294 | From any state, drains and restores cost their thresholds in heartbeats; a node that starts and ends alike had as many of each. |
| `Heartbeat.HealthExactly` | services/nodes/service.py:485-497 | A heartbeat counts as unhealthy exactly on the node's own word, or when failed applications count and have reached the threshold. |
| `Heartbeat.TransitionsExactly` | services/nodes/service.py:213-294 | At any heartbeat of any run the node is drained if and only if it was in service, the heartbeat is unhealthy and the run of unhealthy ones has reached the threshold, and taken back if and only if the heartbeat is healthy, the drain is not an administrator's nor for another reason, the node is active and enabled, and the run of healthy ones has reached its threshold; flags, reason and moment follow. |
| `Heartbeat.LeftAloneAfterBeats` | services/nodes/auto_heal_service.py:386-444 | After any run of heartbeats, auto-heal leaves the node alone if and only if it is in service and its last heartbeat was healthy and recent, or that very heartbeat drained it within the cooldown. |
| `Heartbeat.CooldownNeedsDrainingBeat` | services/nodes/service.py:499-528 | After any heartbeat the node is inside the cooldown if and only if that very heartbeat drained it recently enough: the next heartbeat forgets when. |
| `Fleet.PoolUnique` | services/entry/service.py:62-110 | A pool is determined by the tables. |
| `Fleet.StripMeans` | services/entry/service.py:324-327 | Stripping leaves the part between leading and trailing blanks, which neither starts nor ends with one. |
| `Fleet.PoolIsTruthful` | services/entry/service.py:62-110 | A pool has one relay for each active backend with a live assignment and a non-blank address, and no other; each shows the stripped address, the weight and rank of its assignment, and is enabled if and only if assignment and node are and the node is not draining; the generation is the latest change. |
| `Fleet.PoolExists` | services/entry/service.py:62-110 | Every entry has one. |
| `Fleet.PoolFrame` | services/entry/service.py:62-110 | Only the entry's active assignments and the nodes they name matter to it. |
| `Fleet.NotifyInv` | services/entry/service.py:200-204 | Changing a node's flags and telling every entry in front of it keeps all snapshots in agreement and cannot fail. |
| `Fleet.LinkInv` | services/entry/service.py:120-194 | Rewriting one assignment and telling its entry keeps all snapshots in agreement. |
| `Fleet.ProbeDrainInv` | services/probe/drain_service.py:50-117 | A probe drain keeps the agreement, also when a failed migration is compensated; compensation restores the flags. |
| `Fleet.EntryTickInv` | services/entry/drain_service.py:62-95 | One entry of an auto-drain tick, in each of its branches, keeps the agreement. |
| `Fleet.PatchInv` | services/nodes/service.py:577-591 | A PATCH keeps active assignments well-formed and snapshots in agreement if and only if every told entry shows the node alike and its role still fits its active assignments. |
| `Fleet.StepInv` | services/entry/service.py:120-204 | Every step keeps the agreement if and only if it is not a PATCH that some entry would have to hear of. |
| `Fleet.SnapshotAgreement` | services/entry/service.py:335-353 | Over every run of assignments, administrator, heartbeat, auto-heal, probe and entry-tick steps, the last snapshot of each entry is at all times the pool the tables give, and active assignments join valid, told entries to backends, if and only if every PATCH among them keeps what its node's entries see and its roles. |
| `Fleet.HeartbeatWrites` | services/nodes/service.py:213-294 | A heartbeat always goes through, and leaves flags and counters as one beat of the hysteresis does. |
| `Fleet.EntryTickWrites` | services/entry/drain_service.py:68-93 | When the tick drains an entry and when it takes it back, and what it writes. |
| `Fleet.ProbeStepWrites` | services/probe/drain_service.py:50-117 | A probe drain of a node in service writes flag, source, reason and moment, and a failed migration takes them all back. |
| `Fleet.AutoHealStepsWrite` | services/nodes/auto_heal_service.py:136-259 | When auto-heal drains and takes back a node, by its flags and stored reason, and what it writes. |
| `Fleet.AdminStepsWrite` | services/nodes/router.py:90-126 | What drain, enable and PATCH write to the node, and nothing else but snapshots. |
| `Fleet.LinkStepsWrite` | services/entry/service.py:120-194 | Which assignment row an assignment, its update and its removal write, and when. |
| `Fleet.SilentChangeKeepsAgreement` | services/nodes/service.py:577-591 | Whatever a PATCH writes to a node row, flags, address or role, the agreement survives if and only if every told entry with an active assignment shows the node alike before and after. |
| `Fleet.PatchBreaksAgreement` | services/nodes/service.py:577-591 | The failing case: in a fleet of one entry and one backend, a PATCH that drains the backend or moves its address leaves the entry misinformed. |
| `Fleet.StepEndsHold` | services/entry/drain_service.py:151-180 | One step ends an administrator's drain if and only if it is the enable, a PATCH of the flag, or an entry tick that finds its own drain reason and enough healthy heartbeats; it never asks who drained the node. |
| `Fleet.HoldLasts` | services/nodes/router.py:90-126 | Along every run the drain lasts exactly until one of those steps. |
| `Fleet.AdminDrainSticks` | services/nodes/router.py:90-126 | The drain outlasts every run in which no administrator enables or patches the node if and only if the node is not an entry in use that the entry tick had drained before. |
| `Fleet.HoldOverAutoDrain` | services/entry/drain_service.py:127-180 | The failing run, for any entry in service and any threshold: the tick drains it, the administrator drains it, healthy heartbeats arrive, and the next tick ends the administrator's drain. |
| `FleetService.OrderedIsCanonical` | services/entry/service.py:77-103 | One set of backends has one sorted list, so an unchanged pool is sent unchanged. |
| `FleetService.InsertOrdered` | services/entry/service.py:77-103 | Insertion keeps the list sorted by rank and id and adds exactly the new element. |
| `FleetService.EntryService.Generation` | services/entry/service.py:328-333 | Zero without assignments, else the latest change among them. |
| `FleetService.EntryService.CollectBackends` | services/entry/service.py:77-103 | Sorted list of exactly the active, addressable backends with a live assignment, each shown as its node and assignment are. |
| `FleetService.EntryService.GetRelayPool` | services/entry/service.py:62-110 | Succeeds exactly for a valid entry, and then lists exactly its reachable backends, each shown as its node and assignment are, in order of rank. |
| `FleetService.EntryService.EnqueuePoolSnapshot` | services/entry/service.py:335-353 | The entry's last snapshot becomes its current pool; nobody else's changes. |
| `FleetService.EntryService.EnqueueAll` | services/entry/service.py:200-204 | Succeeds exactly when all entries are valid, and then each has its current pool. |
| `FleetService.EntryService.NotifyBackendHealthChanged` | services/entry/service.py:200-204 | All entries in front of the backend are told, or nothing happens. |
| `FleetService.EntryService.FlipFlags` | services/nodes/service.py:231-294 | A flag change with the notification owed for a backend, or nothing. |
| `FleetService.EntryService.AssignBackend` | services/entry/service.py:120-158 | Succeeds exactly for a valid entry, an active backend and matching zones; the new state is the assignment step; an error changes nothing. |
| `FleetService.EntryService.Relink` | services/entry/service.py:160-194 | Rewrites one assignment and tells its entry, or does nothing. |
| `FleetService.EntryService.UpdateExistingAssignment` | services/entry/service.py:160-178 | Changes only the fields given, and nothing without any. |
| `FleetService.EntryService.RemoveExistingAssignment` | services/entry/service.py:180-194 | Deactivates the assignment and tells the entry. |
| `FleetService.EntryService.DrainNode` | services/nodes/router.py:90-105 | The administrator's drain step. |
| `FleetService.EntryService.EnableNode` | services/nodes/router.py:111-126 | The administrator's enable step. |
| `FleetService.EntryService.HandleHeartbeat` | services/nodes/service.py:213-294 | The two checks made one after the other, the second on what the first left, equal one transition of the hysteresis. |
| `FleetService.EntryService.PatchNode` | services/nodes/service.py:577-591 | The PATCH step: only the given fields change, and no snapshot is sent. |
| `FleetService.EntryService.NotifyColleagues` | services/entry/drain_service.py:258-274 | Every entry sharing a backend with the node has its current pool as last snapshot. |
| `FleetService.EntryService.TryUndrainEntry` | services/entry/drain_service.py:151-180 | Undrains exactly on its own reason and enough healthy heartbeats, and otherwise changes nothing. |
| `FleetService.EntryService.AutoDrainEntry` | services/entry/drain_service.py:68-93 | One entry of the tick: drain, undrain and snapshots equal the entry-tick step, and the two flags report exactly what changed. |
| `FleetService.EntryService.AutoHealDrainNode` | services/nodes/auto_heal_service.py:136-150 | The drain of an unavailable node. |
| `FleetService.EntryService.RecoverDrainingNode` | services/nodes/auto_heal_service.py:221-259 | The recovery of a node, refused for an administrator's drain. |
| `FleetService.EntryService.DrainAndMigrateBackend` | services/probe/drain_service.py:50-117 | Drain, reason, snapshots and compensation equal one probe step. |
| `Calendar.AddMonthsMoves` | services/finance/utils.py:8-13 | The result is a real date, exactly that many months on, on the same day or the last of a shorter month. |
| `Calendar.AdvanceMoves` | services/finance/utils.py:16-21 | A week is seven days on; a month or a year is one or twelve calendar months on, on the same day or the month's last. |
| `Calendar.MonthTable` | services/finance/utils.py:8-13 | The twelve month lengths, with the leap years of the Gregorian calendar. |
| `Calendar.BeforeMeansEarlier` | services/finance/service.py:362-383 | The comparison of dates is that of their day numbers and, within a day, of the time. |
| `Calendar.AddMonthsIncreases` | services/finance/utils.py:8-13 | More months is strictly later; none changes nothing. |
| `Calendar.AddMonthsComposes` | services/finance/utils.py:8-13 | Up to the 28th, shifts add up and can be undone. |
| `Calendar.MonthlyStepsDay` | services/finance/utils.py:16-21 | After k monthly steps the day is the least of the start day and every month length met. |
| `Calendar.MonthlyDrift` | services/finance/utils.py:16-21 | Stepping month by month and shifting once agree if and only if no month on the way is shorter than the day the single shift reaches. |
| `Calendar.DriftFromJanuary` | services/finance/utils.py:16-21 | The failing case: from 31 January of any year two steps end on 28 or 29 March, one shift on the 31st. |
| `Calendar.AddWeekAddsSevenDays` | services/finance/utils.py:16-21 | A week is seven days on the calendar across months, years and leap days. |
| `Calendar.AdvanceIncreases` | services/finance/utils.py:16-21 | Every period leads to a valid, strictly later date. |
| `RecurringExpenses.NormalizeToRub` | services/finance/utils.py:24-31 | Roubles stay as they are; a foreign amount needs a positive rate and is rounded to the nearest hundredth, halves away from zero. |
| `RecurringExpenses.BacklogStops` | services/finance/service.py:362-383 | The loop stops at the first date after now or at the limit, and all it books is due. |
| `RecurringExpenses.TickOfTemplate` | services/finance/service.py:357-384 | A tick leaves a template alone or books its next dates in sequence, up to now or the limit. |
| `RecurringExpenses.BookedUnlessBlocked` | services/finance/service.py:357-384 | A template that is active, due, unlocked and has a usable rate is booked by a tick, up to the limit, if and only if no active, due, unlocked one lacks a rate. |
| `RecurringExpenses.StandsStillExactly` | services/finance/service.py:357-384 | Over any ticks nothing is booked for any template if and only if each tick finds nothing due or a due, unlocked template without a usable rate. |
| `RecurringExpenses.OneTemplateStopsAll` | services/finance/service.py:151-165 | The failing case: one active, due template edited to a currency without a rate stops all templates for as long as it stays so. |
| `RecurringExpenses.ExactlyOnce` | services/finance/service.py:357-384 | After any ticks at any times, the expenses of an unedited template are the first n dates of its orbit, no gap, no repetition, none early, and the next run date is the one that follows. |
| `RecurringExpenses.CaughtUpMeansAll` | services/finance/service.py:357-384 | A template caught up to a moment has booked exactly its dates up to that moment. |
| `RecurringExpenses.SplittingTicksIsHarmless` | services/finance/service.py:357-384 | However the work is split into ticks, once caught up to the same moment expenses and template are the same. |
| `RecurringExpenses.BookedDatesIncrease` | services/finance/service.py:362-383 | Booked dates are strictly increasing. |
| `RecurringExpenses.BookingsAre` | services/finance/service.py:362-383 | The k-th booking has the template's amount, its rouble value and the k-th date; of the template only the next date moves on. |
| `RecurringExpenses.FinanceService.CatchUp` | services/finance/service.py:362-382 | The inner loop books exactly the backlog, with its dates, and returns the date after it. |
| `RecurringExpenses.FinanceService.MaterializeTemplate` | services/finance/service.py:359-383 | Books one template and moves its next run date. |
| `RecurringExpenses.FinanceService.MaterializeDueTemplates` | services/finance/service.py:357-384 | The new books are the tick; it fails, changing nothing, if and only if a due template has an unusable rate; else it counts everything booked. |
| `FailureMonitor.DropOldIsFilter` | services/notifications/failure_monitor.py:20-22 | Popping from the front of an ascending window is filtering it. |
| `FailureMonitor.RecentExactly` | services/notifications/failure_monitor.py:20-22 | The window holds exactly the events at or after the cutoff, each as often as it happened. |
| `FailureMonitor.WindowIsFilter` | services/notifications/failure_monitor.py:16-22 | The window kept after a failure is the whole history filtered by the cutoff. |
| `FailureMonitor.RecordTracks` | services/notifications/failure_monitor.py:16-32 | Recording keeps the window equal to the filtered history and the alerts at least a cooldown apart. |
| `FailureMonitor.RecordStep` | services/notifications/failure_monitor.py:16-32 | And does so for all providers at once. |
| `FailureMonitor.ProviderFailureMonitor.constructor` | services/notifications/failure_monitor.py:8-14 | Starts with no events and no alerts. |
| `FailureMonitor.ProviderFailureMonitor.PopOld` | services/notifications/failure_monitor.py:21-22 | The pop loop drops exactly the leading events before the cutoff. |
| `FailureMonitor.ProviderFailureMonitor.Record` | services/notifications/failure_monitor.py:16-32 | The window becomes the filtered history; an alert is raised if and only if it is full enough and the cooldown is over; alerts stay a cooldown apart. |
| `FailureMonitor.ProviderFailureMonitor.Reset` | services/notifications/failure_monitor.py:34-36 | Forgets one provider and leaves the others alone. |
| `RouteBootstrap.NeedsUpdateExactly` | services/artifacts/service.py:243-270 | The column-by-column check forgets no column. |
| `RouteBootstrap.UpdatesAreWellWeighted` | services/artifacts/service.py:273-359 | Every emitted update is a change, active, on the requested nodes and transport, with an effective weight between zero and the base weight. |
| `RouteBootstrap.DesiredExactly` | services/artifacts/service.py:273-359 | A moved or inactive route starts afresh, healthy at the base weight; an unhealthy or weightless one goes to warm-up when recovery is on; any other keeps health and timers with its weight cut to the base. |
| `RouteBootstrap.DesiredIsStable` | services/artifacts/service.py:273-359 | With recovery off or a positive base weight, the desired row of a desired row is itself, at any time. |
| `RouteBootstrap.TransportsCounted` | services/artifacts/service.py:117-159 | The counters are the numbers of new transports, of those that differ or are inactive, and of inactive ones. |
| `RouteBootstrap.RoutesCounted` | services/artifacts/service.py:172-226 | The counters are the numbers of new routes, of routes not as desired, and of inactive ones. |
| `RouteBootstrap.RoutesWritten` | services/artifacts/service.py:172-226 | The row of each cell after a run: the desired one if the route existed, else a new healthy one at the base weight. |
| `RouteBootstrap.BootstrapIdempotent` | services/artifacts/service.py:117-226 | With distinct names and recovery off or a positive base weight, a second run of the payload changes and counts nothing. |
| `RouteBootstrap.ZeroWeightNeverSettles` | services/artifacts/service.py:117-226 | Conversely, with recovery on and base weight zero, a second run updates every route again. |
| `RouteBootstrap.RoutesForecast` | services/artifacts/service.py:166-226 | A dry run's route counters are those of the real run, short of the missed routes in the updated count. |
| `RouteBootstrap.DryRunForecasts` | services/artifacts/service.py:117-226 | A dry run changes nothing, and its counters are exact if and only if no settled route waits for a transport still to be created; otherwise they are short by the number of such routes. |
| `RouteBootstrap.DryRunMisses` | services/artifacts/service.py:172-226 | The failing case: a settled route whose transport is new counts as nothing in the dry run and as one update in the real run. |
| `RouteBootstrap.ProfileArtifactService.SyncTransports` | services/artifacts/service.py:117-159 | The loop brings transports in line and counts, writing nothing in a dry run. |
| `RouteBootstrap.ProfileArtifactService.SyncRoutes` | services/artifacts/service.py:172-226 | The loop brings routes in line and counts. |
| `RouteBootstrap.ProfileArtifactService.BootstrapRoutes` | services/artifacts/service.py:117-226 | Transports first, then routes against the transports as they then stand. |

## Left out

- HTTP routers, schemas, configuration, migrations, authentication, metrics, logging, the bot and the dashboards: they keep no state of their own that the modelled operations read; they parse requests, call these operations and present their results.
- NATS, Redis, Telegram and payment providers: their messages are parameters of the steps; publishing an outbox row and delivering a message are not distinguished.
- Node selection by the routing service, promo codes, referral eligibility and route or node naming: their results are parameters.
- Prices, proration, fees, promo activation, device slot limits and the subscription deactivated by a refund: only amounts, balances and expiries are modelled.
- Database isolation: each service call is one atomic step, except the expiry sweep, whose SELECT and UPDATE are two.
- The columns `updated_at` of placements and `last_migration_reason`, which no modelled decision reads.
- Route health ticks, warm-up stages and probe verdicts, whose outcomes enter as parameters.
- Node bootstrap, node creation and deletion: the set of nodes, and which of them are active, is fixed during a run of `Fleet`.
- What a PATCH that takes a node off the backend role does to its placements, beyond the row itself.
- `_ensure_routes_for_assignment` in the entry service, which creates routes and changes neither assignments nor pools.
- The 32-bit width of version columns: versions are unbounded.
- Identifiers and names are integers, money is whole kopecks, and blanks are the ASCII ones, the separators 28 to 31 among them.
- PlacementProtocol.DiscardedExactly: leaves out the `updated_at` stamp of a command, as PlacementProtocol.DeduplicationExactly does.
- PlacementProtocol.DeduplicationExactly: a command also carries the row's `updated_at` stamp, which is not modelled; a discarded repetition may bear a later stamp than the command queued.
- PlacementRepository.UserPlacementRepository.BulkUpsertSetPending: assumes distinct pairs, as the query of missing pairs gives them; the database rejects a repeated pair.
- Billing.SolventExactly: assumes orders of non-negative amount, as prices are.
- Billing.OnlyRefundsMakeDebt: assumes orders of non-negative amount, as prices are.
- Billing.RefundFreeRunsStaySolvent: leaves out refunds, which may make a balance negative; the exact condition with refunds is Billing.SolventExactly.
- BillingService.BillingService.CreditBalance: assumes a positive amount, as the request schema does.
- BillingService.BillingService.DebitBalance: assumes a positive amount, as the request schema does.
- Heartbeat.AntiFlap: counts transitions made by heartbeats while nobody else changes the node; the other writers are steps of `Fleet`.
- FleetService.EntryService.NotifyColleagues: a backend whose notification raises is passed over whole; the source logs the error and keeps the snapshots enqueued before it. In the states of Fleet.SnapshotAgreement none raises.
- Fleet.EntryTickInv: the source also passes over virtual entries, which the model does not tell apart; a tick that skips one is no step here.
- FleetService.EntryService.AutoDrainEntry: whether the entry is failing is a parameter; blocking and unblocking its routes is not modelled.
- Calendar.AddMonthsMoves: the year is unbounded, where Python raises outside 1 to 9999; time zones are part of the time of day.
- RecurringExpenses.ExactlyOnce: speaks of templates nobody edits between ticks.
- FailureMonitor.ProviderFailureMonitor.Record: assumes a clock that does not run backwards, and times as reals.
- RouteBootstrap.ProfileArtifactService.SyncRoutes: the three nested loops are one list of cells in their order; a repeated name would read the row as just written.
