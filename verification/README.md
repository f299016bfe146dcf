# Verified model of the system service's ledgers and the plugin host

This project models, in Dafny, the parts of the repository where a mistake would be
silent and lasting: the budget ledger, the configuration store, the event log, the channel
tables with the scheduler jobs they depend on, the store's schema initialisation, the
execution policy validator, the plugin host's refresh protocol, the canonical JSON behind
catalog revisions, and the search for sensitive text in cyclic values.

A service transaction is one atomic step. Each component that updates tables in place
exists twice. The tables as a *value* (`BudgetLedger`, `ConfigLedger`, `ChannelIntake`,
`ChannelDelivery`, `PluginHost`, ...) have one function per transaction, and the theorems are
about all runs of these functions. The tables as an *object* (`BudgetService.Tables`,
`ConfigService.Config`, `ChannelService.IntakeTables`, ...) have methods that follow the
code statement by statement, loops included; each is proved to answer, and to leave in the
tables, exactly what the function says. What the functions themselves do is stated a third
time, as a decision table over plain rows and sums that names no part of their bodies
(`BudgetEffects`, `ChannelEffects`, `PluginPublication`, `ConfigTheorems.ListMeaning`, ...).
Asynchronous and multi-process code (`PluginHost`,
`SchemaInit`) is a step machine cut at every await or SQL statement, and the theorems hold
for every interleaving. Generated identifiers, clocks, and answers of code outside the model
are arguments, universally quantified in every theorem.

`dafny verify dfyconfig.toml` checks everything.

## Where to start

| question | theorem |
|---|---|
| What does each budget call answer and write? | `BudgetEffects.ReserveDecides`, `ObjectiveDecides`, `RecordDecides`, `CommitDecides`, `ReleaseDecides` |
| Can a scope be overspent? | `BudgetSolvency.SolvencyIff`, `Solvency` |
| When is a commit refused? | `BudgetRefusal.CommitCanFailIff`, `CommitRefusedIff`, `BudgetSolvency.CommitNeverRefused`, `LoweredLimitRefusesCommit` |
| Do the sums fit in 64 bits, and what happens when one does not? | `BudgetWords.LimitedSumsFitI64`, `RecordTestIff`, `ReserveTestIff`, `WrappedUsageAccepted`, `BudgetMachine.MachineRunAgrees` |
| Do the books balance, and does the log rebuild them? | `BudgetInvariants.Conservation`, `ReplayRebuilds` |
| Are retries harmless? | `BudgetRetry.ReplayStuttersIff` | crates/system-service/src/budget.rs:26-49 | in every reachable state a reservation whose key is taken returns that key's grant, and changes nothing iff it carries the scope's current limit |
| `BudgetRetry.RetryStuttering` |
| Does the search find every reachable text, cycles or not? | `SensitiveSearch.ContainsSensitiveText` |
| Is compare-and-apply atomic, and does it prevent lost updates? | `ConfigTheorems.AllOrNothing`, `NoLostUpdateIff`, `DeleteDefeatsRevisions` |
| Do page walks miss or repeat anything while others write? | `ConfigTheorems.ConfigWalk`, `ConfigWalkAlongRun`, `EventLog.EventWalk` |
| Does a caller of refresh get a fresh catalog? | `PluginHost.FreshUnlessLate`, `GapExists` |
| What is published, and what does the status say? | `PluginPublication.PublishedIsLastBuilt`, `StatusIsLastResult` |
| Is intake at most once, and attribution stable? | `ChannelIntake.AtMostOnce`, `SenderAttribution` |
| Do deliveries agree with their jobs? | `ChannelDelivery.DeliveriesAgreeWithJobs`, `FinalDeliveriesStay`, `SharedJobIff` |
| Which deliveries can still be sent, and do ended jobs settle their budget? | `ChannelOutcome.CanBeSentIff`, `ChannelBudget.CanBeSentIff`, `EndedJobsAreSettled` |
| Is there one accepted document per policy? | `ExecutionPolicy.AcceptedIffCanonical`, `UniqueAcceptedEncoding` |
| What does each channel call answer and write? | `ChannelEffects.IngestStores`, `ProjectionRuns`, `SubmitStores`, `CompleteDecides`, `FailDecides` |
| Is the stable text JSON for the value? | `StableJson.StableReads` |
| Which values have a canonical text? | `StableOrder.CanonicalIff`, `CanonicalText`, `OrderIndependentIff` |
| When does the listing order of plugins show in the catalog? | `PluginCatalog.CatalogOrderFreeIff`, `SortedListingIff`, `ListingOrderIrrelevant`, `ListingOrderShows` |
| Can two openers initialise a store twice? | `SchemaInit.InitialisedOnce`, `OtherSchemaRefused`, `OpenerFinishes` |

## What the code does that its promises do not say

- A reservation overwrites its scope's limit even when the call is a replay or is denied, so
  a lowered limit can make the commit of a grant that was properly reserved fail
  (`LoweredLimitRefusesCommit`). A run stays solvent exactly when every limit a reservation
  carries covers what its scope has consumed (`SolvencyIff`). A commit on a scope can come to
  be refused, as long as nobody touches the limit again, exactly when the scope holds a
  reserved grant and is not covered (`CommitCanFailIff`).
- Amounts are 64-bit integers and the release profile does not check overflow, so a sum that
  wraps passes the test it should fail: a grant of five tokens, all used, accepts a usage of
  `i64::MAX` (`WrappedUsageAccepted`). `RecordTestIff` and `ReserveTestIff` say exactly when
  the machine's answer is the mathematical one. As long as every sum that is computed fits,
  tested or not, the machine's run is the run the other budget theorems are about
  (`MachineRunAgrees`).
- A missing dimension is "unlimited" in a limit and "zero" in a grant; `expires_at` is stored
  and never read; usage recorded on a grant that is later released is charged to nobody.
- Deleting a configuration key restarts its revisions at 1, so a stale compare-and-apply can
  be accepted after a delete (`DeleteDefeatsRevisions`); with increasing times the entry is the
  one read exactly when no delete of the key took effect in between (`NoLostUpdateIff`).
- A `refresh` call that falls between the drain's last test of `refreshRequested` and its
  `finally` callback gets a build that began before the call, and its request is not served.
- Two deliveries share one scheduler job exactly when one was submitted without an
  idempotency key and its id is the other's idempotency key (`SharedJobIff`,
  `SharedJobExists`).
- A delivery whose job is failed or cancelled through the scheduler itself stays pending for
  good (`StrandedExists`). A pending delivery can still be sent exactly when its job is a
  channel delivery job that has neither failed nor been cancelled (`CanBeSentIff`).
- An event at the least 64-bit timestamp is never returned by a walk from the start.
- `localeCompare` never tells all texts apart: ECMA-262 has it return 0 for canonically
  equivalent strings, and collation ignores the NUL that separates id and version. A value
  has a canonical text exactly when no object in it has two keys that compare as equal
  (`CanonicalIff`). Plugin `a` at 11.0.0 and plugin `a1` at 1.0.0 compare as equal, so the
  order in which storage lists them shows in the catalog revision (`ListingOrderShows`); it
  does not show exactly when no two installs compare as equal (`CatalogOrderFreeIff`).
- The message of `bounded_string` speaks of 256 characters; the code counts bytes.

## Model

| member | source | states |
|---|---|---|
| `BudgetAmounts.ValidAmount` | crates/system-service/src/budget.rs:405-422 | an amount is accepted iff no dimension is negative, a missing one counting as zero |
| `BudgetAmounts.Add` | crates/system-service/src/budget.rs:453-468 | in every dimension the value of a sum is the sum of the values |
| `BudgetAmounts.FitsBudget` | crates/system-service/src/budget.rs:424-440 | true iff in every limited dimension used plus requested is within the limit |
| `BudgetAmounts.FitsReservedGrant` | crates/system-service/src/budget.rs:442-451 | true iff in every dimension used plus delta is within the grant, a missing grant dimension being zero |
| `BudgetAmounts.RemainingBudgetMeaning` | crates/system-service/src/budget.rs:555-582 | a remainder exists iff some dimension is limited and every limited one has room; it fills each limited dimension up to its limit and leaves the others empty |
| `BudgetAmounts.TotalUpdate` | crates/system-service/src/budget.rs:470-496 | replacing one summand of a total trades its old amount for the new one |
| `BudgetAmounts.TotalPrefix` | crates/system-service/src/budget.rs:470-496 | the running totals of the summing loops only grow, so the final total bounds them all |
| `BudgetService.Tables.ReservedBudget` | crates/system-service/src/budget.rs:470-482 | the loop returns the total of the requests of the scope's reserved grants and of no others |
| `BudgetService.Tables.BudgetUsageTotal` | crates/system-service/src/budget.rs:484-496 | the loop returns the total of the grant's usage entries and of no others |
| `BudgetService.Tables.ReserveBudget` | crates/system-service/src/budget.rs:11-111 | new tables and answer are those of the reserve transaction, replay, denial and rollback included; the ledger invariant is kept |
| `BudgetService.Tables.ReserveRemainingObjectiveBudget` | crates/system-service/src/budget.rs:258-332 | new tables and answer are those of the objective reservation, which takes the whole remainder; the invariant is kept |
| `BudgetService.Tables.ObjectiveBudgetHasRemaining` | crates/system-service/src/budget.rs:334-351 | the probe's answer, also for a scope that has no row yet and for a limit that does not match |
| `BudgetService.Tables.RecordBudgetUsage` | crates/system-service/src/budget.rs:125-192 | only the entry table changes, by at most one entry; conflicts, missing, settled and exhausted grants are refused; the invariant is kept |
| `BudgetService.Tables.CommitBudgetGrant` | crates/system-service/src/budget.rs:353-396 | a reserved grant is committed with its recorded usage, which is added to its scope, and an event is logged; any other grant is returned unchanged; the invariant is kept |
| `BudgetService.Tables.ReleaseBudget` | crates/system-service/src/budget.rs:194-224 | a reserved grant is released and an event logged, nothing is charged, any other grant is returned unchanged; the invariant is kept |
| `BudgetService.Tables.AppendEvent` | crates/system-service/src/event_store.rs:5-46 | the log grows by exactly the event |
| `BudgetEffects.ReserveDecides` | crates/system-service/src/budget.rs:46-110 | a new reservation is granted iff in every dimension limited by the request usage plus all reserved requests plus the request stays within the limit; the grant carries the request and is appended with its event; otherwise the answer is denied and one denied event is logged; the limit is stored either way |
| `BudgetEffects.ReserveOtherwise` | crates/system-service/src/budget.rs:11-49 | negative amounts and a taken id change nothing; a taken key returns its grant and stores only the limit |
| `BudgetEffects.ObjectiveDecides` | crates/system-service/src/budget.rs:258-332 | an objective reservation is granted iff some dimension is limited and every limited one has room, and takes exactly all the room; the answers without room, with a taken key, a taken id and another limit |
| `BudgetEffects.ProbeDecides` | crates/system-service/src/budget.rs:334-351 | the probe answers whether there is such room, or refuses another limit |
| `BudgetEffects.RecordDecides` | crates/system-service/src/budget.rs:158-191 | new usage is recorded iff the grant is reserved and in every dimension what is recorded plus the usage is within the grant; exactly one entry is added |
| `BudgetEffects.RecordRepeats` | crates/system-service/src/budget.rs:141-157 | a repeated record returns the earlier entry iff it says the same, and is a conflict otherwise |
| `BudgetEffects.RecordOtherwise` | crates/system-service/src/budget.rs:129-137 | negative amounts, missing identity parts and unknown grants are refused and change nothing |
| `BudgetEffects.CommitDecides` | crates/system-service/src/budget.rs:353-396 | a reserved grant is committed iff no limited dimension is exceeded, with exactly the sum of its entries, which is added to its scope, and one event; no other row changes; settled grants are returned |
| `BudgetEffects.ReleaseDecides` | crates/system-service/src/budget.rs:194-224 | a reserved grant becomes released with one event and nothing else changes; settled grants are returned |
| `BudgetEffects.UnknownGrant` | crates/system-service/src/budget.rs:198-202 | an unknown grant is neither committed nor released |
| `BudgetInvariants.StepKeepsInv` | crates/system-service/src/budget.rs:11-396 | every transaction keeps: unique grant ids and keys, usage within each grant, committed amounts equal to recorded usage, balanced scopes, and a log that replays to the tables |
| `BudgetInvariants.Conservation` | crates/system-service/src/budget.rs:372-395 | on every run scope usage is the total of its committed grants, each of which is the total of its entries, and no grant's entries exceed its request |
| `BudgetInvariants.ReplayRebuilds` | crates/system-service/src/budget.rs:95-107 | on every run folding the logged events gives exactly the grants (scope, request, committed amount, state) and the usage of every scope |
| `BudgetSolvency.ReserveSolventIff` | crates/system-service/src/budget.rs:26-75 | from a solvent state a reservation leads to a solvent state iff the limit it carries covers what its scope has consumed |
| `BudgetSolvency.StepSolventIff` | crates/system-service/src/budget.rs:11-396 | no other transaction can break solvency |
| `BudgetSolvency.SolvencyIff` | crates/system-service/src/budget.rs:46-57 | a run is solvent at every point iff every reservation's limit covers its scope's consumption when the call is made |
| `BudgetSolvency.Solvency` | crates/system-service/src/budget.rs:46-70 | on every run in which no reservation lowers a limit, usage plus reserved requests stays within every limited dimension of every scope, at every point |
| `BudgetSolvency.CommitNeverRefused` | crates/system-service/src/budget.rs:361-382 | in every state reached with covering limits, committing a reserved grant succeeds and charges exactly its recorded usage |
| `BudgetSolvency.LoweredLimitRefusesCommit` | crates/system-service/src/budget.rs:26-49 | a concrete run after which a reserved grant can be committed; a reservation on its scope that is itself denied then lowers the limit, and the commit is refused |
| `BudgetRefusal.CommitRefusedIff` | crates/system-service/src/budget.rs:361-371 | in every reachable state the commit of a reserved grant is denied iff in some limited dimension scope usage plus recorded usage exceeds the limit, and succeeds otherwise |
| `BudgetRefusal.StepKeepsCovered` | crates/system-service/src/budget.rs:11-396 | only a reservation on the scope itself can make a covered scope uncovered |
| `BudgetRefusal.CommitCanFailIff` | crates/system-service/src/budget.rs:353-382 | in every reachable state some continuation that leaves the scope's limit alone ends in a denied commit on the scope iff the scope holds a reserved grant and its usage plus reserved requests exceeds the limit somewhere |
| `BudgetWords.LimitedSumsFitI64` | crates/system-service/src/budget.rs:435-496 | in a dimension limited to L with amounts of at most i64::MAX - L, every partial sum of both loops, the sums tested by reserve and record and the usage after any commit fit in 64 bits |
| `BudgetWords.MachineFitsIff` | crates/system-service/src/budget.rs:435-451 | the wrapping test accepts iff no bounded sum that fits is over its bound; it agrees with the mathematical test iff no bounded sum wraps or some dimension visibly exceeds |
| `BudgetWords.RecordTestIff` | crates/system-service/src/budget.rs:164-170 | in every reachable state with 64-bit amounts the usage loop does not overflow, and the wrapping record test is the mathematical one iff no tested sum wraps or some dimension visibly exceeds |
| `BudgetWords.ReserveTestIff` | crates/system-service/src/budget.rs:51-57 | likewise for the reserve test, for any limit and any consumption that fits, covered or not |
| `BudgetWords.WrappedUsageAccepted` | crates/system-service/src/budget.rs:449-451 | a run after which a grant is used up and a 64-bit usage is refused mathematically and accepted by the wrapping test |
| `BudgetMachine.StepAgrees` | crates/system-service/src/budget.rs:11-396 | a transaction in wrapping arithmetic does and answers what the model's does if every sum it computes fits |
| `BudgetMachine.MachineRunAgrees` | crates/system-service/src/budget.rs:435-496 | a run in wrapping arithmetic is the model's run if every sum computed along it fits, those in unlimited dimensions included |
| `BudgetMachine.MachineConservation` | crates/system-service/src/budget.rs:372-395 | such a run keeps the ledger invariant: usage within grants, balanced scopes, and a log that replays to the tables |
| `BudgetRetry.SettledIsStutter` | crates/system-service/src/budget.rs:141-157 | a call whose effect is already in the ledger changes nothing and succeeds |
| `BudgetRetry.RetryStuttering` | crates/system-service/src/budget.rs:46-49 | with one limit per scope, removing from a run all repeats of earlier successful calls leaves the same scopes, grants, entries and log |
| `BudgetRetry.ObjectiveExclusivity` | crates/system-service/src/budget.rs:291-297 | on runs where only objective reservations touch its scope, an objective has at most one reserved grant at any time |
| `BudgetRetry.ProbePredictsReservation` | crates/system-service/src/budget.rs:334-351 | in every reachable state the probe says yes, no or fails exactly when a reservation with a fresh key would return a grant, return none or fail |
| `SensitiveSearch.VisitSensitiveValue` | apps/assistant-host/src/sensitive-value.ts:11-29 | a visit terminates; found implies reachable; not found leaves the value cleared and every seen object outside the open visits with only cleared children |
| `SensitiveSearch.VisitAny` | apps/assistant-host/src/sensitive-value.ts:25-28 | the same over all values of one object, which is then no longer open |
| `SensitiveSearch.ExploredIsClosed` | apps/assistant-host/src/sensitive-value.ts:22-25 | with no visit open, no path from a cleared value leads to a hit |
| `SensitiveSearch.ContainsSensitiveText` | apps/assistant-host/src/sensitive-value.ts:1-9 | on every finite heap, cyclic or shared, true iff the text is non-empty and some string reachable through object values contains it |
| `ConfigService.ValidateKeys` | crates/system-service/src/config.rs:209-217 | accepts iff every key has 1 to 512 bytes and none occurs twice |
| `ConfigService.ValidateMutations` | crates/system-service/src/config.rs:202-219 | accepts iff there are 1 to 64 mutations with valid, pairwise distinct keys |
| `ConfigService.ValidateConditions` | crates/system-service/src/config.rs:232-248 | accepts iff keys are valid and distinct and expected revisions positive, and returns the set of keys |
| `ConfigService.ValidateConditional` | crates/system-service/src/config.rs:221-268 | accepts iff mutations and conditions are valid, every mutated key has a condition and every deleted key an expected revision |
| `ConfigService.FindCondition` | crates/system-service/src/config.rs:257-260 | after validation the lookup of a deleted key's condition succeeds and its result is the only one |
| `ConfigService.Config.ApplyConfigMutations` | crates/system-service/src/config.rs:20-57 | the loops leave the table and log of the unconditional mutation, or nothing changed when refused |
| `ConfigService.Config.FindConflicts` | crates/system-service/src/config.rs:123-133 | the loop returns the conflicts of the conditions with the table and changes nothing |
| `ConfigService.Config.PutRows` | crates/system-service/src/config.rs:147-175 | the put loop leaves the table and returned rows of its specification, or stops with the error of the first failing row |
| `ConfigService.Config.DeleteRows` | crates/system-service/src/config.rs:176-192 | the delete loop likewise |
| `ConfigService.Config.CompareAndApplyConfigMutations` | crates/system-service/src/config.rs:113-199 | new table, log and answer are those of the conditional mutation; an error in either loop rolls everything back |
| `ConfigTheorems.MutationsPerformed` | crates/system-service/src/config.rs:29-54 | accepted mutations write every put at the next revision, remove every deleted key, leave all other keys alone and log one event per mutation with the next revision |
| `ConfigTheorems.ApplyDecides` | crates/system-service/src/config.rs:20-57 | an unconditional call performs its mutations if they are valid, and is otherwise refused and changes nothing |
| `ConfigTheorems.KeyRules` | crates/system-service/src/config.rs:270-277 | a key is valid iff it is not empty and has at most 512 bytes |
| `ConfigTheorems.MutationRules` | crates/system-service/src/config.rs:202-219 | mutations are valid iff there are 1 to 64 of them on valid keys and no key is put twice, deleted twice, or both |
| `ConfigTheorems.ConditionRules` | crates/system-service/src/config.rs:221-268 | conditions are valid iff there are 1 to 64 on different valid keys with positive expected revisions, each put key has one, and each deleted key has one that expects a revision |
| `ConfigTheorems.ConflictsExact` | crates/system-service/src/config.rs:123-133 | the conflicts are the violated conditions with their current entries, no more and no fewer, each key once |
| `ConfigTheorems.AllOrNothing` | crates/system-service/src/config.rs:113-199 | a valid call with a violated condition changes neither table nor log and reports exactly the violated ones; any other valid call does what the unconditional mutation does and takes no internal error branch |
| `ConfigTheorems.UnconflictedApplies` | crates/system-service/src/config.rs:143-192 | without conflicts the "exactly one row", missing-expectation and missing-key branches are never taken and the returned rows are the new entries |
| `ConfigTheorems.RevisionsAdvance` | crates/system-service/src/config.rs:29-43 | on every run during which a key stays, its entry is untouched or has moved to a later revision |
| `ConfigTheorems.NoLostUpdate` | crates/system-service/src/config.rs:123-141 | if a key stays from a client's read on and its compare-and-apply expecting the revision read is applied, the entry just before is the one read |
| `ConfigTheorems.StaysIffNotDeleted` | crates/system-service/src/config.rs:44-54 | a key stays through a run iff no step that takes effect deletes it |
| `ConfigTheorems.NoLostUpdateIff` | crates/system-service/src/config.rs:113-199 | when later steps carry later times and a compare-and-apply expecting the revision read is applied, the entry just before is the one read iff no step in between that took effect deleted the key |
| `ConfigTheorems.NoLostUpdateUndeleted` | crates/system-service/src/config.rs:113-199 | in particular, at any times, when no request in between names the key for deletion |
| `ConfigTheorems.DeleteDefeatsRevisions` | crates/system-service/src/config.rs:44-54 | a concrete run from the empty table where a delete and a put make a stale compare-and-apply succeed |
| `ConfigTheorems.StepKeepsKeysValid` | crates/system-service/src/config.rs:202-277 | a step stores only valid keys |
| `ConfigTheorems.RunKeepsKeysValid` | crates/system-service/src/config.rs:202-277 | on every run every stored key is valid, so it is accepted as a listing cursor |
| `ConfigTheorems.ListMeaning` | crates/system-service/src/config.rs:69-111 | a listing is refused iff prefix, cursor or limit is malformed; otherwise its rows are what reading their keys gives, the keys are matching ones beyond the cursor in order, and a key left out comes after all of a full page |
| `ConfigTheorems.RowsFromPages` | crates/system-service/src/config.rs:91-110 | every row received in a walk is the entry its key had in the table when its page was read |
| `ConfigTheorems.ListAllIsWalk` | crates/system-service/src/config.rs:69-111 | listing page after page from the last key received is never refused and receives the keys of a keyset walk |
| `ConfigTheorems.ConfigWalk` | crates/system-service/src/config.rs:69-111 | whatever writers do between pages and for all valid limits: keys strictly increase, each was in the table when the page it came with was read, and after a short page each matching key present throughout was received exactly once |
| `ConfigTheorems.ConfigWalkAlongRun` | crates/system-service/src/config.rs:69-111 | the same for the tables met along any run from the empty table, with any mutations between the pages |
| `KeysetWalk.Page` | crates/system-service/src/config.rs:94-97 | the least keys in increasing order, at most the limit, all of them when fewer than the limit |
| `KeysetWalk.WalkIncreasing` | crates/system-service/src/config.rs:91-98 | keys received over all pages are strictly increasing and above the start |
| `KeysetWalk.WalkSound` | crates/system-service/src/config.rs:91-98 | every key received came with some page and was in the table when that page was read |
| `KeysetWalk.WalkComplete` | crates/system-service/src/config.rs:91-98 | a key present throughout a finished walk is received |
| `KeysetWalk.WalkExactlyOnce` | crates/system-service/src/config.rs:91-98 | and received exactly once, for any strict total order |
| `Ordering.TextLessIff` | crates/system-service/src/config.rs:94-96 | the key order: a proper prefix, or the smaller character at the first difference |
| `Utf8.TextOrderIsByteOrder` | crates/system-service/src/config.rs:94-96 | comparing texts by characters is comparing their UTF-8 encodings by bytes |
| `Utf8.LengthInBytes` | crates/system-service/src/config.rs:270-277 | the length that bounds keys and names is the number of UTF-8 bytes |
| `EventLog.AppendKeeps` | crates/system-service/src/events.rs:6-41 | an append succeeds iff its id is new; the log is only extended and ids stay unique |
| `EventLog.EventStore.AppendEvent` | crates/system-service/src/events.rs:6-41 | the log grows by exactly the event, or is unchanged when the id is taken |
| `EventLog.CursorOrder` | crates/system-service/src/events.rs:60-61 | (occurred_at, id) order is a strict total order |
| `EventLog.AfterIsAbove` | crates/system-service/src/events.rs:46-59 | the query's condition selects exactly the matching events above the cursor in cursor order |
| `EventLog.QueryEventsMeaning` | crates/system-service/src/events.rs:43-144 | a query returns, by time and id, the events of the first filter given that lie beyond the cursor, at most the limit, 100 if not given and never over 1000, and leaves out only events after a full page |
| `EventLog.FollowIsWalk` | crates/system-service/src/events.rs:43-144 | querying from the last event received, with limits cut at 1000, is a keyset walk over the filtered log |
| `EventLog.EventWalk` | crates/system-service/src/events.rs:43-144 | while others append, events come in strictly increasing order, and each selected event that was in the log at the start is received exactly once by the time a page comes back short, or never at all if it is at the least timestamp |
| `PluginHost.StepKeepsInv` | apps/assistant-plugin-host/src/host.ts:141-202 | every segment keeps: one open drain named by the promise, status agreeing with what is published, a build owed to every call that is not late, and tallies over all builds of a drain |
| `PluginHost.OneBuildAtATime` | apps/assistant-plugin-host/src/host.ts:193-202 | in every interleaving at most one refreshOnce is in progress |
| `PluginHost.FreshUnlessLate` | apps/assistant-plugin-host/src/host.ts:168-202 | a call gets a drain whose last build began no earlier than the call iff it was made before the drain's last test of the flag, and the result is that build's, tallied over all builds |
| `PluginHost.FailureReportsPublished` | apps/assistant-plugin-host/src/host.ts:141-166 | in every interleaving a failed result or status names the revision and counts still published |
| `PluginHost.HostsNeverReplaced` | apps/assistant-plugin-host/src/action-host-registry.ts:47-73 | in every interleaving a registered version host is never replaced or dropped, although the check and the write are separated by an await |
| `PluginHost.GapExists` | apps/assistant-plugin-host/src/host.ts:174-199 | a concrete interleaving in which a late call's request is left unserved |
| `PluginPublication.PublishedIsLastBuilt` | apps/assistant-plugin-host/src/host.ts:148-160 | in every interleaving the published revision is that of the last successful build or the initial one, the published command count is that of the build that last changed the revision, and each build says changed iff its revision differs from the one before |
| `PluginPublication.OnlyBuildsPublish` | apps/assistant-plugin-host/src/host.ts:141-202 | no step but a successful build changes what is published |
| `PluginPublication.BuildRecorded` | apps/assistant-plugin-host/src/host.ts:151-165 | a finished build adds exactly its own result: what was built, or what was remembered and the code of the failure |
| `PluginPublication.StatusIsLastResult` | apps/assistant-plugin-host/src/host.ts:182-190 | in every interleaving the status after a drain is the result that drain answers with |
| `PluginPublication.EnsureRegisters` | apps/assistant-plugin-host/src/action-host-registry.ts:47-73 | a host created for a version that has none is registered under that version, and no other entry changes |
| `PluginPublication.RegistersWhatWasBegun` | apps/assistant-plugin-host/src/action-host-registry.ts:57-72 | whatever happens during the await, the host is registered under the version that was asked for, and nothing else touches the registry |
| `PluginPublication.DisposedRefusesRefresh` | apps/assistant-plugin-host/src/host.ts:193-195 | after dispose no call of refresh starts or joins a drain |
| `PluginHostRuntime.AssistantPluginHost.CurrentState` | apps/assistant-plugin-host/src/host.ts:142-147 | under the protocol's invariant the state remembered for a failed result is what is still published |
| `PluginHostRuntime.AssistantPluginHost.Refresh` | apps/assistant-plugin-host/src/host.ts:193-202 | one protocol step; returns the open drain's promise, or a new one; the invariant is kept |
| `PluginHostRuntime.AssistantPluginHost.EnsureBegin` | apps/assistant-plugin-host/src/action-host-registry.ts:53-63 | the check before the await is one protocol step and keeps the invariant |
| `PluginHostRuntime.AssistantPluginHost.EnsureEnd` | apps/assistant-plugin-host/src/action-host-registry.ts:64-73 | the write after the await is one protocol step and replaces no host |
| `PluginHostRuntime.AssistantPluginHost.BuildSucceeded` | apps/assistant-plugin-host/src/host.ts:149-160 | publication and status are one protocol step; an unchanged revision publishes nothing |
| `PluginHostRuntime.AssistantPluginHost.BuildFailed` | apps/assistant-plugin-host/src/host.ts:161-165 | a failed build publishes nothing and reports the remembered state |
| `PluginHostRuntime.AssistantPluginHost.ResumeDrain` | apps/assistant-plugin-host/src/host.ts:170-191 | tally, test of the flag, and next build or merged result are one protocol step |
| `PluginHostRuntime.AssistantPluginHost.FinallyCallback` | apps/assistant-plugin-host/src/host.ts:197-199 | the callback clears the promise and nothing else |
| `ChannelIntake.StepKeepsInv` | crates/system-service/src/channel.rs:45-828 | every transaction keeps bindings, inbound events and projections unique under each of their keys, although an insert checks only its primary key, and each action tied to one projection |
| `ChannelIntake.AtMostOnce` | crates/system-service/src/channel.rs:234-256 | on every run no two inbound records share an external event or key, no two projections share an event and kind or a key, and no action runs twice, state resets included |
| `ChannelIntake.StepAdvances` | crates/system-service/src/channel.rs:61-85 | a sender goes from unbound to bound to revoked, never back and never to another principal |
| `ChannelIntake.ActiveIsStatus` | crates/system-service/src/channel.rs:1047-1067 | the active binding found for a sender is its only binding, if that is active |
| `ChannelIntake.SenderAttribution` | crates/system-service/src/channel.rs:258-267 | on every run the principals resolved for one sender are none for a while, then one fixed principal, then none for ever |
| `ChannelService.IntakeTables.PutChannelBinding` | crates/system-service/src/channel.rs:45-124 | binding table and answer of the put, with replays by key or identity and conflicts; invariant kept |
| `ChannelService.IntakeTables.RevokeChannelBinding` | crates/system-service/src/channel.rs:167-211 | the binding becomes inactive, nothing else changes; invariant kept |
| `ChannelService.IntakeTables.IngestChannelInboundEvent` | crates/system-service/src/channel.rs:213-311 | a repeated key or external event returns the existing record; a new event resolves its principal; invariant kept |
| `ChannelService.IntakeTables.UpdateChannelInboundEventState` | crates/system-service/src/channel.rs:347-396 | only the event's state changes; invariant kept |
| `ChannelService.IntakeTables.ProjectChannelInboundEvent` | crates/system-service/src/channel.rs:708-828 | a repeated key or event and kind returns the existing projection and runs nothing; invariant kept |
| `ChannelEffects.PutBinds` | crates/system-service/src/channel.rs:87-123 | a new sender is bound actively to the principal of the request, and nothing else changes |
| `ChannelEffects.PutRepeats` | crates/system-service/src/channel.rs:61-85 | a binding found by key or else by sender is returned iff it names the same sender, kind and principal, and is a conflict otherwise |
| `ChannelEffects.RevokeDeactivates` | crates/system-service/src/channel.rs:179-210 | revoking makes exactly that binding inactive |
| `ChannelEffects.IngestStores` | crates/system-service/src/channel.rs:258-310 | a new event is stored as received, under the principal the request names or else that of the sender's active binding |
| `ChannelEffects.IngestRepeats` | crates/system-service/src/channel.rs:234-256 | an event known by key or else by external id is returned as it is |
| `ChannelEffects.UpdateSetsState` | crates/system-service/src/channel.rs:365-395 | a state update sets exactly that event's state |
| `ChannelEffects.ProjectionRuns` | crates/system-service/src/channel.rs:767-827 | a new projection with a successful target is stored as requested, runs its action iff the kind is not to ignore, makes that event projected or ignored accordingly, and changes no other event |
| `ChannelEffects.ProjectionRepeats` | crates/system-service/src/channel.rs:736-765 | a repeat by key or by event and kind returns the earlier projection and runs nothing |
| `ChannelEffects.ProjectionFails` | crates/system-service/src/channel.rs:767-767 | a target that fails leaves no trace |
| `ChannelEffects.UnknownIntakeRefused` | crates/system-service/src/channel.rs:179-185 | an unknown binding or event cannot be revoked, updated or projected |
| `ChannelEffects.IncompleteRefused` | crates/system-service/src/channel.rs:855-896 | requests with a missing part or without the capability are refused and change nothing |
| `ChannelDelivery.JobStepAdvances` | crates/system-service/src/scheduler.rs:42-753 | every scheduler operation keeps job ids and keys unique and never moves a job out of a terminal state |
| `ChannelDelivery.EnqueueAdvances` | crates/system-service/src/scheduler.rs:288-357 | an enqueue returns a job carrying the requested key, existing or new, and every earlier job keeps its place, id and key |
| `ChannelEffects.EnqueueStores` | crates/system-service/src/scheduler.rs:294-356 | a new job has the request's attributes, no lease and no attempt, and is ready iff it is due |
| `ChannelEffects.EnqueueRepeats` | crates/system-service/src/scheduler.rs:309-313 | a known key returns its job and stores nothing |
| `ChannelEffects.ClaimTakes` | crates/system-service/src/scheduler.rs:62-87 | claiming takes a waiting job, counts the attempt and gives the lease; any other job stays |
| `ChannelEffects.ExpiryFrees` | crates/system-service/src/scheduler.rs:735-753 | an expired lease makes exactly that running job ready |
| `ChannelEffects.JobsEnd` | crates/system-service/src/scheduler.rs:383-569 | what completing, failing and cancelling do to an ordinary job: without the lease nothing, a retry while attempts are left, an end otherwise, and nothing if the budget refuses |
| `ChannelDelivery.StepKeepsInv` | crates/system-service/src/channel.rs:398-706 | deliveries and every direct scheduler call, in any order, keep delivery and job in agreement |
| `ChannelDelivery.DeliveriesAgreeWithJobs` | crates/system-service/src/channel.rs:398-706 | on every run each delivery has a job under its own key, sent means the job succeeded, failed means it failed, and finished_at is set iff one of these |
| `ChannelDelivery.FinalDeliveriesStay` | crates/system-service/src/channel.rs:547-556 | a sent or failed delivery never changes again |
| `ChannelDelivery.SharedJobIff` | crates/system-service/src/channel.rs:462-498 | on every run two deliveries share a job iff one has no key and its id is the other's key |
| `ChannelOutcome.StrandedStays` | crates/system-service/src/channel.rs:558-571 | a pending delivery whose job has failed, was cancelled or is of another kind never changes again, on any continuation |
| `ChannelOutcome.SentSomehow` | crates/system-service/src/channel.rs:558-605 | any other pending delivery is sent on some continuation of lease expiry, claim and completion |
| `ChannelOutcome.CanBeSentIff` | crates/system-service/src/channel.rs:519-605 | in every reachable state a pending delivery can still be sent iff its job is a channel delivery job that has neither failed nor been cancelled; otherwise it stays pending for good |
| `ChannelOutcome.StrandedExists` | crates/system-service/src/scheduler.rs:165-236 | concrete runs, one with a failed and one with a cancelled job, that leave a delivery pending for good |
| `ChannelOutcome.SharedJobExists` | crates/system-service/src/channel.rs:462-498 | a concrete run after which two deliveries have the same job |
| `ChannelBudget.JointRunProjects` | crates/system-service/src/scheduler.rs:383-569 | with deliveries, jobs and budget ledger together, each of them goes through a run of its own, so the theorems about either carry over |
| `ChannelBudget.EndingCommits` | crates/system-service/src/scheduler.rs:457-460 | a job that completes, finally fails or is cancelled has its grant committed in the same transaction, and only if the ledger accepts |
| `ChannelBudget.RefusedChargeEndsNothing` | crates/system-service/src/scheduler.rs:546-548 | when the ledger refuses the commit, no job ends and the ledger is unchanged |
| `ChannelBudget.OnlyEndingCharges` | crates/system-service/src/scheduler.rs:383-461 | a call that ends no job leaves the ledger as it is |
| `ChannelBudget.EndedJobsAreSettled` | crates/system-service/src/scheduler.rs:165-236 | on every joint run with fresh grant identifiers, no job that has ended leaves its grant reserved |
| `ChannelBudget.CanBeSentIff` | crates/system-service/src/channel.rs:519-605 | in every state reached jointly, with the ledger answering, a pending delivery can still be sent iff its job is a channel delivery job that has neither failed nor been cancelled |
| `ChannelService.DeliveryTables.SubmitChannelDelivery` | crates/system-service/src/channel.rs:398-517 | tables and answer of a submission; a refused job rolls the delivery back; invariant kept |
| `ChannelService.DeliveryTables.CompleteChannelDelivery` | crates/system-service/src/channel.rs:519-605 | tables and answer of a completion, lease mismatch, repeats and a refused budget commit, which rolls it back, included; invariant kept |
| `ChannelService.DeliveryTables.FailChannelDelivery` | crates/system-service/src/channel.rs:607-706 | tables and answer of a failure, with retry, final failure or a refused budget commit, which rolls it back; invariant kept |
| `ChannelEffects.SubmitStores` | crates/system-service/src/channel.rs:441-516 | a new delivery is pending on the job already enqueued under its key or on a new one with the request's attributes |
| `ChannelEffects.SubmitRepeats` | crates/system-service/src/channel.rs:418-439 | a repeated key returns the delivery and its job as they are |
| `ChannelEffects.UnenqueuedRefused` | crates/system-service/src/channel.rs:467-493 | a delivery whose job cannot be enqueued is not stored |
| `ChannelEffects.CompleteDecides` | crates/system-service/src/channel.rs:545-604 | a pending delivery is sent, at the time of the call, iff its job has succeeded or succeeds now under the caller's lease with the charge accepted; all other outcomes change nothing |
| `ChannelEffects.FailDecides` | crates/system-service/src/channel.rs:633-705 | under the caller's lease the job is retried and the delivery stays pending while attempts are left; otherwise job and delivery fail together at the time of the call, unless the budget refuses; all other deliveries stay |
| `ChannelEffects.FinishedAnswers` | crates/system-service/src/channel.rs:547-556 | repeating the call that finished a delivery returns it, and the other call is refused |
| `ChannelEffects.UnknownDeliveryRefused` | crates/system-service/src/channel.rs:532-538 | an unknown delivery can be neither completed nor failed |
| `SchemaInit.StepKeepsInv` | crates/system-service/src/db.rs:9-30 | one statement of any opener, failing or not, keeps the lock exclusive and the committed database whole |
| `SchemaInit.InitialisedOnce` | crates/system-service/src/db.rs:9-30 | for any number of openers and any interleaving the script commits at most once, the committed database is always the one found or the whole baseline, a store with tables is never modified, and Ok means exactly the current marker |
| `SchemaInit.OtherSchemaRefused` | crates/system-service/src/db.rs:75-93 | no opener of a store with another schema ever returns Ok and the store stays as it is |
| `SchemaInit.OpenerFinishes` | crates/system-service/src/db.rs:9-30 | from every reachable state with the lock free or its own, an opener can go on to return: Ok with the whole baseline if the store was found empty, otherwise Ok iff the store found has the current schema |
| `SchemaInit.Store.InitializeSchema` | crates/system-service/src/db.rs:9-30 | alone, an opener initialises an empty store completely, or leaves it as it was when any statement or the COMMIT fails, touches no other, and returns Ok iff nothing failed and the marker check holds |
| `ExecutionPolicy.ExactKeysIff` | crates/system-service/src/execution_environment.rs:296-301 | the length and membership tests accept iff the key set matches exactly |
| `ExecutionPolicy.ValidateEffects` | crates/system-service/src/execution_environment.rs:236-255 | accepts iff a non-empty, strictly increasing list of known effects |
| `ExecutionPolicy.ValidateCanonicalStrings` | crates/system-service/src/execution_environment.rs:257-270 | accepts iff a strictly increasing list of strings of 1 to 256 bytes |
| `ExecutionPolicy.ValidateRoots` | crates/system-service/src/execution_environment.rs:179-194 | accepts iff every root has exactly a bounded id and valid effects and ids strictly increase |
| `ExecutionPolicy.ValidatePolicy` | crates/system-service/src/execution_environment.rs:157-234 | accepts iff the document has exactly the fields and values described |
| `ExecutionPolicy.UniqueAcceptedEncoding` | crates/system-service/src/execution_environment.rs:157-270 | two accepted policies with the same root-to-effects map, variables and settings are the same JSON value |
| `ExecutionPolicy.EncodeRoundTrip` | crates/system-service/src/execution_environment.rs:157-234 | the canonical document of every expressible policy is accepted and means that policy |
| `ExecutionPolicy.AcceptedIffCanonical` | crates/system-service/src/execution_environment.rs:157-270 | a document is accepted iff it is the canonical document of some expressible policy, and then of its own meaning |
| `JsonText.QuoteRoundTrip` | apps/assistant-plugin-host/src/catalog-builder.ts:270-273 | unescaping an escaped string gives it back, surrogates and control characters included, and stops at its closing quote |
| `JsonText.QuoteUnique` | apps/assistant-plugin-host/src/catalog-builder.ts:280-282 | two string literals that start the same text are the same |
| `StableJson.StableReads` | apps/assistant-plugin-host/src/catalog-builder.ts:270-283 | reading a value's stable text with a JSON reader gives exactly what the value denotes and stops where the text ends, for any comparator |
| `StableJson.Readable` | apps/assistant-plugin-host/src/catalog-builder.ts:270-283 | so two stable texts that start the same text denote the same value and end at the same place |
| `StableJson.EqualTextEqualValue` | apps/assistant-plugin-host/src/catalog-builder.ts:270-283 | equal texts imply values equal up to key order, for any comparator |
| `StableSort.SortStable` | apps/assistant-plugin-host/src/catalog-builder.ts:277-279 | sorting with any consistent comparator leaves elements that compare as equal in their order |
| `StableSort.SortSorted` | apps/assistant-plugin-host/src/catalog-builder.ts:277-279 | sorting with any consistent comparator sorts |
| `StableSort.OrderFreeIff` | apps/assistant-plugin-host/src/catalog-builder.ts:247-254 | every order of the same elements sorts to the same sequence iff no two different elements compare as equal |
| `StableOrder.EqualValueEqualText` | apps/assistant-plugin-host/src/catalog-builder.ts:270-283 | values equal up to key order have equal texts if one of them has no object with two keys that compare as equal |
| `StableOrder.CanonicalIff` | apps/assistant-plugin-host/src/catalog-builder.ts:270-283 | for any consistent comparator, all values equal to a value up to key order have its text iff no object in it has two written keys that compare as equal |
| `StableOrder.CanonicalText` | apps/assistant-plugin-host/src/catalog-builder.ts:270-283 | equal texts mean equal values for any comparator, and conversely for values without such ties |
| `StableOrder.OrderIndependentIff` | apps/assistant-plugin-host/src/catalog-builder.ts:277-279 | all values have a canonical text iff the comparator separates all texts |
| `PluginCatalog.BuildPluginCatalog` | apps/assistant-plugin-host/src/catalog-builder.ts:49-136 | the loops give the catalog with its plugin and command counts, or the first error in sorted order, host creation included; success implies no plugin listed twice |
| `PluginCatalog.BuildMeaning` | apps/assistant-plugin-host/src/catalog-builder.ts:49-136 | a catalog is built iff there are at most 256 installs, no plugin twice, all resolve, the commands resolve and every artifact gets a host; it has the listing's revision, the number of installs and the resolved number of commands; the errors for too many installs, conflicting commands and a missing host |
| `PluginCatalog.SortedListingIff` | apps/assistant-plugin-host/src/catalog-builder.ts:247-254 | with no plugin listed twice, every listing order sorts to the same sequence iff no two installs compare as equal |
| `PluginCatalog.ListingOrderIrrelevant` | apps/assistant-plugin-host/src/catalog-builder.ts:64-136 | if no two installs of different plugins compare as equal, two listings of the same installs both fail or give the same catalog |
| `PluginCatalog.CatalogOrderFreeIff` | apps/assistant-plugin-host/src/catalog-builder.ts:64-136 | for installs that build in every order, with different records and an injective digest, every listing order gives the same catalog iff no two installs compare as equal |
| `PluginCatalog.TiedListingsDiffer` | apps/assistant-plugin-host/src/catalog-builder.ts:217-254 | listing one or the other of two installs that compare as equal first gives different revisions |
| `PluginCatalog.ListingOrderShows` | apps/assistant-plugin-host/src/catalog-builder.ts:247-254 | plugin a at 11.0.0 and plugin a1 at 1.0.0 get different revisions in their two listing orders, for any comparator that ignores NUL |
| `PluginCatalog.RevisionUpToKeyOrder` | apps/assistant-plugin-host/src/catalog-builder.ts:217-245 | artifacts of the same installs with records equal up to key order and without ties have the same revision |
| `PluginCatalog.RevisionIdentifiesRecords` | apps/assistant-plugin-host/src/catalog-builder.ts:217-245 | with an injective digest, equal revisions mean the same records up to key order |

## Left out

- SQL text, row mapping, serialisation, UUIDs and SHA-256: tables are maps and sequences, generated ids are arguments, a scope id is the triple it is a digest of, and a digest is a function.
- Deferred transactions and SQLite's locking: a transaction is one atomic step, except in `SchemaInit`, where only the write lock of BEGIN IMMEDIATE and commits are modelled.
- Timestamps, display names, metadata and payload columns that no decision reads, the default session window of a budget scope, and error message texts.
- Runs in which a computed sum does not fit: what the wrapping arithmetic does after it has stored a wrapped sum; a build with overflow checks would stop there instead.
- ChannelService.DeliveryTables.CompleteChannelDelivery: takes the budget ledger's answer as an argument, because its tables are those of deliveries and jobs; `ChannelBudget` joins them with the ledger.
- ChannelService.DeliveryTables.FailChannelDelivery: likewise.
- ChannelOutcome.SentSomehow: lets the continuation choose the ledger's answer to the budget commit, as `ChannelBudget.SentJointly` does not.
- ChannelOutcome.CanBeSentIff: lets the continuation choose that answer; `ChannelBudget.CanBeSentIff` states the same with the ledger answering.
- BudgetService.Tables.AppendEvent: leaves out the event's id, scope columns and the failure on a taken id, which `EventLog` models, because no budget decision reads them.
- ChannelService.IntakeTables.ProjectChannelInboundEvent: takes the outcome of the target's own transaction as an argument, because session turns, team messages and workspace tasks are other components.
- ChannelDelivery.JobStepAdvances: leaves out the settlement of session-turn and team jobs, because a delivery submits only channel delivery jobs.
- Log entries of the configuration, channel and scheduler transactions as rows of the event log: configuration events are a log of their own, channel and scheduler events are not modelled.
- The connector capability check, `ProjectionTarget::parse` and the target transactions of a projection (session turns, team messages, workspace tasks): their outcomes are arguments.
- Settlement of session-turn and team jobs, claim order, queues, priorities, concurrency keys, heartbeats and retry delays: no delivery depends on them.
- Listings other than configuration and events; `list_channel_inbound_events` pages by received_at alone and gives no exactly-once walk when timestamps tie.
- Keys with an embedded NUL, where SQLite's `length` and `substr` stop early.
- Getters, proxies and heaps that change during the search for sensitive text: a heap is a fixed finite graph.
- Functions, symbols, BigInt and non-finite numbers in the stable text; a number is its decimal rendering, and the sort is a stable insertion sort, which is what the language prescribes for consistent comparators.
- The collation itself: comparators are arbitrary consistent ones, and that a locale's ignores NUL and equates canonically equivalent strings is a hypothesis of `ListingOrderShows`.
- Which error a failing catalog build reports when several installs are at fault; which of several equivalent escapes the stable text uses is fixed by the model but not by a theorem.
- Refresh calls made synchronously by a publication listener are calls made just before the publication step; worker loop, counters and the waiting part of dispose are not modelled.
- Application-scope and capability documents of `execution_environment.rs`, which are checked by the same scalar validators.
- `atomic_file.rs`, server, desktop, CLI and user interface code.
