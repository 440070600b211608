# Session, credit and pairing state machines

A verification project for the small state machines at the core of the backend. Each is written in the form of its
source: objects whose methods change fields are classes whose methods are proved against a specification on values, and
the promises are lemmas about that specification over every input, run or interleaving.

- **Session event hub.** `SessionGateway` is a step system in which code between two awaits is one step: publish,
  register, unregister, and the resume of one drain task at one of its await points (not started, waiting on the event,
  inside `send`, done). A cancelled task exits at its next resume. `SessionGatewaySafety` holds the invariant,
  `SessionGatewayTheorems` the promises over whole runs, `SessionGatewayCalls` those stated on the calls alone,
  `SessionEventHub` the methods.
- **Lane queue.** `SessionLanes` (the operations), `SessionLaneRuns` (conservation and FIFO over runs),
  `SessionLaneFairness` (rotation while the active lanes stay the same), `SessionLaneTurns` (turns while lanes come and
  go), `SessionLaneQueue` (the class).
- **Bounded memories.** `RunPersistence` (the LRU of persisted run ids, shared by tab bridges and the persister) and
  `Idempotency` (the FIFO deduper), each against its whole call history.
- **Retained event log.** `RuntimeTelemetry` (memory and file over runs), `RuntimeEventHistory` (what is held, read
  off the appends), `RuntimeEventPages` (filters and offset pagination), `RuntimeEventStore` (the class).
- **Credits.** `CreditRates` (rounding), `BillingCycle` (Gregorian months), `CreditLedger` (plan credits and overage).
- **Pairing.** `Pairing` (handlers as steps, invariants over runs), `PairingService` (the handlers on the tables).
- **Heartbeat** (`HeartbeatPinger`), **archive migration** (`SessionsMigration`), **session ids** (`SessionIdentity`).
- `Text`, `Seqs` and `Numbers` are the shared vocabulary.

## Where the code does not do what it says

Each has an exact condition and a run or input that meets it.

- The lane queue's docstring says lanes drain fairly. The cursor is a position in the list of active lanes, so a lane in
  front that empties, is emptied or becomes active shifts the turns. `NeighbourAfterChanges` says exactly when the next
  lane gets its turn, `NeighbourServed` what that means for two pops in a row, `ServedInTime` bounds the wait of a lane
  that no step moves across the cursor; `Starvation` and `TogglingStarves` are runs that never serve a waiting lane.
- `cycle_end` is one second before the next start. In the fraction of a second after it, a balance looks expired on
  every read and each read wipes what was charged (`RenewalIff`, `InCycleIff`; in every month: `OpenSecondWipes`).
- The closing clamp of the admin adjustment conserves nothing when more was used than the allowance
  (`AdjustConservesIff`), which a plan downgrade produces (`PlanChangeIff`, `DowngradeReached`).
- An optional id made of blanks is "" in live memory and missing after a reload (`ReloadAgrees`, `BlankSessionLost`).
- A tick landing exactly on a slot serves the slot before it; if it fires, the slot itself looks served
  (`SlotDispatchedIff`). With a tick on every slot every other slot is missed (`AlignedTicksMissSlot`).
- A session id whose conversation part starts with a blank does not survive parse and print (`SessionRoundTrip`,
  `LeadingBlankLost`).
- The migration archives each conversation into a record, but a conversation its user deletes is archived too, without
  one, and every later migration passes it over (`RecordedUnlessEscaped`, `DeletedWithoutRecordIff`,
  `DeletedBeforeMigration`).
- A message that arrives after the worker read its row is not in the archive record, and nothing stops it from arriving
  once the row is archived (`RecordAgreesIff`, `MessageMissed`).
- A deduper made with a negative capacity raises on the first id (`SeenOrAdd`).

## Model

| member | source | states |
|---|---|---|
| `SessionGatewayCalls.DeliveredInOrder` | backend/session_gateway.py:135-145 | after any interleaving of register, unregister, publish and task resumes, what `send` got on a registration and lane, followed by the lane's queue, carries exactly the events published to the session on that lane (its stripped name, or main) while the registration was live, by `publish_to_session` and `publish_to_user` calls alike, in order, stamped with its session and lane and numbered 1, 2, 3, …; `enqueued` counts them |
| `SessionGatewayCalls.RunTracks` | backend/session_gateway.py:79-122 | the hub's live sessions, their users and registration numbers are those of the last register call of each session id not unregistered since |
| `SessionGatewayCalls.PublishAnswers` | backend/session_gateway.py:135-155 | a publish answers True exactly for a session registered and not unregistered since; a user publish returns the number of the user's live sessions |
| `SessionGatewayCalls.ResultsRecorded` | backend/session_gateway.py:205-217 | after any run `delivered` of a lane is the number of its sends that returned true while the registration was live, and the last error is that of the last send that raised, unless one returned true since |
| `SessionGatewayTheorems.OwnSenderOnly` | backend/session_gateway.py:187-218 | in any run every send is made by the drain task created with the registration, on that registration's sender, with an envelope stamped by its route: after a re-register no old envelope reaches the new sender |
| `SessionGatewayTheorems.ReplacedTaskExits` | backend/session_gateway.py:106-116 | a task whose registration is no longer the live one exits at its next resume and changes nothing else in the hub |
| `SessionGatewayTheorems.ClosedForGood` | backend/session_gateway.py:88-90 | a closed registration stays closed and nothing more is ever sent through it |
| `SessionGatewayTheorems.NoLostWakeup` | backend/session_gateway.py:187-204 | whenever a live registration has pending envelopes and its drain task is parked, the wake event is set; resuming it hands over the head of the least pending lane |
| `SessionGatewayTheorems.DrainCompletes` | backend/session_gateway.py:187-231 | once publishing to a session stops, n resumes of its drain task hand over min(n, backlog) envelopes in strictly ascending (lane, sequence) order whatever the sends return and other sessions do; at n = backlog all lanes are empty, one more resume parks the drain task with the event cleared |
| `SessionGatewayTheorems.BacklogZero` | backend/session_gateway.py:54-56 | published minus sent is never negative, and is zero if and only if no lane has anything queued |
| `SessionGatewayTheorems.UserPublishReachesAll` | backend/session_gateway.py:147-155 | in any reachable hub the user index lists exactly the live sessions of that user; publishing to the user counts all of them, and each gets one envelope with the event at the end of the named lane, with its own session id and next number, and nothing else changes in it but the wake event |
| `SessionGatewaySafety.RunInv` | backend/session_gateway.py:75-122 | every run keeps the hub invariant: live ids and open registrations correspond one to one, the user index is the exact inverse of the live registrations, wake event set when anything is pending, per-lane history accounts |
| `SessionGatewaySafety.NextInv` | backend/session_gateway.py:79-155 | each single step (register, unregister, publish, user publish, task resume) keeps that invariant |
| `SessionGatewaySafety.LiveResume` | backend/session_gateway.py:187-218 | in any invariant state a resume of a live registration's task either finds it not runnable or drains exactly its own registration, although the source looks the registration up again by session id |
| `SessionEventHub.EventHub.constructor` | backend/session_gateway.py:75-77 | a new hub is the initial state all run theorems start from |
| `SessionEventHub.EventHub.Register` | backend/session_gateway.py:79-104 | the in-place registration, replacing an older one of the same id, is the register step; the id is then live and points at the new registration |
| `SessionEventHub.EventHub.Unregister` | backend/session_gateway.py:106-122 | the in-place removal is the unregister step: closed, woken, cancelled, and dropped from the user index |
| `SessionEventHub.EventHub.NextSequence` | backend/session_gateway.py:38-42 | returns one more than the lane's last number and changes that counter only |
| `SessionEventHub.EventHub.PublishToSession` | backend/session_gateway.py:135-145 | the in-place publish is the publish step; it answers whether a live open registration was there, which then has one more envelope with the event at the end of the named lane |
| `SessionEventHub.EventHub.PublishToUser` | backend/session_gateway.py:147-155 | visits every indexed session exactly once, in some order, and returns how many publishes succeeded |
| `SessionEventHub.EventHub.LeastLane` | backend/session_gateway.py:222-226 | finds the lexicographically least lane with something queued |
| `SessionEventHub.EventHub.PopNextDelivery` | backend/session_gateway.py:221-231 | None exactly when nothing is queued; otherwise removes the head of the least non-empty lane and nothing else |
| `SessionEventHub.EventHub.InnerLoop` | backend/session_gateway.py:194-217 | the inner loop from its lookup to its next await is the model's inner step |
| `SessionEventHub.EventHub.ResumeDrain` | backend/session_gateway.py:187-219 | one run of a drain task between two awaits is the model's resume step, for every await point, cancellation included |
| `SessionLanes.SortIsStableSort` | backend/session_lanes.py:118-120 | the snapshot order is ascending by age, a permutation, and keeps ties in their original order |
| `SessionLanes.StableSortIsUnique` | backend/session_lanes.py:118-120 | a list ascending by age with the same entries of each age in the same order is that snapshot: the facts determine the sort |
| `SessionLanes.FilterSort` | backend/session_lanes.py:118-120 | dropping items commutes with sorting by age |
| `SessionLanes.RemoveAtDeletes` | backend/session_lanes.py:87-104 | `remove_at(i)` returns the i-th snapshot entry and the next snapshot is the old one with position i deleted; any other index returns None and changes nothing |
| `SessionLanes.PopNextTakes` | backend/session_lanes.py:69-85 | `pop_next` takes the head of one lane out of the flattened view and leaves every other lane as it was |
| `SessionLanes.PopNextEmpty` | backend/session_lanes.py:70-72 | `pop_next` returns None if and only if nothing is queued |
| `SessionLanes.ItemsEnqueue` | backend/session_lanes.py:43-62 | enqueue adds exactly the new item to the flattened view |
| `SessionLanes.MadeItem` | backend/session_lanes.py:43-57 | the item has the stripped lane and source, or the defaults for blank ones, the stripped instruction and the metadata as given |
| `SessionLaneFairness.LaneOrderGrows` | backend/session_lanes.py:59-61 | over any run the lane order only grows, at its end, by exactly the lanes used for the first time, each once |
| `SessionLaneRuns.RunConserves` | backend/session_lanes.py:43-104 | over any run of enqueue, pop and remove with fresh ids, each enqueued item is in exactly one of queued, popped, removed, and each lane hands out its not-removed items in the order they came in |
| `SessionLaneRuns.EmptyConserves` | backend/session_lanes.py:32-35 | a new queue satisfies the conservation invariant runs start from |
| `SessionLaneFairness.Rotation` | backend/session_lanes.py:69-85 | while the list of active lanes stays the same, the i-th pop serves `active[(cursor + i) % k]` |
| `SessionLaneFairness.FairShare` | backend/session_lanes.py:69-85 | then n pops give an active lane floor(n/k) turns, or one more when k does not divide n; a lane the preferred list names c times gets c times that, and at most min(c, n mod k) more |
| `SessionLaneFairness.RotationCount` | backend/session_lanes.py:74-83 | the exact number of turns of the lane at position j, from n, k and the cursor |
| `SessionLaneFairness.NeighbourServed` | backend/session_lanes.py:69-85 | of two pops in a row the second serves the neighbouring active lane if and only if that lane still has its place in the active list; for distinct lanes, if and only if not: the first emptied its lane, that lane was not last, and more than two lanes were active |
| `SessionLaneTurns.NextPopServes` | backend/session_lanes.py:70-84 | in any state the next pop serves an active lane if and only if it stands at the cursor's place in the active list, modulo its length; for distinct lanes, if and only if as many active lanes come before it as the cursor says |
| `SessionLaneTurns.NeighbourAfterChanges` | backend/session_lanes.py:43-104 | after a pop and any enqueues and removals, the next pop serves the lane next in turn, if still active, if and only if its place in the active list is its again; for distinct lanes, if and only if as many active lanes come before it as did before, modulo the lanes now active |
| `SessionLaneTurns.ServedInTime` | backend/session_lanes.py:43-104 | over any run in which lanes come and go, a waiting lane is served within as many pops as lanes are ever active (twice that if the cursor is past it at the start), unless a step moves it from its place at or after the cursor to one before it, or leaves fewer active lanes than the cursor |
| `SessionLaneFairness.Starvation` | backend/session_lanes.py:25-30 | against the docstring's unconditional fairness: with two other lanes refilled between pops, a non-empty lane is never served in any number of rounds |
| `SessionLaneFairness.StarvationReachable` | backend/session_lanes.py:32-62 | that starving state is reached from a new queue by three enqueues |
| `SessionLaneTurns.TogglingStarves` | backend/session_lanes.py:25-30 | a second refutation, with no pop emptying a lane: an item put on an earlier empty lane between two pops and taken back after them makes both serve the same lane; any number of such rounds leaves a third lane waiting |
| `SessionLaneTurns.TogglingReachable` | backend/session_lanes.py:32-62 | that state is reached from a new queue by four enqueues |
| `SessionLaneQueue.LaneQueue.constructor` | backend/session_lanes.py:32-35 | a new queue is empty and valid, with the preferred or default lane order |
| `SessionLaneQueue.LaneQueue.Enqueue` | backend/session_lanes.py:43-62 | normalises the lane and source names, appends to the lane's deque and keeps ids distinct and the queue valid |
| `SessionLaneQueue.LaneQueue.PopNext` | backend/session_lanes.py:69-85 | the in-place pop is the specified one and keeps the queue valid |
| `SessionLaneQueue.LaneQueue.ActiveLanes` | backend/session_lanes.py:70 | the lanes of the lane order that have something queued, in that order |
| `SessionLaneQueue.LaneQueue.RemoveAt` | backend/session_lanes.py:87-104 | the in-place removal is the specified one and keeps the queue valid |
| `SessionLaneQueue.LaneQueue.FindId` | backend/session_lanes.py:97-103 | the first position holding the id, or the length |
| `SessionLaneQueue.LaneQueue.Pop` | backend/session_lanes.py:106-116 | index -1 pops the newest item; an index in range pops that snapshot entry and deletes its position; every other index raises IndexError and changes nothing |
| `SessionLaneQueue.LaneQueue.Snapshot` | backend/session_lanes.py:118-120 | the loop over the deques followed by the sort gives the flattened, age-ordered view |
| `RunPersistence.LruAnswer` | main.py:2705-2721 | for every call history the LRU answers True for an id exactly when it was called before and fewer than the cap distinct ids were called since its last call |
| `RunPersistence.LruKeepsRecent` | main.py:2712-2720 | the dict holds exactly the most recently called distinct ids, least recent first |
| `RunPersistence.RunMemory.constructor` | main.py:2701-2702 | a new memory has been asked nothing |
| `RunPersistence.RunMemory.AlreadyDone` | main.py:2705-2721 | the in-place insert-or-touch answers by that history specification with the cap 4096 |
| `RunPersistence.BridgeWritesIff` | main.py:2800-2847 | after any history a bridge attempts a write if and only if the frame went out, the event is a web final message with a text that is not blank, the runtime has a user, and its run id is missing, empty or not remembered; it writes the text to the origin session, or to its own tab's when the event names none |
| `RunPersistence.PersisterWritesIff` | main.py:2407-2414 | after any history the persister attempts a write if and only if owner, session and text are there and the run id is not remembered; it writes that text to that session |
| `RunPersistence.AskedIff` | main.py:2832-2842 | which run id a call asks the memory about, from its fields; a call without one, or with nothing to write, leaves the memory alone |
| `RunPersistence.RunMemory.Forward` | main.py:2800-2847 | the end of `_forward`, branch by branch, is the specified attempt |
| `RunPersistence.RunMemory.PersistFinal` | main.py:2407-2414 | the persister's guards, branch by branch, are the specified attempt |
| `RunPersistence.AttemptIff` | main.py:2839-2842 | a bridge or persister asking about a run id attempts its write exactly when the memory does not remember the id |
| `RunPersistence.WrittenOnce` | main.py:2407-2414 | with any number of bridges and persister calls, a run id is written exactly once if and only if someone asks about it and it stays in the LRU window from each consultation to the next; it is written at least once if asked about |
| `RunPersistence.WritesCounted` | main.py:2705-2721 | the number of attempted writes for a run id is the number of consultations that found it forgotten |
| `RunPersistence.FewIdsStayInWindow` | main.py:2702 | an id stays inside the window while at most the cap different ids are asked about in all |
| `RunPersistence.RaceWritesOrigin` | main.py:2822-2856 | a race of bridges and persister calls on one final message attempts one write, with its text, in the session that fired it, if any caller is eligible |
| `RunPersistence.WritesGoToOrigin` | main.py:2833-2847 | in any run, if the callers asking about a run id carry one final message, every write attempted for the id has its text and goes to the origin session named in the payload, whichever tab wins |
| `Idempotency.DeliveryDeduper.constructor` | integrations/idempotency.py:11-14 | a new deduper has no calls |
| `Idempotency.DeliveryDeduper.SeenOrAdd` | integrations/idempotency.py:16-28 | over the whole list of calls and answers since the last clear: Seen exactly for a non-empty id that was accepted before with fewer than max ids accepted since; raises exactly for a non-empty id under a negative setting; set and queue hold the last max accepted ids |
| `Idempotency.LawIsUnique` | integrations/idempotency.py:16-28 | the setting and the ids called determine every answer of a history that obeys that rule |
| `Idempotency.SeenAgain` | integrations/idempotency.py:19-24 | an id that was answered New is answered Seen while fewer than max others are new |
| `Idempotency.RememberedIff` | integrations/idempotency.py:25-27 | that rule and the last max accepted ids say the same |
| `Idempotency.DeliveryDeduper.Evict` | integrations/idempotency.py:25-27 | the eviction loop keeps exactly the last max ids and the set of them; under a negative setting it empties both and pops from the empty deque |
| `Idempotency.DeliveryDeduper.Clear` | integrations/idempotency.py:30-33 | forgets everything |
| `Idempotency.AcceptancesSpreadOut` | integrations/idempotency.py:16-28 | in any history two acceptances of one id have at least max others between them |
| `RuntimeTelemetry.ReloadAgrees` | backend/runtime_telemetry.py:96-198 | after any run of append, list and reload with a non-decreasing clock, reloading the file at any later time gives what pruning live memory then gives, up to each event's round trip; it gives exactly that if and only if no retained event has a blank optional id |
| `RuntimeEventHistory.LogHoldsAppended` | backend/runtime_telemetry.py:200-232 | after any run of append, list and reload with a non-decreasing clock, what is retained at a later time, in memory as in the file, is what is retained of the events read at the start followed by all those appended, up to the round trip; without reloads memory holds exactly these |
| `RuntimeEventHistory.EventsHeld` | backend/runtime_telemetry.py:226-231 | from any store in sync, a run without reloads leaves the retained end of what was held followed by what was appended, event for event |
| `RuntimeEventHistory.AppendedIsLast` | backend/runtime_telemetry.py:226 | the event just appended is the last one held |
| `RuntimeEventHistory.PruningCompacts` | backend/runtime_telemetry.py:226-237 | an append or a list that prunes anything rewrites the file to exactly the events held; otherwise only the new row is added |
| `RuntimeEventHistory.FileIsMemory` | backend/runtime_telemetry.py:160-232 | without reloads the file is memory written out row by row, so it is no longer than the retention allows |
| `RuntimeEventHistory.ReloadKeepsFileIff` | backend/runtime_telemetry.py:96-130 | a reload leaves the file as it is, so the file is as short as memory afterwards if and only if the reload pruned nothing |
| `RuntimeEventHistory.PruneThenMore` | backend/runtime_telemetry.py:189-198 | what was pruned away earlier would not be retained later, whatever is appended in between |
| `RuntimeTelemetry.AppendedFields` | backend/runtime_telemetry.py:214-225 | each field of an appended event comes from its own argument: labels stripped and lower-cased, defaults for blank ones, ids stripped, missing or empty ids None |
| `RuntimeTelemetry.RetentionBounds` | backend/runtime_telemetry.py:89-90 | the retention settings have a floor of 60 seconds and 100 events and are otherwise taken as given |
| `RuntimeTelemetry.BadLines` | backend/runtime_telemetry.py:96-130 | an empty or malformed line anywhere makes no difference to a load; a row whose fields do not convert empties it |
| `RuntimeTelemetry.StampsLoaded` | backend/runtime_telemetry.py:112-125 | the loaded events are the rows' round trips, each with its own time stamp, or the loading instant for a missing one |
| `RuntimeTelemetry.BlankSessionLost` | backend/runtime_telemetry.py:120-122 | a session id of one blank makes memory and file disagree after one append |
| `RuntimeTelemetry.RunInSync` | backend/runtime_telemetry.py:160-249 | every run keeps file and memory in sync: both time ordered, and pruning both now gives the same events |
| `RuntimeTelemetry.OpenInSync` | backend/runtime_telemetry.py:83-94 | opening a store on a readable time-ordered file starts in sync |
| `RuntimeTelemetry.PruneTwice` | backend/runtime_telemetry.py:189-198 | pruning now and again later is pruning later |
| `RuntimeTelemetry.PruneSnoc` | backend/runtime_telemetry.py:226-227 | a new event can be added before or after pruning the old ones |
| `RuntimeTelemetry.PruneKeepsLongest` | backend/runtime_telemetry.py:189-198 | of time-ordered events pruning keeps a suffix, and a suffix is short enough and free of expired events if and only if it is no longer than that one |
| `RuntimeTelemetry.FreshOfSuffix` | backend/runtime_telemetry.py:192-194 | for time-ordered events the fresh part of a suffix is the shorter of the two |
| `RuntimeTelemetry.PruneCanon` | backend/runtime_telemetry.py:189-198 | pruning commutes with an event's round trip through the file |
| `RuntimeTelemetry.MadeEventsSurvive` | backend/runtime_telemetry.py:214-225 | append only makes events the reload theorem speaks of, and one is unchanged by its round trip if and only if no optional id argument is given, non-empty and blank |
| `RuntimeEventPages.WalkIsComplete` | backend/runtime_telemetry.py:257-317 | following `next_cursor` terminates and joins to exactly the rest of the filtered list, for any page size |
| `RuntimeEventPages.GrowingWalkMissesNothing` | backend/runtime_telemetry.py:291-317 | if the list only grows in front between pages, a completed walk returns every entry at or after the cursor |
| `RuntimeEventPages.WalkDuringAppends` | backend/runtime_telemetry.py:271-317 | with events appended between pages and nothing pruned, any completed walk returns every matching event present at its start |
| `RuntimeEventPages.FilteredIff` | backend/runtime_telemetry.py:250-290 | the filtered list holds exactly the stored events that pass each given filter, user filters by any of four detail fields |
| `RuntimeEventPages.PageBounds` | backend/runtime_telemetry.py:257-317 | a page has between 1 and 200 entries as asked for, exactly the filtered entries from the cursor on, and names the next cursor exactly when entries are left |
| `RuntimeEventStore.EventStore.constructor` | backend/runtime_telemetry.py:83-94 | clamps the retention settings and hydrates from the file when there is one |
| `RuntimeEventStore.EventStore.LoadFromDisk` | backend/runtime_telemetry.py:96-130 | the reading loop: empty and malformed lines are skipped, an exception empties the log, the rest is decoded in order and pruned |
| `RuntimeEventStore.EventStore.Prune` | backend/runtime_telemetry.py:189-198 | the two popping loops compute the pruned log and report whether anything went |
| `RuntimeEventStore.EventStore.CompactPersistenceFile` | backend/runtime_telemetry.py:160-185 | the file becomes one row per event in memory |
| `RuntimeEventStore.EventStore.AppendEventToDisk` | backend/runtime_telemetry.py:132-156 | adds one row to the file |
| `RuntimeEventStore.EventStore.Append` | backend/runtime_telemetry.py:200-232 | event normalisation, then compact or append, as the specified step |
| `RuntimeEventStore.EventStore.FilterNewestFirst` | backend/runtime_telemetry.py:271-290 | the matching events, newest first |
| `RuntimeEventStore.EventStore.ListEvents` | backend/runtime_telemetry.py:234-322 | prunes, compacts when that removed something, and returns the page of the filtered list with its cursors |
| `CreditLedger.LedgerRefinesCounter` | backend/credit_service.py:46-126 | for a fixed allowance every run of usage, checks, adjustments and renewals keeps used = min(total, allowance) and overage = max(0, total - allowance) for one counter |
| `CreditLedger.AdjustmentUndone` | backend/admin/users.py:396-414 | adjusting by an amount and then by minus the applied amount restores the balance |
| `CreditLedger.AdjustConservesIff` | backend/admin/users.py:396-414 | the total moves by exactly the applied amount if and only if used fits the allowance, or the credit covers the overage and the excess |
| `CreditLedger.DowngradeLosesCredits` | backend/admin/users.py:413 | on a downgraded balance an adjustment by 0 removes the excess over the allowance |
| `CreditLedger.PlanChangeIff` | backend/admin/billing.py:256-263 | a plan change keeps used and overage one counter split at the allowance if and only if the allowance stays, or both allowances cover what was used |
| `CreditLedger.PlanChangeDecides` | backend/admin/billing.py:256-263 | after a plan change the new plan and allowance decide the next check, and what was used in the cycle stays |
| `CreditLedger.DowngradeReached` | backend/admin/billing.py:256-263 | a new balance, its allowance used up, and a smaller plan: canonical until the change, and afterwards an adjustment by 0 loses the difference of the allowances |
| `CreditLedger.GuardedSpendingIsLimited` | backend/credit_service.py:58-126 | if every charge (at most c) follows an allowed check, free-plan use never exceeds allowance + c - 1 and capped overage never exceeds cap + c - 1, over runs of any length with renewals and credits in between |
| `CreditLedger.AllowedIff` | backend/credit_service.py:58-67 | on a canonical balance a check allows exactly: on the free plan while the total is below the allowance, on a capped plan while it is below allowance plus cap, on a paid plan without a cap always |
| `CreditLedger.LimitsAreTight` | backend/credit_service.py:61-67 | both limits are attained |
| `CreditLedger.RenewalIff` | backend/credit_service.py:46-53 | reading a balance puts the instant inside its cycle, and a charge survives the next read at that instant, if and only if it is outside the month's final open second |
| `CreditLedger.RenewedCycle` | backend/credit_service.py:46-53 | after a read the balance carries the cycle of the present month |
| `CreditLedger.OpenSecondWipes` | backend/credit_service.py:29-53 | in every month a balance created in the final open second records a charge and has lost it at the next read |
| `CreditLedger.CreditBalance.constructor` | backend/credit_service.py:29-43 | a new balance is the free plan with nothing used |
| `CreditLedger.CreditBalance.ResetIfExpired` | backend/credit_service.py:46-53 | the in-place reset when the cycle end has passed |
| `CreditLedger.CreditBalance.CheckCredits` | backend/credit_service.py:58-71 | renews, and allows exactly when plan credits are left or a paid plan has overage room |
| `CreditLedger.CreditBalance.RecordUsage` | backend/credit_service.py:115-124 | renews and adds the whole charge to used plus overage, plan credits first |
| `CreditLedger.CreditBalance.AdjustUserCredits` | backend/admin/users.py:396-414 | the step-by-step adjustment; from a canonical balance the total moves by exactly the applied amount |
| `CreditLedger.CreditBalance.UpdateUserPlan` | backend/admin/billing.py:258-263 | renews, then takes the new plan and allowance, leaving used and overage as they are |
| `BillingCycle.PlusThirtyTwoDays` | backend/admin/billing.py:43 | for every year and month the first of the month plus 32 days with the day set to 1 is the first of the next month |
| `BillingCycle.CyclesAbut` | backend/admin/billing.py:42-45 | one second after a cycle's end the next month's cycle starts |
| `BillingCycle.MonthContains` | backend/admin/billing.py:42-45 | an instant lies between its cycle start and the next start |
| `BillingCycle.SameMonth` | backend/admin/billing.py:38-45 | every instant of a month gets the same cycle |
| `BillingCycle.InCycleIff` | backend/admin/billing.py:43-45 | an instant lies in its own inclusive cycle if and only if it is outside the month's final open second |
| `BillingCycle.FinalOpenSecondExists` | backend/admin/billing.py:43-45 | every month has an instant in that second: the last microsecond before the next month |
| `BillingCycle.OrdinalInjective` | backend/admin/billing.py:42-43 | day counting names dates uniquely, so the date arithmetic has one possible result |
| `CreditRates.ChargeBounds` | backend/credit_rates.py:113-121 | a charge never falls short of the exact credits and exceeds them by less than one |
| `CreditRates.RoundingOverCalls` | backend/credit_rates.py:103-121 | over n calls with any models the charges cover the exact credits and exceed them by less than n |
| `CreditRates.SplittingACall` | backend/credit_rates.py:113-121 | splitting one call's tokens into n calls never lowers the charge and raises it by at most n - 1 |
| `CreditRates.FreeIff` | backend/credit_rates.py:115-117 | a call is free if and only if each side of its rate is zero or unused |
| `CreditRates.RateFound` | backend/credit_rates.py:93-100 | a listed model has its own rate, chronos the rates of openrouter, every other pair 1 and 5 |
| `CreditRates.PerThousand` | backend/credit_rates.py:113-121 | rates are per thousand tokens of each side, and the raw cost is the exact credits over 1400 |
| `CreditRates.ZeroRateIsFree` | backend/credit_rates.py:115-117 | a listed zero-rate model is charged nothing for any tokens |
| `Pairing.RunInv` | main.py:975-1298 | every run of messages and owner decisions keeps: one pending request per identity, approved identities equal to the audit replay; rows keep key, kind and code, and no row returns to pending |
| `Pairing.OnePendingRequest` | main.py:1222-1272 | no identity ever has two pending requests |
| `Pairing.CodeConsumedOnce` | main.py:998-1007 | every message answered Paired uses up a pending request of its identity that carries the code and has not run out, and no request is used up twice, whatever the owner does in between |
| `Pairing.AuditReplay` | main.py:5203-5242 | replaying the create, approve, deny and revoke rows rebuilds exactly the approved identities, which are those whose last decision, read off the calls and their replies, approved them |
| `Pairing.AdmittedIff` | main.py:1119-1136 | a message is let through if and only if the policy opens the gate, or requires pairing and the identity's last decision, read off the calls and their replies, was a code that paired or an owner's approval |
| `Pairing.PairedReplyIff` | main.py:1168-1196 | a message is answered Paired if and only if pairing is required, the identity is not approved, and it carries the code of a pending request of the identity that has not run out |
| `Pairing.IngressEffect` | main.py:1119-1296 | what a message changes, by its reply: nothing when admitted; only overdue requests marked when refused; the used request, the identity and one create row when paired; one new pending request and the rate-limit stamp when challenged |
| `Pairing.OverdueIsMarked` | main.py:1158-1240 | a request of the identity that a message looks at and finds overdue does not stay pending |
| `Pairing.ExpiredCodeIsMarked` | main.py:1196-1218 | a refused code whose first request has run out marks that request expired, even one that was decided before |
| `Pairing.DenialEffect` | main.py:5270-5358 | a denial is found exactly for a request of the owner's integration; it then takes exactly that identity out of the approved ones, marks the row, and adds the deny row, after a revoke row if the identity was approved |
| `Pairing.ApprovalEffect` | main.py:5168-5242 | an approval is found exactly for a request of the owner's integration; it then approves exactly that identity, marks the row, and adds the approve row, after a create row if the identity is new |
| `Pairing.PairedIff` | main.py:986-1006 | a code pairs if and only if a pending request of this identity carries it and has not run out |
| `Pairing.ChallengesSpaced` | main.py:1244-1271 | two challenges under one rate key are at least 90 seconds apart |
| `Pairing.ChallengedIff` | main.py:1222-1294 | an ordinary message of an identity that must pair draws a challenge if and only if the last decision did not approve it, it has no open request, and 90 seconds have passed since every challenge sent under its rate key |
| `Pairing.RateKeysDiffer` | main.py:859-867 | two identities and channels share a rate key if and only if they are the same, for ids without colons |
| `Pairing.ChallengeRoundTrip` | main.py:1256-1294 | the code of a challenge pairs at any time before it runs out, the identity is then admitted, and the same code does not pair again |
| `PairingService.PairingStore.constructor` | main.py:975-985 | the empty tables the run theorems start from |
| `PairingService.PairingStore.TryConsumePairingCode` | main.py:975-1046 | the handler on the tables is the specified consume |
| `PairingService.PairingStore.EnforceIngressPolicy` | main.py:1119-1296 | the handler on the tables is the specified ingress decision, branch by branch |
| `PairingService.PairingStore.TakePending` | main.py:1222-1237 | finds the pending request, expiring an overdue one |
| `PairingService.PairingStore.Challenge` | main.py:1243-1272 | issues a challenge row unless the rate limit refuses |
| `PairingService.PairingStore.ApprovePairingRequest` | main.py:5168-5242 | the owner's approval on the tables is the specified one, with the create row only for a new identity |
| `PairingService.PairingStore.DenyPairingRequest` | main.py:5270-5358 | the owner's denial on the tables is the specified one, with a revoke row when the identity was approved |
| `HeartbeatPinger.SlotDispatchedIff` | backend/heartbeat_pinger.py:119-144 | over any run of ticks with a running clock and any saved `last_run`, a slot is dispatched if and only if that stamp does not cover it, some tick catches it (switched on, latest slot, within the grace) and no tick stamps its instant, all read off the stamp and the ticks |
| `HeartbeatPinger.FiredIff` | backend/heartbeat_pinger.py:133-143 | a dispatch happens at an instant if and only if a tick there is the first to catch the slot before it and that slot was neither covered nor itself stamped |
| `HeartbeatPinger.AlignedTicksMissSlot` | backend/heartbeat_pinger.py:129-143 | with a slot on every minute, a tick on each of the minutes 1 to n and a 60-second interval, every slot is caught by a tick and exactly every other slot is dispatched |
| `HeartbeatPinger.SlotAtMostOnce` | backend/heartbeat_pinger.py:133-143 | no slot is dispatched twice, even if the clock jumps |
| `HeartbeatPinger.SlotExactlyOnce` | backend/heartbeat_pinger.py:127-144 | exactly once when the first tick after the slot is within the grace, no other slot falls between and no tick lands on the slot |
| `HeartbeatPinger.RunInOrder` | backend/heartbeat_pinger.py:127-144 | dispatches answer slots in strictly increasing order and `last_run` is the last dispatch |
| `HeartbeatPinger.FireIsStep` | backend/heartbeat_pinger.py:123-144 | one tick of an automation in the saved list is one step of the run the slot theorems speak about |
| `HeartbeatPinger.Pinger.constructor` | backend/heartbeat_pinger.py:80-84 | keeps the interval, the slot function and the saved automations |
| `HeartbeatPinger.Pinger.TickSession` | backend/heartbeat_pinger.py:121-148 | fires exactly the due automations of a session, in order, stamping only those |
| `HeartbeatPinger.Pinger.FireOne` | backend/heartbeat_pinger.py:124-143 | one automation is stamped and dispatched exactly when it is due, and no other is touched |
| `HeartbeatPinger.Pinger.TickSaved` | backend/heartbeat_pinger.py:119-150 | what is saved after the tick is the stamped list, and nothing is written when nothing fired |
| `SessionsMigration.InterleavedMigrations` | backend/sessions_migration_service.py:54-179 | any number of migrations interleaved row by row with each other and other writers, a user's delete included: records are only added, at most one per row, archived rows stay archived, and the returned counts add up to the number of new records |
| `SessionsMigration.RecordedUnlessEscaped` | backend/sessions_migration_service.py:54-179 | once no worker is in the middle of a loop, a row archived during the run has a record if and only if it did not escape: no user deleted it while it had no record and no worker held it |
| `SessionsMigration.DeletedWithoutRecordIff` | main.py:2130-2147 | a conversation its user deletes stays without a record whatever happens afterwards if and only if at the delete it has none and no worker holds it |
| `SessionsMigration.HolderRecords` | backend/sessions_migration_service.py:66-114 | a worker that holds a row has it recorded once it has worked its queue off up to there, deleted or not |
| `SessionsMigration.DeletedBeforeMigration` | main.py:2130-2147 | a conversation deleted before its user's first migration is archived and has no record after any further steps |
| `SessionsMigration.RunTracked` | backend/sessions_migration_service.py:54-179 | any run keeps: held rows exist, escaped rows are archived without a record and held by nobody, every other row archived since the start has a record or is held |
| `SessionsMigration.FirstSnapshotStays` | backend/sessions_migration_service.py:71-110 | a row's record is, for good, what the row held when the worker that inserted it had read it, whatever others do between the read and the insert and afterwards |
| `SessionsMigration.RecordAgreesIff` | backend/sessions_migration_service.py:71-111 | a row and its record agree at the end of any run if and only if the messages after the worker's read, before or after the insert, left the row holding what it held at the read, or what an older record says |
| `SessionsMigration.MessageMissed` | backend/conversation_service.py:75-113 | from the start of a migration, a message that arrives between the read and the insert, or after the insert, is in the archived row and not in its record |
| `SessionsMigration.NextAccounted` | backend/sessions_migration_service.py:72-114 | each single step keeps that accounting |
| `SessionsMigration.ArchiveAllExact` | backend/sessions_migration_service.py:66-114 | one loop archives exactly the given rows, gives each a record that is new only if it was missing, and counts the new ones |
| `SessionsMigration.MigrationIsComplete` | backend/sessions_migration_service.py:29-51 | a migration alone leaves only the main session unarchived, rows of other users as they were, and counts its new records |
| `SessionsMigration.AloneIsMigration` | backend/sessions_migration_service.py:29-114 | step by step with nobody in between, a worker of the interleaved model ends with the tables and the counts of that migration |
| `SessionsMigration.SecondMigrationDoesNothing` | backend/sessions_migration_service.py:29-51 | a second migration counts nothing and changes nothing |
| `SessionsMigration.MigrationService.constructor` | backend/sessions_migration_service.py:29-34 | a service over the given tables |
| `SessionsMigration.MigrationService.InsertArchiveIfAbsent` | backend/sessions_migration_service.py:182-205 | an existing record stays; the result says whether this call inserted |
| `SessionsMigration.MigrationService.ArchiveLegacy` | backend/sessions_migration_service.py:54-114 | the archive loop visits exactly the selected rows once and counts the new records |
| `SessionsMigration.MigrationService.EnsureMainSession` | backend/session_store.py:15-45 | adds the main session row only when there is none |
| `SessionsMigration.MigrationService.MigrateUserToSessionsFirst` | backend/sessions_migration_service.py:29-51 | leaves everything of the user archived but the main session, returns counts equal to the new records, and does nothing on a migrated user |
| `SessionIdentity.ConversationRoundTrip` | backend/session_identity.py:24-40 | parsing a printed conversation id gives the stripped id back, colons included, and None exactly for a blank one |
| `SessionIdentity.ParserAccepts` | backend/session_identity.py:32-40 | the parser returns c if and only if the stripped session id is the legacy prefix followed by a non-empty c |
| `SessionIdentity.SessionRoundTrip` | backend/session_identity.py:24-40 | the parser accepts exactly the stripped session ids that go on after the legacy prefix, and printing what it returns gives the id back if and only if the character after the prefix is not blank |
| `SessionIdentity.LeadingBlankLost` | backend/session_identity.py:24-40 | the legacy prefix followed by a blank and x parses, and prints without the blank |
| `SessionIdentity.BridgeInjective` | backend/session_identity.py:24-29 | two conversation ids share a session id if and only if they agree after stripping |
| `SessionIdentity.NormalizeIdempotent` | backend/session_identity.py:43-52 | normalising always lands in the `agent:main:` form and a second pass with any fallback changes nothing |
| `SessionIdentity.NormalizeKeepsOrBridges` | backend/session_identity.py:43-52 | a canonical id is kept; any other that is not blank, else the fallback, becomes the session id whose conversation it is; with neither it is the main session |

## Left out

- SessionGatewayCalls.DeliveredInOrder: says nothing about the other routing fields (session key, channel, platform, conversation, time stamps), which do not affect delivery.
- SessionGatewayTheorems.DrainCompletes: speaks of resumes of the drain task; that the event loop eventually resumes a runnable task is asyncio's promise, not the hub's.
- SessionLaneQueue.LaneQueue.ServeCursor: the search over offsets always stops at offset 0, since the lane at the cursor is active, so the loop is not repeated in the model.
- RunPersistence.WrittenOnce: counts attempted writes; a write that fails afterwards is not tried again, because the id was marked before it.
- RuntimeTelemetry.ReloadAgrees: assumes a non-decreasing clock, successful file writes, and rows with an id and a time stamp above zero as the store itself writes them.
- Pairing.RateKeysDiffer: for ids without colons; with colons in them two identities can share a rate key and so a rate limit.
- RuntimeEventStore.EventStore.LoadFromDisk: a row's JSON is one of row, empty, malformed or raising; which fields make a conversion raise is not part of this model.
- RuntimeEventStore.EventStore.CompactPersistenceFile: a write that fails, which the source logs and goes on from, is not part of this model.
- RuntimeEventStore.EventStore.AppendEventToDisk: likewise; a failed append leaves memory ahead of the file.
- PairingService.PairingStore.EnforceIngressPolicy: the message, allowlist and pairing settings are reduced to a gate (blocks, opens, requires pairing) and the reply texts to four replies; the callback's nonce only chooses a text.
- HeartbeatPinger.SlotDispatchedIff: one schedule per automation; edits of the schedule during a run, and saved stamps that do not parse, are not part of this model.
- CreditLedger.LedgerRefinesCounter: for a fixed allowance and plan; what the admin's plan change does to it is `PlanChangeIff`, and the top-ups and plan changes of backend/payments.py are not part of this model.
- SessionsMigration.FirstSnapshotStays: a row's title, status and times come from the select at the loop's start and only its messages are read at the iteration (backend/sessions_migration_service.py:55-90); the model reads the row and its messages together at the iteration.
- SessionsMigration.RecordAgreesIff: likewise; a rename between the select and the iteration is in the modelled record and not in the source's.
- SessionsMigration.MigrationIsComplete: a migration running alone; two migrations creating the main session at once are not part of this model.
- Hub registrations are records addressed by their position in the hub, so aliasing between the dict and the drain tasks is by index, not by Dafny references; a `send` that itself swallows the cancellation or unregisters its own session is not part of this model.
- The hub's `snapshot`, `get_route`, `bind_conversation`, and the queue's `depth_by_lane`, `append` and length: read-only or one-line.
- Telemetry counters, retention of details values that are not strings, and lower-casing outside ASCII.
- Python floats are reals, and Python's year 9999 limit is not modelled.
- The rate table, plan table and tiers are parameters or constants only where a property needs them.
- Usage history, usage summary and the credit-low warning mail.
- The admin path's own get-or-create does not renew a cycle; adjustments are modelled without renewal for that reason.
- Pairing handlers are atomic steps; two requests of one identity handled at once, a code drawn twice and the pending list are not part of this model.
- Cron parsing and schedule text: a function giving the greatest slot strictly before an instant stands for croniter; a crash between dispatch and save, and a raising automation, are not part of this model.
- Archive keys are a kind and an id; the insert branch for other databases, and deleting rows, are not part of this model.
- HTTP, websockets, database sessions, JSON, hashing, random ids and clocks: parameters, or not part of this model.
