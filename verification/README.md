# Verified model of the Daikin MQTT bridge's control logic

This project models the decision logic of the bridge and proves properties of
it: the weekly scheduler (resolution of the week ring, the engine that acts on
it, the revisions that guard its document), the ONECTA client's circuit breaker
and retry loop, the machines that keep the units of one outdoor unit in step,
the classification of retained topics, and the table of pending logins.

| file | what it holds |
|---|---|
| `Text.dfy` | optional values, set sizes, string order, sorted lists, decimal rendering, separated parts |
| `Model.dfy`, `Validation.dfy` | the schedule document, clock times, target keys; what a valid document is, and the checking loops |
| `Ring.dfy`, `Order.dfy` | which claim wins a slot, declaratively; the in-place painting; independence of document order |
| `Switches.dfy`, `Segments.dfy`, `Conflicts.dfy` | switch points, calendar segments and heat/cool conflict windows of a resolved week |
| `Clock.dfy` | slots against linear time |
| `Signature.dfy` | the writes of an action, the write queue, action fingerprints |
| `Evaluation.dfy`, `Runs.dfy`, `WriteBound.dfy`, `Engine.dfy` | one evaluation, whole runs, the bound on writes, the engine itself |
| `Retries.dfy`, `Regain.dfy` | what the applier's answers do to the cache; a week in which a switch point writes nothing |
| `Revisions.dfy`, `Handlers.dfy`, `Slug.dfy` | document changes under interleaving, the create/update handlers, ids |
| `Breaker.dfy`, `BreakerRuns.dfy`, `Attempts.dfy` | the ONECTA client, its runs, and one call read off the replies |
| `Outdoor.dfy`, `GroupRuns.dfy` | shared writes, mode sync, econo suspend/restore |
| `Layout.dfy` | topics of both layouts, the parser, the retained sweep |
| `StateStore.dfy` | the bounded single-use table of pending logins |

To check: `dafny verify dfyconfig.toml`.

## Conventions

- A week is 336 half-hours. `Ring.Resolved` is the reference definition: it
  compares every (schedule, block, weekday) site of the document and takes the
  best. `Ring.Resolve` is the in-place loop; its contract is equality with it.
- Instants are integer nanoseconds in one fixed-offset zone, counted from a
  Monday midnight. `Evaluate` and `untilNext` read the clock separately in the
  program; in the run theorems both see the same instant.
- A write to the backend is recorded in the ghost list `issued`, whether taken or not.
- A `float64` setpoint or demand is held as the shortest decimal that denotes
  it, which is also how the program renders it.
- Trimming, lower-casing and transliteration are a parameter `prep` of which
  only one thing is used: it changes nothing in a slug.
- `hatopic.IsFunction` is a parameter: true on `status` and `set`, false on
  `bridge`, `scheduler` and owned device ids.
- The backend, disk, applier and token provider answer through parameters.

## What the proofs found

- "Every switch point writes" does not hold: a block that regains a slot after
  a higher-priority block keeps its old start. `Regain.RegainIsNotWritten` is
  such a week; `Evaluation.BoundaryApplies` gives the exact condition on an
  exact timer.
- "No lost update" does not hold for an edit sent without a revision, nor for
  one sent with a negative revision, which switches the check off
  (`Revisions.UncheckedEditLosesToggle`). `Revisions.AcceptedEdit` says exactly
  when an accepted edit loses nothing, and an unmoved revision is enough; with
  a revision of at least 0 seen before the read nothing is ever lost
  (`Revisions.NoLostUpdate`).
- "No read is sent inside the scan-ignore window" does not hold: the window is
  tested when a read enters, before it waits for its turn
  (`BreakerRuns.WindowOvertaken`). `BreakerRuns.SentInsideWindow` gives the exact
  condition: a write succeeded between the read's entry and its turn, less than
  the window before.
- `parseClock` accepts signs (`+1:00` and `24:-0`: `ScheduleModel.SignedClock`);
  `ScheduleModel.FormatParse` says exactly which texts survive formatting.
- `docs/schedule-design.md` gives 5 to 35 degrees as setpoint bounds, the code
  5 to 60; the model follows the code.
- The eviction loop of the login table uses the empty key as "none yet", so it
  is exact whenever no entry has the empty key. Generated states are not empty.

## Model

| member | source | states |
|---|---|---|
| ScheduleModel.Block.Duration | internal/schedule/model.go:249-257 | every block, valid or not, lasts a whole number of half-hours, more than none and at most a day |
| ScheduleModel.BlockTimes | internal/schedule/model.go:241-257 | a block starts at its parsed time and its length takes it to its parsed end on that day or the next; what cannot be read counts as midnight |
| ScheduleModel.ParseClock | internal/schedule/model.go:649-680 | an accepted time lies on the half-hour grid, and 24:00 is accepted only as an end |
| ScheduleModel.ParseFormat | internal/schedule/model.go:684-690 | every grid minute of the day survives formatting and parsing |
| ScheduleModel.FormatParse | internal/schedule/model.go:649-690 | an accepted text survives parsing and formatting exactly when it spells no sign |
| ScheduleModel.SignedClock | internal/schedule/model.go:649-690 | two accepted texts, `+1:00` and `24:-0`, that formatting does not give back |
| ScheduleModel.BoundsExact | internal/schedule/model.go:617-643 | the bounds of a setpoint or demand compare its exact value |
| ScheduleModel.TargetKeys | internal/schedule/model.go:424-440 | lists exactly the nonempty target keys of the document, each once, sorted |
| Validation.Validate | internal/schedule/model.go:486-538 | the checks report no issue exactly for the documents the declarative definition calls valid |
| Validation.BlocksIssues | internal/schedule/model.go:563-609 | the loop with its seen set accepts exactly valid blocks with pairwise different ids |
| Validation.DayIssues | internal/schedule/model.go:573-586 | accepts exactly nonempty lists of known, pairwise different weekdays |
| Validation.ScheduleIssues | internal/schedule/model.go:497-533 | accepts exactly valid schedules whose id was not seen before |
| Validation.ValidActionExact | internal/schedule/model.go:612-644 | what a valid action is, bounds compared by exact value |
| Validation.UntypedIsIndoor | internal/schedule/model.go:516-529 | in a valid document a schedule that is not outdoor, typed or not, has indoor targets and actions, and an outdoor one outdoor ones |
| Ring.Candidates | internal/schedule/ring.go:62-89 | the claims staked on a slot are those of the enabled, applicable sites whose block covers it modulo the week |
| Ring.ResolvedIsBest | internal/schedule/ring.go:44-103 | a slot is a gap exactly when no enabled block for the target runs there; else it carries the schedule, block and action of the running block that no other one exceeds in priority, or at equal priority in recency of start, or at equal both in document order |
| Ring.ResolvedPlaced | internal/schedule/ring.go:74-84 | the winning claim's start plus age is the slot it holds, modulo the week |
| Ring.BestBeforeStep | internal/schedule/ring.go:85-103 | the comparison in the inner loop replaces the best claim so far exactly by one of higher priority, or of equal priority and smaller age |
| Ring.ClaimRun | internal/schedule/ring.go:70-88 | painting one weekday entry in place takes the ring from the best before it to the best including it, wrapping around the week |
| Ring.ClaimBlock | internal/schedule/ring.go:62-90 | painting one block advances every slot past all its weekday entries |
| Ring.Resolve | internal/schedule/ring.go:44-58 | the painted ring equals the declarative winner in all 336 slots |
| Order.OrderIndependent | internal/schedule/ring.go:62-103 | listing schedules, blocks or weekdays in another order keeps each slot's emptiness, priority, age and start, and the whole claim unless different claims tie |
| Order.WinnersTie | internal/schedule/ring.go:94-103 | winners over the same set of claims tie, whatever the order of sites |
| Order.PermutedSchedules | internal/schedule/ring.go:49-57 | permuting schedules is such a reordering |
| Order.PermutedBlocks | internal/schedule/ring.go:54-65 | permuting blocks and weekdays within a schedule is such a reordering |
| Switches.RingIndex | internal/schedule/ring.go:106-111 | truncated remainders normalise any integer to its slot |
| Switches.NextChange | internal/schedule/ring.go:116-128 | finds the first later slot with another winner, at distance below a week, and fails exactly on a constant week |
| Switches.CountSwitches | internal/web/schedules.go:424-433 | counts the switch points of one lap |
| Switches.CountLap | internal/web/schedules.go:424-433 | any window one week long holds that many switch points |
| Switches.FollowReaches | internal/schedule/ring.go:116-128 | a switch point is reached after as many steps as there are switch points up to it |
| Switches.TourReturns | internal/schedule/ring.go:116-128 | following NextChange from a switch point countSwitches times comes back exactly 336 slots later |
| Switches.TourVisitsEach | internal/schedule/ring.go:116-128 | on the way every switch point of the week is visited exactly once |
| Switches.SwitchesZeroOrSeveral | internal/web/schedules.go:424-433 | the count is 0 exactly when the week is constant, exactly when NextChange fails everywhere, and never 1 |
| Segments.DaySegments | internal/schedule/ring.go:144-175 | the segments tile the day: on the grid, one winner each with the first slot's claim, only gaps left out, different winners where two touch |
| Segments.TilesOrdered | internal/schedule/ring.go:144-175 | a tiling is ordered, disjoint, inside the day and maximal |
| Segments.TilesUnique | internal/schedule/ring.go:144-175 | a day has only one tiling, so the contract fixes the result |
| Segments.WeekSegments | internal/web/schedules.go:374-378 | painting the segments of all seven days back gives every slot's winner key, gaps included |
| Conflicts.FindConflicts | internal/schedule/ring.go:240-271 | the windows found describe the whole week: each all conflict, maximal, with exact side lists |
| Conflicts.ConflictsExact | internal/schedule/ring.go:232-271 | a slot lies in exactly one window if the winning blocks run some device in heat and some in cool or dry there, and in none otherwise |
| Conflicts.WindowsOrdered | internal/schedule/ring.go:240-271 | windows come in order, and a slot without conflict separates any two |
| Conflicts.CollectMore | internal/schedule/ring.go:262-264 | a side list is the strictly sorted set of the devices on that side somewhere in the window |
| Conflicts.Union | internal/schedule/ring.go:296-307 | insertion at the searched position yields the sorted duplicate-free union |
| Conflicts.Sides | internal/schedule/ring.go:276-293 | splits exactly the devices scheduled to heat from those scheduled to cool or dry |
| Conflicts.WindowSides | internal/schedule/ring.go:258-293 | a window's two lists hold, sorted, exactly the devices that heat, and those that cool or dry, somewhere in it |
| Text.LessExact | internal/schedule/ring.go:298-298 | strings compare at their first difference, a prefix first |
| Text.SearchStrings | internal/schedule/ring.go:298-298 | the first position whose entry is not below the value |
| Clock.SlotAtIndex | internal/schedule/ring.go:180-183 | the weekday and time-of-day computation is the half-hour number modulo 336 |
| Clock.SlotStartLeast | internal/schedule/ring.go:189-205 | SlotStart is the least instant at or after `from` at which the slot starts |
| Clock.SlotStartBeforeGreatest | internal/schedule/ring.go:210-216 | SlotStartBefore is the greatest such instant at or before `from` |
| Clock.ClockAgeIsRingAge | internal/schedule/engine.go:348-349 | the clock age of a winning claim lies in the half-hour its ring age names |
| Signatures.BuildSignature | internal/schedule/model.go:183-222 | the builder's pieces give the fingerprint |
| Signatures.IndoorSignatureExact | internal/schedule/model.go:183-222 | two valid indoor actions have equal fingerprints exactly when they write the same |
| Signatures.OutdoorSignatureExact | internal/schedule/model.go:183-222 | the same for outdoor actions |
| Signatures.SignaturesApart | internal/schedule/model.go:179-182 | fingerprints of the two kinds never coincide and none is empty |
| Signatures.RenderInjective | internal/schedule/model.go:164-177 | different values have different payloads |
| Signatures.IndoorWritesExact | internal/coordinator/schedule.go:93-124 | an indoor action writes the mode or off, then for a unit that is on the setpoint |
| Signatures.OutdoorWritesExact | internal/coordinator/schedule.go:133-164 | an outdoor action writes exactly the settings it has, in order, on or off as they say |
| Signatures.ReceiverExact | internal/coordinator/schedule.go:89-184 | an action goes to the unit and management point named or known, or to the first member of the outdoor group with a known one |
| Signatures.WritesFitTarget | internal/coordinator/schedule.go:77-164 | in a valid schedule an indoor target gets indoor writes and an outdoor target outdoor ones, and always some |
| Signatures.WriteQueue.Enqueue | internal/coordinator/schedule.go:192-201 | a request is queued unless the queue is full, without blocking |
| Signatures.WriteQueue.ApplySchedule | internal/coordinator/schedule.go:77-164 | queues the whole write list in order to the right unit, or nothing for an unknown device, or the prefix that fits a full queue |
| Evaluation.SameKeySameAction | internal/schedule/ring.go:30-35 | in a valid document slots with equal winner keys call for the same action, since schedule ids have no "/" |
| Evaluation.EntryTracksWinner | internal/schedule/engine.go:332-379 | after an evaluation whose apply succeeds the entry is the winner's signature, or absent in a gap |
| Evaluation.ApplyIsRecent | internal/schedule/engine.go:344-356 | an apply is attempted only within the catch-up window, which bounds the claim's ring age |
| Evaluation.BoundaryApplies | internal/schedule/engine.go:344-356 | on an exact timer an action not in force is applied exactly when its ring age fits the window |
| Regain.RegainIsNotWritten | internal/schedule/engine.go:344-356 | a valid week, an instant at which the winner changes to an action not in force, and the decision there is to record and not to apply |
| Evaluation.ChangeInstant | internal/schedule/engine.go:413-418 | the change found in the ring is the first instant at which the winner differs |
| Evaluation.ChangeStart | internal/schedule/engine.go:417-419 | SlotStart of the found slot is that instant |
| Evaluation.SleepIsQuiet | internal/schedule/engine.go:402-427 | no target's winner changes during a sleep, except within the second it is rounded up to |
| Runs.TargetOfWinner | internal/schedule/engine.go:384-396 | a write goes to a target of the winning schedule with the key that was resolved |
| Runs.RunTracksWinners | internal/schedule/engine.go:273-379 | after every evaluation of a run the cache holds exactly the winner's signature or nothing |
| Runs.RunMissesNothing | internal/schedule/engine.go:279-293 | between two evaluations of a run, on timer or woken, no winner changes, except within the clamp |
| Runs.TakeoverIsServed | internal/schedule/engine.go:273-427 | a block taking over in its own first half-hour is written at that evaluation or was already in force |
| WriteBound.WritesBounded | internal/schedule/engine.go:316-379 | for any times and outcomes, writes are bounded by switch points crossed plus one while the target is settled |
| WriteBound.WritesPerSwitch | internal/schedule/engine.go:316-379 | crossing k switch points yields at most k + 1 successful writes |
| WriteBound.SwitchBetweenWrites | internal/schedule/engine.go:316-379 | between two successful writes to one target lies a switch point of its week |
| WriteBound.CallsAreWrites | internal/schedule/engine.go:297-379 | over any evaluations of the engine, with any answers, the successful applier calls for a target are the writes bounded above |
| WriteBound.CallsPerSwitch | internal/schedule/engine.go:297-379 | they are at most the switch points crossed, plus one |
| Retries.CalledExactly | internal/schedule/engine.go:332-361 | the applier is called for a target exactly when its winning action is not in the cache and started within the window, once and with that action |
| Retries.FailureForgotten | internal/schedule/engine.go:361-379 | a call not answered with success leaves the target's entry as it was |
| Retries.EntryChanges | internal/schedule/engine.go:327-379 | an entry becomes the winning signature only by a successful call, by a start older than the window, or with no applier; it vanishes in a gap; else it stays |
| Retries.CalledUntilApplied | internal/schedule/engine.go:361-379 | while the same block wins within its window every evaluation calls again until a call succeeds |
| Engines.Engine.EvaluateTarget | internal/schedule/engine.go:316-379 | steps one cache entry and makes at most the one call that is due |
| Engines.Engine.Evaluate | internal/schedule/engine.go:297-313 | steps every target's entry, changes no other, and calls the applier exactly for the targets that are due, in key order |
| Engines.Engine.UntilNext | internal/schedule/engine.go:402-427 | sleeps until the earliest instant at which any target's winner changes, at least a second, or an hour when none ever does |
| Engines.Engine.RunCycles | internal/schedule/engine.go:273-293 | the evaluate-and-sleep loop produces a run |
| Engines.Engine.Replace | internal/schedule/engine.go:183-211 | installs a valid document with the next revision, or changes nothing on a stale revision, an invalid document or a failed save |
| Engines.Engine.SetEnabled | internal/schedule/engine.go:215-240 | flips exactly one schedule's switch under a new revision; no change when already there |
| Engines.Engine.Delete | internal/schedule/engine.go:243-269 | removes exactly the first schedule with the id under a new revision |
| Engines.Engine.Save | internal/schedule/store.go:58-66 | saves only valid documents |
| Revisions.RevisionStep | internal/schedule/engine.go:183-269 | every request leaves the document alone or raises its revision by one |
| Revisions.RevisionNamesDocument | internal/schedule/engine.go:187-194 | over any interleaving equal revisions mean equal documents |
| Revisions.NoLostUpdate | internal/web/schedules.go:175-249 | an edit with a revision of at least 0 seen before its read succeeds only on exactly the document it read and changes no other schedule |
| Revisions.AcceptedEdit | internal/web/schedules.go:175-249 | any accepted edit takes effect on the live schedules and changes no other exactly when these still agree with the copy it was made from apart from its own schedule, as they do while the revision has not moved |
| Revisions.UncheckedEditLosesToggle | internal/web/schedules.go:501-506 | a history in which an edit with no revision, or a negative one, undoes a toggle |
| Revisions.EditExactly | internal/schedule/engine.go:183-211 | a create or update is accepted exactly when its revision is not stale, the edited document is valid and the save succeeds, and what is then stored |
| Revisions.ToggleExactly | internal/schedule/engine.go:215-240 | a toggle sets the switch of the one schedule with the id and leaves all others alone; it changes nothing exactly when none is on the other side or the save fails |
| Revisions.DeleteExactly | internal/schedule/engine.go:243-269 | a delete takes out the one schedule with the id and keeps all others in order; it changes nothing exactly when there is none or the save fails |
| Revisions.AlwaysValid | internal/schedule/engine.go:198-201 | the live document always validates |
| Handlers.HandleCreate | internal/web/schedules.go:175-211 | hands the copy plus one schedule with a free id made from its name to Replace |
| Handlers.HandleUpdate | internal/web/schedules.go:214-249 | hands the copy with one schedule replaced, its id kept, to Replace |
| Handlers.CreateInHistory | internal/web/schedules.go:175-211 | a create made from a copy read at some point of a history, with a revision seen by then or none, adds exactly its request to the history |
| Handlers.UpdateInHistory | internal/web/schedules.go:214-249 | the same for an update |
| Handlers.CreateValid | internal/web/schedules.go:189-197 | a create on a valid copy is invalid only because of the schedule sent |
| Handlers.UpdateValid | internal/web/schedules.go:236-241 | the same for an update |
| Slugs.Slug | internal/schedule/model.go:721-747 | the loop with its pending separator computes the recursive definition |
| Slugs.SlugFixpoint | internal/schedule/model.go:721-747 | slugging is idempotent, and the texts it leaves alone are exactly the slugs |
| Slugs.SlugJoinsWords | internal/schedule/model.go:721-747 | a slug is the runs of kept characters of the prepared name, one underscore between any two |
| Slugs.UniqueSlug | internal/schedule/model.go:751-765 | the base or the first free numbered candidate, outside `taken`, and a slug |
| Slugs.TriedFits | internal/schedule/model.go:759-764 | the search ends within as many candidates as there are taken ids, plus one |
| Slugs.NextBlockID | internal/web/schedules.go:490-497 | the lowest free b<n> |
| Slugs.NormalizeBlockIDs | internal/web/schedules.go:477-487 | all ids end nonempty and different; first owners keep theirs, others get the lowest free one; nothing else changes |
| Client.Client.GetDevices | internal/daikin/client/client.go:213-280 | once it has its turn, sends nothing when the breaker refuses; else runs the retry loop and leaves its marks on the breaker |
| Client.Client.Retry | internal/daikin/client/client.go:225-280 | the loop follows the attempt-by-attempt definition |
| Client.Client.Patch | internal/daikin/client/client.go:285-351 | one refresh and retry after a first 401; only success starts the scan-ignore window |
| Client.Client.CheckBreaker | internal/daikin/client/client.go:459-472 | refuses only while open and not yet a minute old, else half-opens |
| Client.Client.RecordFailure | internal/daikin/client/client.go:487-504 | half-open reopens at once; otherwise the fifth failure opens |
| Client.Client.RecordSuccess | internal/daikin/client/client.go:475-483 | closes the breaker and clears the counter |
| Client.Backoff | internal/daikin/client/client.go:401-405 | the delay lies between the doubled base and half as much again |
| Client.BackoffAttains | internal/daikin/client/client.go:401-405 | every delay from the doubled base to half as much again can come up |
| Attempts.ReadExactly | internal/daikin/client/client.go:225-280 | a read makes exactly the attempts before which each met a lost connection, a broken response, a server error or the first 401, no wait was cancelled and the limit was not reached; requests, refreshes and sleep are theirs, and the last reply or the cancelled wait names the outcome |
| Attempts.WriteExactly | internal/daikin/client/client.go:309-350 | a write tries again exactly after a first 401; its last reply names the outcome |
| BreakerRuns.GetBounded | internal/daikin/client/client.go:204-280 | at most RetryAttempts requests, one token invalidation, and 1.5 * base * (2^(attempts - 1) - 1) of sleep |
| BreakerRuns.PatchBounded | internal/daikin/client/client.go:285-351 | at most two requests and one token invalidation, no sleep, and success exactly when the last reply was one |
| BreakerRuns.MarksByReply | internal/daikin/client/client.go:243-351 | every attempt of a read or write leaves on the breaker the mark of its own reply |
| BreakerRuns.NeutralReplies | internal/daikin/client/client.go:243-351 | in any read or write each attempt moves the breaker by its own reply, and a 401, a 429, a token error or another client error not at all |
| BreakerRuns.NeutralCall | internal/daikin/client/client.go:243-351 | a call that meets only such replies leaves the breaker as its check left it |
| BreakerRuns.BreakerReadsLog | internal/daikin/client/client.go:459-504 | over every run: closed exactly while fewer than five failures followed the last success, half-open exactly while a late check awaits its outcome, the counter leaves out failed probes, opened at the last failure |
| BreakerRuns.AdmittedExactly | internal/daikin/client/client.go:459-472 | a call passes exactly when fewer than five failures followed the last success or the last failure is a minute old |
| BreakerRuns.CallAsEvents | internal/daikin/client/client.go:213-280 | a call acts on the breaker as its check and its marks |
| BreakerRuns.RunReadsLog | internal/daikin/client/client.go:204-351 | the same reading of the breaker after every run of interleaved reads and writes |
| BreakerRuns.RefusedExactly | internal/daikin/client/client.go:213-306 | in every run a read or write is refused exactly when five failures followed the last success and the last is less than a minute old, and then sends nothing |
| BreakerRuns.IgnoredExactly | internal/daikin/client/client.go:205-211 | in every run a read is turned away at its entry exactly when some write succeeded less than the scan-ignore time before |
| BreakerRuns.SentInsideWindow | internal/daikin/client/client.go:204-280 | in every run in which each read entered outside the window, a read sends inside it exactly when the breaker and its first request allow it and a write succeeded between its entry and its turn, less than the window before |
| BreakerRuns.WindowOvertaken | internal/daikin/client/client.go:205-214 | such a run for every length of window: a read enters, a write succeeds, the read is sent at the same instant |
| Outdoor.Coordinator.GroupMembers | internal/coordinator/outdoor.go:37-51 | the sorted devices of one outdoor unit, or the device alone |
| Outdoor.Coordinator.SyncModeToGroup | internal/coordinator/outdoor.go:78-112 | sends the mode to exactly the other members known to run in the opposite direction, and caches it for those that take it |
| Outdoor.Coordinator.FanOutToGroup | internal/coordinator/outdoor.go:294-310 | sends one write to every other reachable member, in order |
| Outdoor.MembersExact | internal/coordinator/outdoor.go:37-51 | a group is the device and all devices with its serial |
| Outdoor.ConflictExact | internal/coordinator/outdoor.go:54-103 | a member is in conflict exactly when it is known to run in a mode of the opposite direction, dry counting as cooling |
| Outdoor.NotedExact | internal/coordinator/backend.go:49-68 | a power, mode or econo write that was taken is read back as written, and nothing else changes |
| Outdoor.TruthyExact | internal/coordinator/backend.go:143-155 | a text is true exactly when it is on, true or 1, in any case, between any white space |
| Outdoor.EconoNotedAll | internal/coordinator/backend.go:49-68 | econo writes to a group, folded into the caches one by one, latch econo for that group and touch nothing else |
| GroupRuns.WrittenHoldMode | internal/coordinator/backend.go:23-68 | every device written in a mode sync ends cached in the commanded mode |
| Outdoor.Coordinator.ObserveEcono | internal/coordinator/outdoor.go:193-213 | the locked step changes one group's state as the edge demands |
| Outdoor.Coordinator.ReconcileEconoSuspend | internal/coordinator/outdoor.go:182-223 | a suspension sends econo off to the whole group, a restore econo on; no decision, no write |
| Outdoor.Coordinator.SetGroupEcono | internal/coordinator/outdoor.go:272-289 | writes the device and every other reachable member, and latches the group's econo if any write succeeded |
| Outdoor.Coordinator.EnforceMutualExclusive | internal/coordinator/outdoor.go:148-170 | turning econo on sends powerful off to the device and then to all its group and resets the suspend state, unless the first write is refused |
| Outdoor.ModeKeyNamesDevice | internal/coordinator/outdoor.go:125-130 | mode cache keys of different devices differ |
| GroupRuns.SyncSettles | internal/coordinator/outdoor.go:66-112 | after a fully successful sync no running member is in conflict, so a second sync writes nothing |
| GroupRuns.SyncTwice | internal/coordinator/outdoor.go:66-112 | of two syncs in a row whose writes all succeed the second writes nothing, and no conflict is left |
| GroupRuns.SuspendsExactly | internal/coordinator/outdoor.go:193-206 | econo is suspended exactly by an observed boost with econo on in a group last reset, last seen without a boost, or not seen before |
| GroupRuns.RestoresExactly | internal/coordinator/outdoor.go:207-213 | econo is restored exactly by an observation without a boost while a suspension is open |
| GroupRuns.PendingIsOpen | internal/coordinator/outdoor.go:193-213 | a restore is pending exactly while a suspension is open, and only while boosting |
| GroupRuns.RestoreFollowsSuspend | internal/coordinator/outdoor.go:193-223 | every restore follows a suspension with no restore or reset between |
| GroupRuns.SuspendsAlternate | internal/coordinator/outdoor.go:193-223 | a restore or reset lies between two suspensions |
| GroupRuns.ObservationIdempotent | internal/coordinator/outdoor.go:178-181 | repeating an observation decides nothing |
| Layout.ParseReadsBack | internal/layout/layout.go:120-143 | ParseStatus inverts slot and online status topics of clean segments |
| Layout.ParseIsRendered | internal/layout/layout.go:123-143 | whatever it accepts is the status topic of what it returns |
| Layout.TopicText | internal/layout/layout.go:120-258 | the topics of both layouts, spelled out |
| Layout.LegacyExact | internal/coordinator/legacy_sweep.go:105-129 | a topic is judged legacy exactly when it is an old topic of something this instance owns |
| Layout.CurrentNeverLegacy | internal/coordinator/legacy_sweep.go:112-117 | no topic of the current layout is ever judged legacy |
| Layout.OnlineNeverStale | internal/coordinator/legacy_sweep.go:94-99 | an online item is never judged stale |
| Layout.StaleExact | internal/coordinator/legacy_sweep.go:94-117 | a topic is judged stale exactly when it is an unpublished status item below a management point of an owned, cloud-served device with no other owner |
| StateStores.StateStore.Put | internal/web/state.go:51-70 | drops expired entries, evicts oldest first down to below the cap, and stores the new entry |
| StateStores.StateStore.FindOldest | internal/web/state.go:56-63 | the scan settles on an entry, one that expires first unless the empty key is present |
| StateStores.StateStore.Take | internal/web/state.go:75-87 | removes the entry and returns it unless it has expired |
| StateStores.Bounded | internal/web/state.go:16-19 | the table never holds more than 128 entries |
| StateStores.PutPrunes | internal/web/state.go:51-70 | after a put only the new entry and unexpired old ones are left |
| StateStores.TakeReturnsLatestPut | internal/web/state.go:72-87 | a take returns only the latest put of that state, once, and not after its expiry |
| StateStores.UntakenEntrySurvives | internal/web/state.go:48-70 | with a strictly increasing clock an unexpired, untaken entry survives 127 later puts |

## Left out

- MQTT, HTTP, JSON and file plumbing, logging, the OAuth exchange and the web UI: input, output and presentation.
- Time zones and daylight saving: the clock is linear, so shifts of the wall clock within a week are not modelled.
- A nil document, week or applier argument: `Resolve`, `At`, `NextChange` and `Replace` answer those with empty results or an error; the engine never holds one.
- `on_end`: stored and validated by the program, never acted on.
- The status sensors the engine publishes, discovery bundles and tombstones: their guarantees lie in libraries that are not part of this model.
- Fan, swing and preset vocabularies, configuration defaults, catalogue lookup, localisation and energy totals: finite tables and short loops.
- Collecting retained topics over a timed subscription and clearing them: only the verdict on each topic is modelled.
- The choice between the local module and the cloud, and the aggregation of a poll into one observation per group: both end in the writes and observations that are modelled.
- The optimistic hold of outdoor values and its expiry: presentation of values between write and confirmation.
- Concurrency is modelled as interleaving of the steps that run under one lock; the write queue is modelled without its consumer, which can only make room.
- Client.Backoff: does not model 64-bit overflow of the shifted base delay, which needs far more attempts than the configured few.
- Layout.ParseReadsBack: topics are "/"-joined levels; the validity rules of the topic library are not part of this model.
- Text.SearchStrings: written as a binary search of its own; the sorting of whole lists is insertion into a sorted list, where the program calls its library.
