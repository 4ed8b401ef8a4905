# Verification of n8n's execution resume, credential and synchronisation logic

A Dafny model of the parts of n8n (and of this repository's custom modules) that carry real invariants, with proofs
about all inputs, all runs and all interleavings. `dafny verify dfyconfig.toml` checks everything.

| file | what it models |
|---|---|
| `ResumeProtocol.dfy` | resuming a waiting execution: one database row, any number of instances, timers and finishing children |
| `ResumeRace.dfy` | that row together with the instances that race for it |
| `ActiveExecutions.dfy` | the executions active in a process, their post-execute promises and the capacity they hold |
| `ExecutionLife.dfy` | what each operation on them does, and the life of an execution that waits and is resumed |
| `ConcurrencyQueue.dfy` | the queue behind the concurrency limit |
| `WaitTracker.dfy` | polls, timers and leadership changes of the wait tracker |
| `CredentialTypes.dfy` | the ancestors of a credential type, collected by a loop over a growing list |
| `CredentialsOverwrites.dfy` | credential overwrites, their memo, and the properties the frontend is told about |
| `OverwriteOrder.dfy` | when the order in which overwrites are resolved makes a difference |
| `OwnEntries.dfy` | when an overwrite for one field changes another one |
| `StableStringify.dfy`, `TokenCache.dfy` | the canonical serialiser of the token credential, and the cache it keys |
| `JsonReader.dfy` | a reader of JSON text, which reads back what that serialiser prints |
| `PathParser.dfy`, `KeySearch.dfy` | token paths, and the depth-first search for a key in an object graph |
| `RoleMappingRules.dfy` | dense orders of role-mapping rules under a uniqueness constraint |
| `RoleMappingRuns.dfy` | which runs of operations on them stay dense |
| `CredentialRepair.dfy` | replacing invalid credentials with two caches |
| `UserSync.dfy` | diff and apply of a directory synchronisation |
| `UserSyncOrder.dfy` | when the order of its concurrent tasks decides its outcome |
| `ActivationRetry.dfy` | the activation retry queue and its delays |
| `Ranking.dfy` | finite graphs without cycles can be ranked |
| `Wrappers.dfy` | Option and Result |

## How it is modelled

Code that updates fields or loops is a class or a method, proved equal to a specification function of the old state
(named `...Outcome` where a method goes by the plain name); the properties are lemmas about those functions and about
runs of them. Asynchronous code is cut at every `await`: each stretch between two is one step, and a run is any sequence
of steps, so a statement about all runs is a statement about all interleavings. Ids, names and texts that are only
compared are numbers. Fields such as `origin`, `writer`, `seen`, `wins`, `failures` and `acquired` record history; what a
step does never depends on them. The queue's `granted` and `returned` record history as well, and together say whether
there is a slot to return.

## What does not hold as hoped

Each of these is stated by an if-and-only-if, or by a concrete input or run beside the theorem it limits.

- A resume guarded by the status `waiting` cannot tell two waiting episodes apart. A read of the row that is still in
  flight when the row enters waiting again, by a resume or by a finished child, can make the next winner start from an
  older save (`EpisodeSafeExactly`, `LateChildWriteLosesProgress`).
- Stopping an entry whose status is already `waiting` while its promise is still pending leaves that promise
  unsettled for good, and its capacity held (`OrphanedExactly`, `ReleasableUnlessOrphaned`; a run in
  `StopLosesCapacity`).
- Removing a waiting execution from the concurrency queue lets another one through without a slot having been returned
  (`LimitKeptExactly`).
- Entries left in the wait table by stepping down are never picked up again by a poll of this instance, until the
  execution is stopped or started from elsewhere (`StuckAcrossTerms`, `StuckUntilFreed`; a run in `SecondTermNeverResumes`).
- The table of role-mapping rules has a uniqueness constraint on kind and order
  (`packages/@n8n/db/src/entities/role-mapping-rule.ts:19`), so renumbering fails for orders in the parking window. Then
  `create` throws with the new row saved, `patch` with the changed row saved, and `remove` with the row already gone;
  only `move` is undone as a whole (`CreateExact`, `PatchExact`, `RemoveExact`, `MoveExact`). The service does not bound
  the orders a caller gives, so such tables are reachable (`DenseThroughoutExactly`, `ClashLeavesStrayOrder`,
  `RemoveThrowsAfterDeleting`).
- Two credentials with the same type and the same unknown id but different names are not repaired as each would be alone
  (`NodesRefineExactly`, `SecondNameIsLost`).
- A sync in which one user takes over an address that another one gives up commits in one order of its tasks and is
  rolled back in another (`DependsOnOrderExactly`, `HandoverDependsOnOrder`). When users exchange addresses in a cycle it
  commits in no order (`SomeOrderCommitsExactly`, `ExchangeNeverCommits`).
- A retry in flight while its workflow is queued again leaves two timers (`RunsKeepOneTimerExactly`,
  `OvertakenRetryDoubles`).
- With several parents that define the same field, overwrites resolve in two different ways: `get` prefers the first
  parent and `getOverwrites` the last. So an overwrite of the type's own for one field can change the value of another.
  This never happens to a type if and only if no type from it upwards has more than one parent
  (`OwnEntryIrrelevantExactly`, `OwnEntryFlipsParent`).
- What a type with such parents gets depends on the order in which `setPlainData` visits the types, as `getOverwrites`
  marks a parent as resolved without storing what it merged for it. A type that another one extends is safe from this if
  and only if no type from it upwards has more than one parent, and so is a type whatever else the catalogue holds
  (`ExtendedOrderFreeExactly`, `OrderFreeExactly`, `VisitOrderDecides`).
- An array whose only element is undefined shares its text with the empty array (`UndefinedElementCollides`); longer
  arrays do not collide in this way.
- The comment in `packages/cli/src/active-executions.ts:211-212` says a waiting execution has no valid post-execute
  promise; the code does not ensure that, and the model follows the code.

## Hypotheses

- Resuming: the conditional update of the row is one atomic step, and so is every other query.
- Token cache: the digest is collision-free; clocks do not run backwards; times are reals.
- Serialiser: a finite number prints as a sign or digit followed by number characters, and different numbers print
  differently.
- Credential types: the hierarchy is acyclic, stated as a ranking (`CredentialTypes.AcyclicExactly`), and what a loaded
  type extends agrees with what is known of it. For `OrderFreeExactly`, `ExtendedOrderFreeExactly` and
  `OwnEntryIrrelevantExactly`: the types from t upwards are recognised, and none of them lists a parent twice.
- Key search: no cycle runs through arrays alone, stated as a ranking (`KeySearch.RankedExactly`).
- Credential repair: the database does not change meanwhile, a record is found under its own id, and what is found by
  name is found by id.
- Directory: remote ids are distinct, a user has one identity, an identity belongs to a user, provider ids are not
  shared between kinds of identity, stored addresses are lower-case and unique, lower-casing twice is lower-casing once,
  new users get unused ids.

## Model

| member | source | states |
|---|---|---|
| `ResumeRace.OneAddPerEpisode` | `packages/cli/src/active-executions.ts:96-123` | With any number of instances, each with its own table and capacity, and any interleaving: at most one resuming `add` succeeds between two entries of the row into waiting, and every instance's ledger balances |
| `ResumeRace.RaceDecides` | `packages/cli/src/active-executions.ts:109-123` | The call that finds the row waiting gets an entry, and the row runs on the data its own reader read; every other one fails as already-resuming, gives its capacity back and changes neither the row's data nor any table |
| `ResumeRace.AskingIsReady` | `packages/cli/src/wait-tracker.ts:138-172` | In every run, each resuming call of this execution that asks for the row was made with the data of exactly one reader, which has not been used up: the call can be answered, and by its own read only |
| `ResumeRace.StepAgrees` | `packages/cli/src/active-executions.ts:109-118` | Every step of a cluster keeps the successful calls and the wins of the row in step, one for one; calls for other executions are not decided by this row |
| `ResumeRace.StepMatched` | `packages/cli/src/wait-tracker.ts:138-172` | Every step keeps each unanswered resuming call matched with the one read it carries |
| `ResumeRace.ResumeGoesThrough` | `packages/cli/src/active-executions.ts:96-138` | From any state with the row waiting, a read, the call of `add`, its capacity and its update make the row run on what it held, on any instance, with a new current entry and one more success |
| `ResumeProtocol.OneWinnerPerEpisode` | `packages/cli/src/active-executions.ts:96-123` | In every interleaving of any number of resume calls and finishing children, the wins are in strictly later episodes: at most one `add` succeeds between two entries of the row into waiting |
| `ResumeProtocol.WinnersDataTraceable` | `packages/cli/src/wait-tracker.ts:134-198` | In every interleaving, a winner starts from data the execution itself saved at some point, unchanged, or with a completed child's output as the input of the first frame and every other frame and everything else as saved |
| `ResumeProtocol.WinnerStartsFromSave` | `packages/cli/src/workflow-helpers.ts:347-379` | If no read of the row is in flight when it enters waiting, every winner of that episode starts from the data saved on entry: unchanged if no child wrote before it read, and otherwise with a completed child's output as the input of the first frame and nothing else changed |
| `ResumeProtocol.ResumeRunsOnSave` | `packages/cli/src/active-executions.ts:96-118` | A resume with nothing else going on wins: the row runs on exactly what was saved on entry |
| `ResumeProtocol.ChildOutputArrives` | `packages/cli/src/workflow-helpers.ts:347-379` | A child that finishes while the row waits hands its output to the first frame, leaves the other frames and the rest alone, and the next resume runs on that |
| `ResumeProtocol.OnlyWritersWrite` | `packages/cli/src/workflow-helpers.ts:356-378` | The row changes only by a save of the running execution, its end, a resume that finds it waiting, or a child's prepared write; and a child prepares only from a waiting row and with an output |
| `ResumeProtocol.SaveBecomesTheRow` | `packages/cli/src/wait-tracker.ts:134-160` | What the running execution saves is the row's data and numbers a new episode; one that does not run saves nothing |
| `ResumeProtocol.RefusedExactly` | `packages/cli/src/wait-tracker.ts:138-147` | A read is refused if and only if the execution has finished; otherwise it sees the row as it is |
| `ResumeProtocol.EpisodeSafeExactly` | `packages/cli/src/workflow-helpers.ts:375-378` | Every winner of an episode starts from that episode's save, whatever happens, if and only if no resume and no child had read the row earlier without finishing: neither the status guard nor the unguarded child write can tell episodes apart |
| `ResumeProtocol.StaleSnapshotWins` | `packages/cli/src/wait-tracker.ts:138-167` | A resume that read the row in an earlier episode and compares-and-sets in this one wins with the old data |
| `ResumeProtocol.LateWriteWins` | `packages/cli/src/workflow-helpers.ts:375-378` | A child that prepared its write in an earlier episode can make this episode's winner start from the old data |
| `ResumeProtocol.LateChildWriteLosesProgress` | `packages/cli/src/workflow-helpers.ts:354-378` | A concrete run in which the second resume repeats from the first save |
| `ActiveExecutions.LedgerBalances` | `packages/cli/src/active-executions.ts:68-156` | In every reachable state, reservations acquired = released + calls of `add` past `reserve` + post-execute promises whose cleanup has not run; the number of releases is the number of reservations released, so none is released twice |
| `ActiveExecutions.StepKeeps` | `packages/cli/src/active-executions.ts:193-242` | Each step of `add`, stop, finalize, status change, attach, cleanup and shutdown keeps the ledger and the links between calls, entries and table |
| `ActiveExecutions.LoserLeavesNoTrace` | `packages/cli/src/active-executions.ts:109-123` | A resuming call whose update matches no row fails as already-resuming, releases its reservation, and leaves every other call, the entries, the table and the response modes as they were |
| `ActiveExecutions.CleanupReleases` | `packages/cli/src/active-executions.ts:141-148` | The cleanup behind a settled promise releases exactly one reservation, the one of its own call |
| `ActiveExecutions.OrphanedExactly` | `packages/cli/src/active-executions.ts:193-220` | A step makes a pending promise impossible to settle if and only if it stops or shuts down its waiting (or, on a plain shutdown, new) entry, installs another entry for the id, or cleans up another settled entry of the id |
| `ActiveExecutions.ReleasableUnlessOrphaned` | `packages/cli/src/active-executions.ts:141-155` | Some continuation gives an entry's capacity back if and only if its promise is not orphaned |
| `ActiveExecutions.ReachableReleasable` | `packages/cli/src/active-executions.ts:141-155` | That equivalence for every entry of every state any interleaving can reach from the start |
| `ActiveExecutions.StopLosesCapacity` | `packages/cli/src/active-executions.ts:193-220` | A concrete run from the start: an execution is resumed, begins to wait and is stopped before its promise settles; its capacity is then held in every continuation |
| `ActiveExecutions.OrphanStaysHeld` | `packages/cli/src/active-executions.ts:210-214` | An orphaned entry keeps its capacity in every continuation |
| `ActiveExecutions.ShutdownIsARun` | `packages/cli/src/active-executions.ts:315-326` | The shutdown loop is a run of single-id steps, so everything proved of runs holds of it |
| `ExecutionLife.FinalizeReleases` | `packages/cli/src/active-executions.ts:141-156` | When the current execution of an id ends, its promise settles and the cleanup behind it gives exactly its capacity back, once, and forgets the id unless it waits; nothing else changes |
| `ExecutionLife.StopReleases` | `packages/cli/src/active-executions.ts:193-220` | The same for an execution that is stopped while it does not wait |
| `ExecutionLife.StopSettlesOrForgets` | `packages/cli/src/active-executions.ts:193-220` | A stop rejects the promise of an execution that does not wait and changes nothing else; a waiting one is forgotten and its promise left alone |
| `ExecutionLife.CurrentEntryChanges` | `packages/cli/src/active-executions.ts:167-176` | Finalizing, setting a status and the two attachments change that one field of the entry the table has for the id, and nothing else |
| `ExecutionLife.ResponseModeIsSet` | `packages/cli/src/active-executions.ts:298-300` | Setting a response mode changes that one entry of the response modes |
| `ExecutionLife.UnknownIdChangesNothing` | `packages/cli/src/active-executions.ts:193-240` | For an id without entry every one of these operations changes nothing |
| `ExecutionLife.NewExecutionBegins` | `packages/cli/src/active-executions.ts:71-138` | A new execution that is created and gets its capacity has a running entry of its own, current for the id; in queue mode without a further update |
| `ExecutionLife.NewExecutionBeginsInRegularMode` | `packages/cli/src/active-executions.ts:71-138` | The same in regular mode, after the row is set to running |
| `ExecutionLife.ResumedExecutionBegins` | `packages/cli/src/active-executions.ts:96-138` | The same for a resume that finds the row waiting; start time and response promise are those of the entry it replaces, if there is one |
| `ExecutionLife.FailedAddLeavesNoTrace` | `packages/cli/src/active-executions.ts:120-123` | A failure while creating the row, getting capacity or updating gives back what was reserved and touches no entry, table or other call |
| `ExecutionLife.ShutdownDeals` | `packages/cli/src/active-executions.ts:315-326` | After the loop, every id it went over has no entry or a rejected promise (cancelling), or no waiting or new entry (not cancelling); other ids keep their entries |
| `ExecutionLife.PlainShutdownSpares` | `packages/cli/src/active-executions.ts:315-326` | Without cancelling, exactly the waiting and new executions among the ids are dropped, and no promise or reservation is touched |
| `ExecutionLife.CancellingDropsWaiting` | `packages/cli/src/active-executions.ts:193-220` | With cancelling, the waiting executions among the ids are dropped |
| `ExecutionLife.WaitsAndResumes` | `packages/cli/src/active-executions.ts:126-156` | An execution that waits gives its capacity back and keeps its entry; resumed whenever later it has its old start time and response promise, and when it ends both reservations have come back and the id is gone |
| `ActiveExecutions.ActiveExecutions.AddBegins` | `packages/cli/src/active-executions.ts:62-70` | The part of `add` before its first `await`: a new call with an idle reservation |
| `ActiveExecutions.ActiveExecutions.AddCreated` | `packages/cli/src/active-executions.ts:87-90` | The row is created and capacity is asked for, or the call fails |
| `ActiveExecutions.ActiveExecutions.AddReserved` | `packages/cli/src/active-executions.ts:90-99` | Capacity is granted, or the call fails; in queue mode a new execution is installed at once |
| `ActiveExecutions.ActiveExecutions.AddUpdated` | `packages/cli/src/active-executions.ts:109-123` | The update decides between installing the entry, already-resuming and another failure |
| `ActiveExecutions.ActiveExecutions.Fail` | `packages/cli/src/active-executions.ts:120-123` | The catch path: the reservation is released, then the error goes on |
| `ActiveExecutions.ActiveExecutions.Install` | `packages/cli/src/active-executions.ts:126-138` | The new entry takes start time and response promise from the entry it replaces and becomes current for the id |
| `ActiveExecutions.ActiveExecutions.CleanUp` | `packages/cli/src/active-executions.ts:141-156` | The settle closure: releases, then keeps a waiting entry or forgets the id |
| `ActiveExecutions.ActiveExecutions.StopExecution` | `packages/cli/src/active-executions.ts:193-220` | A waiting entry is dropped, any other has its promise rejected |
| `ActiveExecutions.ActiveExecutions.FinalizeExecution` | `packages/cli/src/active-executions.ts:223-242` | The promise of the current entry settles; without one nothing happens |
| `ActiveExecutions.ActiveExecutions.SetStatus` | `packages/cli/src/active-executions.ts:290-292` | The status of the current entry, or not found |
| `ActiveExecutions.ActiveExecutions.Release` | `packages/cli/src/concurrency/concurrency-capacity-reservation.ts:30-36` | Releases a held reservation once; otherwise nothing happens |
| `ActiveExecutions.ActiveExecutions.AttachWorkflowExecution` | `packages/cli/src/active-executions.ts:167-169` | Attaches to the current entry, or not found |
| `ActiveExecutions.ActiveExecutions.AttachResponsePromise` | `packages/cli/src/active-executions.ts:171-176` | Replaces the response promise of the current entry, or not found |
| `ActiveExecutions.ActiveExecutions.Shutdown` | `packages/cli/src/active-executions.ts:307-326` | The synchronous part of shutdown, in the order of the ids listed |
| `ConcurrencyQueue.RunBalanced` | `packages/cli/src/concurrency/concurrency-queue.ts:22-56` | In every run, capacity + slots held + executions waiting = limit, and nobody waits while a slot is free |
| `ConcurrencyQueue.ExceedsExactly` | `packages/cli/src/concurrency/concurrency-queue.ts:45-56` | A step lets more through than the limit if and only if it removes a waiting execution while another one waits |
| `ConcurrencyQueue.LimitKeptExactly` | `packages/cli/src/concurrency/concurrency-queue.ts:45-56` | A whole run keeps to the limit if and only if it never does that |
| `ConcurrencyQueue.StoppingAWaiterStartsAnother` | `packages/cli/src/concurrency/concurrency-queue.ts:45-75` | With one slot: two wait, one is stopped, two run |
| `ConcurrencyQueue.FirstInFirstOut` | `packages/cli/src/concurrency/concurrency-queue.ts:22-75` | In every run without removals, executions are let through in the order in which they came |
| `ConcurrencyQueue.EnqueueJoins` | `packages/cli/src/concurrency/concurrency-queue.ts:22-33` | An execution is let through at once if and only if a slot is free; otherwise it waits at the end |
| `ConcurrencyQueue.DequeueServesFirst` | `packages/cli/src/concurrency/concurrency-queue.ts:39-43` | A returned slot goes to the one who has waited longest, or becomes free |
| `ConcurrencyQueue.RemoveTakesOneOut` | `packages/cli/src/concurrency/concurrency-queue.ts:45-56` | A removal takes out the first place of the execution and keeps the order of all others; an execution that does not wait is not removed |
| `ConcurrencyQueue.ConcurrencyQueue.Enqueue` | `packages/cli/src/concurrency/concurrency-queue.ts:22-33` | Lets the execution through or appends it to the queue |
| `ConcurrencyQueue.ConcurrencyQueue.Dequeue` | `packages/cli/src/concurrency/concurrency-queue.ts:39-43` | Returns a slot and lets the longest waiting execution through |
| `ConcurrencyQueue.ConcurrencyQueue.Remove` | `packages/cli/src/concurrency/concurrency-queue.ts:45-56` | Takes the first entry of that id out, and lets the next one through |
| `ConcurrencyQueue.ConcurrencyQueue.ResolveNext` | `packages/cli/src/concurrency/concurrency-queue.ts:65-75` | The longest waiting execution is taken off the queue and let through |
| `ConcurrencyQueue.ConcurrencyQueue.FindIndex` | `packages/cli/src/concurrency/concurrency-queue.ts:46` | The first position of the id, or the length |
| `WaitTracker.PollsNeverOverlap` | `packages/cli/src/wait-tracker.ts:64-70` | In every run, `isPolling` is set exactly while one poll is under way |
| `WaitTracker.PollLeavesTrackedAlone` | `packages/cli/src/wait-tracker.ts:88-119` | A poll keeps the entry of every tracked id and arms no timer for it |
| `WaitTracker.PollTracksItsRows` | `packages/cli/src/wait-tracker.ts:97-120` | Every row returned with a time is tracked afterwards, by a newly armed timer if it was not tracked |
| `WaitTracker.TrackedStaysAlive` | `packages/cli/src/wait-tracker.ts:97-132` | In a term of leadership that began with an empty table, every tracked id has a pending timer or a running `startExecution` that its timer launched |
| `WaitTracker.NoTimerFiresEarly` | `packages/cli/src/wait-tracker.ts:72-118` | No timer fires before the `waitTill` its poll read, on the database clock, unless that poll's approximation ran ahead of the clock |
| `WaitTracker.RunDueOk` | `packages/cli/src/wait-tracker.ts:110-118` | A timer is due early if and only if the approximated time was ahead when the timer was armed, before the wait was over |
| `WaitTracker.StepdownSticks` | `packages/cli/src/wait-tracker.ts:205-214` | Stepping down leaves stuck exactly the ids whose timer had not fired |
| `WaitTracker.StuckUntilFreed` | `packages/cli/src/wait-tracker.ts:199-214` | A stuck id stays stuck under every step except stopping the execution or the end of a start of it, which free it |
| `WaitTracker.StuckAcrossTerms` | `packages/cli/src/wait-tracker.ts:204-214` | In no later term does a poll arm a timer for an id left behind, until one of those happens |
| `WaitTracker.SecondTermNeverResumes` | `packages/cli/src/wait-tracker.ts:54-62` | A concrete run: poll, arm, step down, lead again, poll again long after the wait is over; no timer is armed and none fires, then or in any continuation that does not free the id |
| `WaitTracker.RowIsResumed` | `packages/cli/src/wait-tracker.ts:97-118` | A waiting execution that a poll finds is started by its timer once the time from the poll to the end of its wait has passed, and not before |
| `WaitTracker.FireExact` | `packages/cli/src/wait-tracker.ts:113-118` | A pending timer that is due starts its execution, exactly once, at that time; one that is not changes nothing |
| `WaitTracker.StoppedNeverFires` | `packages/cli/src/wait-tracker.ts:126-132` | A stopped execution is no longer tracked, and whatever happens afterwards the timer it had never fires |
| `WaitTracker.PollMakesRoom` | `packages/cli/src/wait-tracker.ts:64-70` | A poll that answers or fails lets the next one begin; one that fails changes nothing else; while one is under way no other begins |
| `WaitTracker.TakeoverPolls` | `packages/cli/src/wait-tracker.ts:54-62` | Taking over sets the interval and polls, unless a poll is still under way |
| `WaitTracker.StartsExact` | `packages/cli/src/wait-tracker.ts:193-201` | A start by a finished child runs at once; when a start ends, the entry of its execution goes and no timer changes |
| `WaitTracker.StepdownClears` | `packages/cli/src/wait-tracker.ts:205-214` | Stepping down clears exactly the pending timers that entries lead to, and keeps entries, starts and the poll under way |
| `WaitTracker.PollOutlivesStepdown` | `packages/cli/src/wait-tracker.ts:205-214` | A poll under way at stepping down still arms its timers |
| `WaitTracker.WaitTracker.BeginTracking` | `packages/cli/src/wait-tracker.ts:54-62` | Sets the interval and polls at once |
| `WaitTracker.WaitTracker.GetWaitingExecutions` | `packages/cli/src/wait-tracker.ts:64-75` | Starts a poll unless one is under way |
| `WaitTracker.WaitTracker.GotWaitingExecutions` | `packages/cli/src/wait-tracker.ts:84-124` | Filters the untracked rows and arms a timer for each that has a time; also clears the flag when the query fails |
| `WaitTracker.WaitTracker.StopExecution` | `packages/cli/src/wait-tracker.ts:126-132` | Clears the timer and drops the entry |
| `WaitTracker.WaitTracker.TimerFires` | `packages/cli/src/wait-tracker.ts:113-118` | A due timer launches `startExecution` |
| `WaitTracker.WaitTracker.StartExecution` | `packages/cli/src/wait-tracker.ts:193-198` | A finished child starts its parent, without a timer |
| `WaitTracker.WaitTracker.StartExecutionEnds` | `packages/cli/src/wait-tracker.ts:199-201` | Drops the entry without clearing its timer |
| `WaitTracker.WaitTracker.EndTracking` | `packages/cli/src/wait-tracker.ts:205-214` | Clears the timers of all entries and keeps the entries |
| `CredentialTypes.GetParentTypes` | `packages/cli/src/credential-types.ts:26-38` | The loop over the list it appends to ends on every acyclic hierarchy, with the list built level by level; each level has lower ranks than the one before |
| `CredentialTypes.ParentTypesExact` | `packages/cli/src/credential-types.ts:26-38` | The elements are exactly the strict ancestors, with any number of parents |
| `CredentialTypes.AcyclicExactly` | `packages/cli/src/credential-types.ts:26-38` | When finitely many types extend others, there is a ranking that falls from child to parent if and only if no type is its own ancestor |
| `CredentialTypes.ChainAboveExact` | `packages/cli/src/credential-types.ts:26-38` | A type has a single line of ancestors if and only if none of its ancestors, nor itself, has more than one parent |
| `CredentialTypes.NearestFirst` | `packages/cli/src/credential-types.ts:31-37` | On a chain the list begins with the ancestors, nearest first, each once; the rest are repetitions |
| `CredentialTypes.ParentsOfChild` | `packages/cli/src/credential-types.ts:31-37` | With one parent, the list is the parent, the parent's whole list, and repetitions of it |
| `CredentialTypes.GrowingListLaw` | `packages/cli/src/credential-types.ts:31-37` | With any number of parents the list is the parents followed by the lists of all its own elements in turn |
| `CredentialTypes.ListOfElement` | `packages/cli/src/credential-types.ts:35-37` | The list of each element stands right after those of the elements before it |
| `Overwrites.NearestWins` | `packages/cli/src/credentials-overwrites.ts:102-115` | Where no type from t upwards has more than one parent, whatever the rest of the hierarchy, `get` gives t the value of the nearest ancestor-or-self that has the field in the data as supplied, in any visiting order and after any number of passes of `setPlainData` over its own output |
| `Overwrites.GetOverwritesSound` | `packages/cli/src/credentials-overwrites.ts:177-207` | Whatever `getOverwrites` returns, from the memo or not, consists of nearest values and misses none of the type's own |
| `Overwrites.VisitAllSound` | `packages/cli/src/credentials-overwrites.ts:108-114` | Storing those results keeps every stored value the nearest one and loses nothing supplied |
| `Overwrites.EffectiveIsNearest` | `packages/cli/src/credentials-overwrites.ts:209-216` | `get` over any data with that property resolves to the nearest value |
| `Overwrites.MergeFirstWins` | `packages/cli/src/credentials-overwrites.ts:211-215` | In the reversed merge the earliest type of the list that has a field decides |
| `Overwrites.EffectiveDomain` | `packages/cli/src/credentials-overwrites.ts:209-216` | The fields `get` returns are those that the type or some ancestor has an overwrite for |
| `OwnEntries.OwnEntryIrrelevantExactly` | `packages/cli/src/credentials-overwrites.ts:190-216` | In any catalogue: giving a type an overwrite of its own for other fields never changes what it gets for a field, for any data and any visiting orders, if and only if no type from it upwards has more than one parent |
| `Overwrites.OwnEntryFlipsParent` | `packages/cli/src/credentials-overwrites.ts:190-216` | The concrete case of a type with two parents that both define the field: without an entry it gets the value of the first, with an unrelated entry that of the second |
| `OverwriteOrder.OrderFreeExactly` | `packages/cli/src/credentials-overwrites.ts:102-115` | What a type gets never depends on the order in which `setPlainData` visits the types, for any data and whatever other types the catalogue holds, if and only if no type from it upwards has more than one parent |
| `OverwriteOrder.ExtendedOrderFreeExactly` | `packages/cli/src/credentials-overwrites.ts:102-115` | In one and the same catalogue, for every type that another recognised type extends: what it gets never depends on the visiting order if and only if no type from it upwards has more than one parent |
| `OverwriteOrder.LoneForkIsOrderFree` | `packages/cli/src/credentials-overwrites.ts:177-207` | Where a type alone extends anything, the order does not matter for it, however many parents it has: the other types of the catalogue count |
| `OverwriteOrder.ChildOfForkDecides` | `packages/cli/src/credentials-overwrites.ts:177-207` | In any catalogue: when the line of a type forks and a visit to some type elsewhere, such as another child of the fork, resolves the fork, then visiting the fork first gives the type the value of the fork's last parent, and visiting the other type first gives it the value of the first parent |
| `OverwriteOrder.SharedParentDecides` | `packages/cli/src/credentials-overwrites.ts:177-207` | In any hierarchy where a parent of t has another child: visited first, t gets the value that parent inherits; visited after the other child it gets nothing from that parent, which is resolved and has no entry |
| `OverwriteOrder.VisitOrderDecides` | `packages/cli/src/credentials-overwrites.ts:102-115` | Such a hierarchy with five types, where two visiting orders give the values 2 and 1 |
| `Overwrites.ApplyIsIdempotent` | `packages/cli/src/credentials-overwrites.ts:139-175` | A second application changes nothing, for ordinary and skip-listed types |
| `Overwrites.ApplyFillsBlanksOnly` | `packages/cli/src/credentials-overwrites.ts:165-172` | A non-empty stored field never changes; whatever changes takes the overwrite; every blank field of an ordinary type is filled |
| `Overwrites.SkipListedAllOrNothing` | `packages/cli/src/credentials-overwrites.ts:146-163` | On a skip-listed type one customised field protects the whole credential; otherwise every overwrite holds afterwards |
| `Overwrites.ApplyExact` | `packages/cli/src/credentials-overwrites.ts:139-175` | Field by field: a field takes its overwrite if and only if it has one and is missing, null or empty, and the type is not skip-listed with a field the user has set to something else; every other field stays |
| `Overwrites.CredentialsOverwrites.GetOverwrites` | `packages/cli/src/credentials-overwrites.ts:177-207` | The memo, the unknown type, the type without parents and the merge over the parents |
| `Overwrites.CredentialsOverwrites.SetPlainData` | `packages/cli/src/credentials-overwrites.ts:102-115` | Resets the memo and stores each non-empty result |
| `Overwrites.CredentialsOverwrites.Get` | `packages/cli/src/credentials-overwrites.ts:209-216` | Merges over the type and the list of its ancestors |
| `Overwrites.CredentialsOverwrites.ApplyOverwrite` | `packages/cli/src/credentials-overwrites.ts:139-175` | Skip-list check and filling of blank fields |
| `Overwrites.FillBlanks` | `packages/cli/src/credentials-overwrites.ts:165-172` | The loop over the overwrite keys, in any order |
| `Overwrites.OverwrittenProperties` | `packages/U_CustomizeModule/frontend-overrides/frontend.service.ts:666-682` | The advertised list: each field of `get`, once, and no list when there is none |
| `Overwrites.OverwriteCredentialsProperties` | `packages/U_CustomizeModule/frontend-overrides/frontend.service.ts:658-690` | Every credential is told exactly the domain of `get`, whatever it was told before, on any acyclic hierarchy |
| `Overwrites.AdvertisedIsFillable` | `packages/U_CustomizeModule/frontend-overrides/frontend.service.ts:668-682` | The advertised fields are exactly those an empty credential receives, and no other field of any credential ever changes |
| `StableStringify.StableIsCanonical` | `packages/nodes-base/credentials/HttpTokenRefreshApi.credentials.ts:36-51` | Two values get the same text if and only if they are equal as JSON values, with the one exception made explicit in the equality |
| `StableStringify.SelfDelimiting` | `packages/nodes-base/credentials/HttpTokenRefreshApi.credentials.ts:36-51` | At every nesting depth a printed value ends where it says it does and determines the value |
| `StableStringify.QuoteSelfDelimiting` | `packages/nodes-base/credentials/HttpTokenRefreshApi.credentials.ts:38-47` | String literals are self-delimiting and injective, with the escapes of section 7 of RFC 8259 |
| `StableStringify.SamePrintsAlike` | `packages/nodes-base/credentials/HttpTokenRefreshApi.credentials.ts:36-51` | Equal values print alike |
| `StableStringify.InsertionOrderIgnored` | `packages/nodes-base/credentials/HttpTokenRefreshApi.credentials.ts:43-47` | The order of insertion of members does not matter |
| `StableStringify.SortSorts` | `packages/nodes-base/credentials/HttpTokenRefreshApi.credentials.ts:43` | Sorting keeps the entries and makes the keys ascend by code units |
| `StableStringify.AscendingUnique` | `packages/nodes-base/credentials/HttpTokenRefreshApi.credentials.ts:43` | Two ascending lists of the same entries are the same list |
| `StableStringify.UndefinedElementCollides` | `packages/nodes-base/credentials/HttpTokenRefreshApi.credentials.ts:41` | An array of one undefined element prints as the empty array |
| `StableStringify.LessExact` | `packages/nodes-base/credentials/HttpTokenRefreshApi.credentials.ts:43` | Keys are compared by their first differing code unit, a prefix coming first |
| `StableStringify.QuotePaired` | `packages/nodes-base/credentials/HttpTokenRefreshApi.credentials.ts:38` | A printed string literal never holds half of a surrogate pair |
| `JsonReader.StableReadBack` | `packages/nodes-base/credentials/HttpTokenRefreshApi.credentials.ts:36-51` | A reader of JSON text reads every printed value back as the same JSON value, with the members of each object in ascending order, and with nothing left over |
| `JsonReader.ValueReadBack` | `packages/nodes-base/credentials/HttpTokenRefreshApi.credentials.ts:36-51` | The same with any text behind it that can follow a value |
| `JsonReader.QuoteReadBack` | `packages/nodes-base/credentials/HttpTokenRefreshApi.credentials.ts:38` | Every string is read back from its literal, escape by escape (section 7 of RFC 8259) |
| `TokenCache.SameTextWhenAgree` | `packages/nodes-base/credentials/HttpTokenRefreshApi.credentials.ts:53-69` | Two configurations are hashed from the same text if and only if they agree in every relevant field |
| `TokenCache.ReuseExact` | `packages/nodes-base/credentials/HttpTokenRefreshApi.credentials.ts:339-350` | The cached token is reused if and only if caching is on and the token was fetched for an agreeing configuration and has not expired |
| `TokenCache.TokensAreFresh` | `packages/nodes-base/credentials/HttpTokenRefreshApi.credentials.ts:328-465` | Over any run with persisted or lost results, non-decreasing time and arbitrary edits: a returned token was fetched now, or earlier under an agreeing configuration less than that fetch's time-to-live ago; with time-to-live 0 every call fetches |
| `TokenCache.ReusedWhileGood` | `packages/nodes-base/credentials/HttpTokenRefreshApi.credentials.ts:328-350` | A fetched token is returned again if and only if the configuration still agrees and the time-to-live of that fetch has not passed: 30 minutes unless set, the minutes that are set if positive, never otherwise |
| `TokenCache.RunKeepsInvariant` | `packages/nodes-base/credentials/HttpTokenRefreshApi.credentials.ts:456-464` | Stored token, hash and expiry always come from one and the same fetch |
| `TokenCache.BodyObject` | `packages/nodes-base/credentials/HttpTokenRefreshApi.credentials.ts:382-391` | The last parameter of a name wins, secrets over visible ones; nameless ones are skipped |
| `TokenCache.BodyHoldsLast` | `packages/nodes-base/credentials/HttpTokenRefreshApi.credentials.ts:382-391` | The body has exactly the names given, each with the value of the last parameter of that name, a missing value counting as empty |
| `PathParser.ParsePath` | `packages/nodes-base/credentials/HttpTokenApi.credentials.ts:15-25` | The matching loop yields the segments of the trimmed path |
| `PathParser.RoundTrip` | `packages/nodes-base/credentials/HttpTokenApi.credentials.ts:15-25` | Parsing inverts the dotted and bracketed rendering if and only if every key is non-empty and free of delimiters and the rendering has no white space at its ends |
| `PathParser.RoundTripOfTrimmedKeys` | `packages/nodes-base/credentials/HttpTokenApi.credentials.ts:15-25` | In particular for keys without surrounding white space |
| `PathParser.ScanRender` | `packages/nodes-base/credentials/HttpTokenApi.credentials.ts:18-23` | Matching a rendering yields its segments, whatever precedes the first key |
| `PathParser.DecimalOfNumeral` | `packages/nodes-base/credentials/HttpTokenApi.credentials.ts:22` | Reading a printed index gives it back |
| `PathParser.TrimIs` | `packages/nodes-base/credentials/HttpTokenApi.credentials.ts:16-20` | Trimming takes white space off both ends, and leaves none there |
| `PathParser.SpaceSamples` | `packages/nodes-base/credentials/HttpTokenApi.credentials.ts:16` | What counts as white space, by examples on both sides |
| `PathParser.ScanDigits` | `packages/nodes-base/credentials/HttpTokenApi.credentials.ts:18-22` | Any run of digits in brackets is an index |
| `PathParser.LeadingZero` | `packages/nodes-base/credentials/HttpTokenApi.credentials.ts:22` | Leading zeros of an index do not count |
| `PathParser.ScanUnclosed` | `packages/nodes-base/credentials/HttpTokenApi.credentials.ts:18-21` | An index that is not closed is a key |
| `PathParser.ScanSkips` | `packages/nodes-base/credentials/HttpTokenApi.credentials.ts:18-20` | A delimiter that opens no index is skipped |
| `KeySearch.GetByPath` | `packages/nodes-base/credentials/HttpTokenApi.credentials.ts:27-41` | The cursor loop is the walk along the parsed segments |
| `KeySearch.GetByRenderedPath` | `packages/nodes-base/credentials/HttpTokenApi.credentials.ts:27-41` | On a rendering it is the direct walk along the segments |
| `KeySearch.WalkInParts` | `packages/nodes-base/credentials/HttpTokenApi.credentials.ts:27-41` | A walk along two parts is the walk of the second from where the first ends |
| `KeySearch.IndexByName` | `packages/nodes-base/credentials/HttpTokenApi.credentials.ts:29-39` | An array element is reached by its bracketed index and by its decimal name alike |
| `KeySearch.KeyStepExact` | `packages/nodes-base/credentials/HttpTokenApi.credentials.ts:32-35` | A key leads from an object to its own property of that name, failing that to an inherited one, failing that to undefined |
| `KeySearch.IndexStepExact` | `packages/nodes-base/credentials/HttpTokenApi.credentials.ts:36-38` | An index leads to the element at that place of an array that has one, and from anything else to undefined |
| `KeySearch.ArrayKeyExact` | `packages/nodes-base/credentials/HttpTokenApi.credentials.ts:32-35` | A key that is no index is looked up among the other properties of an array |
| `KeySearch.NothingInScalars` | `packages/nodes-base/credentials/HttpTokenApi.credentials.ts:30-31` | A path with any segment leads from a value that is no object to undefined |
| `KeySearch.PathReachesHeld` | `packages/nodes-base/credentials/HttpTokenApi.credentials.ts:27-41` | For a plain key, the path and the search agree on what an object holds |
| `KeySearch.FindFirstKey` | `packages/nodes-base/credentials/HttpTokenApi.credentials.ts:43-70` | The recursive search with the shared visited set, on any object graph whose cycles pass through an object |
| `KeySearch.FindInValues` | `packages/nodes-base/credentials/HttpTokenApi.credentials.ts:51-56` | The loop over items and over own values |
| `KeySearch.RankedExactly` | `packages/nodes-base/credentials/HttpTokenApi.credentials.ts:43-70` | A heap has a ranking that falls from each array to the arrays directly inside it if and only if no cycle runs through arrays alone |
| `KeySearch.FindFirstExact` | `packages/nodes-base/credentials/HttpTokenApi.credentials.ts:43-70` | It yields nothing if and only if the key is blank or no reachable object has it as an own property with a value; otherwise it yields such a value |
| `KeySearch.HoldsExact` | `packages/nodes-base/credentials/HttpTokenApi.credentials.ts:61-64` | An object holds a key if and only if its own property of that name is neither null nor undefined |
| `KeySearch.ChildrenExact` | `packages/nodes-base/credentials/HttpTokenApi.credentials.ts:51-67` | The search goes into the elements of an array and the values of an object's own properties, in order |
| `KeySearch.RankIrrelevant` | `packages/nodes-base/credentials/HttpTokenApi.credentials.ts:43-70` | The result does not depend on the ranking that shows termination |
| `KeySearch.VisitedSetInvisible` | `packages/nodes-base/credentials/HttpTokenApi.credentials.ts:59-60` | On every graph without cycles it equals the pre-order search that remembers nothing |
| `KeySearch.PlainIsPreOrder` | `packages/nodes-base/credentials/HttpTokenApi.credentials.ts:51-68` | That search prefers what the object holds itself, then what is found under its earliest child, and is undefined if and only if neither is |
| `RoleMappingRules.IntermediateOrdersDistinct` | `packages/U_CustomizeModule/provisioning/role-mapping-rule.service.ts:190-197` | The uniqueness constraint holds after every single update of both phases if and only if no row sits where an earlier row of the sequence is parked |
| `RoleMappingRules.WriteOrderExact` | `packages/U_CustomizeModule/provisioning/role-mapping-rule.service.ts:190-197` | Renumbering succeeds exactly then, leaving the kind at 0..n-1 in the given sequence; otherwise it changes nothing |
| `RoleMappingRules.LowOrdersNeverClash` | `packages/U_CustomizeModule/provisioning/role-mapping-rule.service.ts:190-197` | Orders below n + 1000 on entry are enough, for every permutation |
| `RoleMappingRules.BoundIsTight` | `packages/U_CustomizeModule/provisioning/role-mapping-rule.service.ts:193` | An order equal to n + 1000 makes it fail |
| `RoleMappingRules.ReindexExact` | `packages/U_CustomizeModule/provisioning/role-mapping-rule.service.ts:184-188` | Reindexing keeps the sequence and makes it dense, exactly when the parking area is clear |
| `RoleMappingRules.CreateExact` | `packages/U_CustomizeModule/provisioning/role-mapping-rule.service.ts:64-83` | On any table: rejected by a check, `create` changes nothing; otherwise the rule is saved, and its kind is then renumbered in ascending order if and only if the parking area is clear. If it is not, `create` throws and the saved row stays. The other rules keep their sequence either way |
| `RoleMappingRules.CreateChecksExact` | `packages/U_CustomizeModule/provisioning/role-mapping-rule.service.ts:64-78` | `create` accepts a rule if and only if its role fits its kind, its projects do and exist, and its order is free, and saves it as given; which error comes when |
| `RoleMappingRules.PatchExact` | `packages/U_CustomizeModule/provisioning/role-mapping-rule.service.ts:85-120` | On any table: rejected by a check, `patch` changes nothing; otherwise it succeeds if and only if the parking area is clear for the kind the rule goes to and for the kind it leaves, and makes both dense. If the first is not, only the changed row is saved; if only the second is not, the first kind is dense and the second keeps its gap. The other rules keep their sequence |
| `RoleMappingRules.PatchChecksExact` | `packages/U_CustomizeModule/provisioning/role-mapping-rule.service.ts:85-113` | `patch` keeps what is not given, drops the projects of an instance rule, and accepts the result under the same conditions; which error comes when |
| `RoleMappingRules.RemoveExact` | `packages/U_CustomizeModule/provisioning/role-mapping-rule.service.ts:122-129` | On any table: the rule is gone once it is found; the rest of the kind is renumbered if and only if the parking area is clear, and otherwise `remove` throws with the rule already gone and nothing renumbered |
| `RoleMappingRules.MoveExact` | `packages/U_CustomizeModule/provisioning/role-mapping-rule.service.ts:131-150` | On any table: the rule is taken out of the ascending sequence and put back, at min(target, n-1) for a target that is not negative; this succeeds if and only if the parking area is clear for the new sequence, and otherwise nothing changes |
| `RoleMappingRuns.StepDenseExactly` | `packages/U_CustomizeModule/provisioning/role-mapping-rule.service.ts:64-150` | One operation on a dense table leaves a dense table if and only if it is not an accepted `create` or `patch` whose order lies in the parking window; rejected otherwise it changes nothing |
| `RoleMappingRuns.DenseThroughoutExactly` | `packages/U_CustomizeModule/provisioning/role-mapping-rule.service.ts:64-150` | From the empty table, every table of a run is dense if and only if no accepted `create` or `patch` of the run gives an order in the parking window |
| `RoleMappingRuns.ModestRunsStayDense` | `packages/U_CustomizeModule/provisioning/role-mapping-rule.service.ts:64-150` | In particular every run in which no caller gives an order above 1000 stays dense |
| `RoleMappingRuns.ClashLeavesStrayOrder` | `packages/U_CustomizeModule/provisioning/role-mapping-rule.service.ts:64-83` | From orders 0, 1, 2, creating a rule at 1004 throws and leaves it there |
| `RoleMappingRuns.RemoveThrowsAfterDeleting` | `packages/U_CustomizeModule/provisioning/role-mapping-rule.service.ts:122-129` | On that table, removing the first rule throws with the rule gone |
| `RoleMappingRules.CustomRoleMappingRuleService.WriteOrder` | `packages/U_CustomizeModule/provisioning/role-mapping-rule.service.ts:190-197` | The two loops in one transaction, rolled back on a violation |
| `RoleMappingRules.CustomRoleMappingRuleService.Reindex` | `packages/U_CustomizeModule/provisioning/role-mapping-rule.service.ts:184-188` | Writes only when some order is not its position |
| `RoleMappingRules.CustomRoleMappingRuleService.Find` | `packages/U_CustomizeModule/provisioning/role-mapping-rule.service.ts:185` | The ids of a kind in ascending order |
| `RoleMappingRules.CustomRoleMappingRuleService.Create` | `packages/U_CustomizeModule/provisioning/role-mapping-rule.service.ts:64-83` | Checks in order, save, reindex |
| `RoleMappingRules.CustomRoleMappingRuleService.Patch` | `packages/U_CustomizeModule/provisioning/role-mapping-rule.service.ts:85-120` | Checks in order, save, reindex of the new and then of the old kind |
| `RoleMappingRules.CustomRoleMappingRuleService.Remove` | `packages/U_CustomizeModule/provisioning/role-mapping-rule.service.ts:122-129` | Checks, remove, reindex |
| `RoleMappingRules.CustomRoleMappingRuleService.Move` | `packages/U_CustomizeModule/provisioning/role-mapping-rule.service.ts:131-150` | The two splices, then the renumbering |
| `CredentialRepair.ReplaceInvalidCredentials` | `packages/cli/src/workflow-helpers.ts:168-284` | The loop over the nodes with both caches; disabled nodes and nodes without credentials are left alone |
| `CredentialRepair.RepairNode` | `packages/cli/src/workflow-helpers.ts:186-281` | The inner loop, updating both caches and the node |
| `CredentialRepair.OccurrencesRepaired` | `packages/cli/src/workflow-helpers.ts:182-189` | Repairing the nodes is repairing the list of their credentials in order |
| `CredentialRepair.RepairIsExact` | `packages/cli/src/workflow-helpers.ts:197-279` | What the caches answer for every credential: the plain lookup, except that an unknown id gets the details of the first credential that failed under it, and an old-style name seen before is written as a null id |
| `CredentialRepair.ResolveExact` | `packages/cli/src/workflow-helpers.ts:197-279` | What a credential is replaced by on its own: the record with its id, or else the only record of its name; everything that finds nothing, is missing or managed elsewhere stays |
| `CredentialRepair.RefinesExactly` | `packages/cli/src/workflow-helpers.ts:231-279` | The repair equals the cache-free lookup of every credential, up to writing unresolved old-style credentials, if and only if no two credentials share a type and an unknown id under different names, the first with a name that is not unique |
| `CredentialRepair.NodesRefineExactly` | `packages/cli/src/workflow-helpers.ts:168-284` | The same for whole workflows, about the credentials of their nodes before and after |
| `CredentialRepair.SecondNameIsLost` | `packages/cli/src/workflow-helpers.ts:231-279` | Two nodes refer to one unknown id under two names: the second node is given the name of the first, where the lookup on its own would leave it alone |
| `CredentialRepair.RepairIsIdempotent` | `packages/cli/src/workflow-helpers.ts:168-284` | A second repair of a list of credentials changes nothing more, under the same normalisation |
| `CredentialRepair.SecondRepairKeepsNodes` | `packages/cli/src/workflow-helpers.ts:168-284` | The same for whole workflows |
| `CredentialRepair.RepairKeepsShape` | `packages/cli/src/workflow-helpers.ts:182-189` | Skipped nodes stay as they are, and every other node keeps its credential types |
| `UserSync.Converges` | `packages/U_CustomizeModule/ldap/ldap.service.ts:525-555` | Any two complete interleavings of the concurrent tasks leave the same database |
| `UserSync.SyncsConverge` | `packages/U_CustomizeModule/ldap/ldap.service.ts:294-322` | The tasks of the three differences satisfy what convergence needs |
| `UserSync.CommitsExactly` | `packages/U_CustomizeModule/ldap/ldap.service.ts:531-553` | No interleaving is rolled back if and only if no task claims an address that another user has or another task claims |
| `UserSyncOrder.SomeOrderCommitsExactly` | `packages/U_CustomizeModule/ldap/ldap.service.ts:531-553` | Some interleaving commits if and only if no two tasks claim one address, no task claims an address its owner keeps, and the takeovers of addresses form no cycle |
| `UserSyncOrder.DependsOnOrderExactly` | `packages/U_CustomizeModule/ldap/ldap.service.ts:531-553` | The database a sync leaves depends on the order of its tasks if and only if that holds and there is a takeover at all |
| `UserSyncOrder.HandoverDependsOnOrder` | `packages/U_CustomizeModule/ldap/ldap.service.ts:531-553` | A concrete handover, user 1 taking the address that user 2 gives up for a third one, depends on the order |
| `UserSyncOrder.ExchangeNeverCommits` | `packages/U_CustomizeModule/ldap/ldap.service.ts:531-553` | A concrete exchange of two addresses commits under no interleaving |
| `UserSync.PlanIs` | `packages/U_CustomizeModule/ldap/ldap.service.ts:435-450` | Creates, updates and disables: new with a valid address, known with a valid address, known but gone; no id twice |
| `UserSync.IdentitiesExact` | `packages/U_CustomizeModule/ldap/ldap.service.ts:301-322` | Afterwards the directory identities are exactly the remote ids already known or with a valid address |
| `UserSync.DepartedAreDisabled` | `packages/U_CustomizeModule/ldap/ldap.service.ts:546-552` | Each departed user is disabled and otherwise unchanged |
| `UserSync.PresentAreCurrent` | `packages/U_CustomizeModule/ldap/ldap.service.ts:533-545` | After a sync the row of every remote entry with a valid address has the entry's names and its address in lower case, belongs to the user it belonged to or a new one, is not disabled if new and as enabled as before if not |
| `UserSync.OthersUntouched` | `packages/U_CustomizeModule/ldap/ldap.service.ts:525-555` | A user without directory identity, or whose entry is present without a valid address, stays as it is |
| `UserSync.RolledBackLeavesAll` | `packages/U_CustomizeModule/ldap/ldap.service.ts:530-531` | A sync that is rolled back leaves the database as it was |
| `UserSync.SecondSyncIsIdle` | `packages/U_CustomizeModule/ldap/ldap.service.ts:281-339` | A second sync with the same directory changes nothing, in any interleaving and at any point |
| `ActivationRetry.DelaysAlwaysOk` | `packages/cli/src/active-workflow-manager.ts:881-903` | In every run, overlapping retries included, an entry's timer waits min(1000 * 2^k, 86400000) after k failures that were not isolate errors |
| `ActivationRetry.BackoffShape` | `packages/cli/src/constants.ts:85-86` | That delay never shrinks, starts at a second and is a day exactly from k = 17 on |
| `ActivationRetry.EventsKeepTidy` | `packages/cli/src/active-workflow-manager.ts:869-931` | With each retry one event, every pending timer is the one its workflow's entry names, so no workflow has two |
| `ActivationRetry.AtMostOneTimer` | `packages/cli/src/active-workflow-manager.ts:911-920` | Two pending timers of one workflow are the same timer |
| `ActivationRetry.TidyExactly` | `packages/cli/src/active-workflow-manager.ts:884-903` | Without that assumption, a second timer appears exactly when a retry fails whose workflow was queued again meanwhile |
| `ActivationRetry.RunsKeepOneTimerExactly` | `packages/cli/src/active-workflow-manager.ts:869-931` | From the empty queue, no workflow has two retry timers at any point of a run if and only if no retry of the run fails after its workflow was queued again |
| `ActivationRetry.OvertakenRetryDoubles` | `packages/cli/src/active-workflow-manager.ts:884-921` | Such a run, with both timers pending |
| `ActivationRetry.RetryOutcomes` | `packages/cli/src/active-workflow-manager.ts:723-733` | Success, and failure after the entry was removed, end the retrying; a skipped activation leaves an entry without a timer; any other failure arms a new timer, with the delay doubled up to a day unless it was an isolate error |
| `ActivationRetry.DelayAfterFailures` | `packages/cli/src/active-workflow-manager.ts:881-921` | A workflow whose retry fails k times in a row then waits 1000 * 2^k milliseconds, a day at most |
| `ActivationRetry.EnqueueStartsOver` | `packages/cli/src/active-workflow-manager.ts:911-921` | Queueing leaves an entry with a delay of a second and one pending timer for the workflow |
| `ActivationRetry.RemoveClearsTimer` | `packages/cli/src/active-workflow-manager.ts:926-931` | Removing clears the pending timer of the workflow and no other |
| `ActivationRetry.RemoveAllClearsTimers` | `packages/cli/src/active-workflow-manager.ts:936-940` | Removing all leaves no entry and no pending timer |
| `ActivationRetry.FireStartsRetry` | `packages/cli/src/active-workflow-manager.ts:876-882` | A pending timer starts a retry of its workflow, once |
| `ActivationRetry.ActiveWorkflowManager.AddQueuedWorkflowActivation` | `packages/cli/src/active-workflow-manager.ts:911-921` | Removes an older entry with its timer, then queues with the initial delay |
| `ActivationRetry.ActiveWorkflowManager.RemoveQueuedWorkflowActivation` | `packages/cli/src/active-workflow-manager.ts:926-931` | Clears the timer and drops the entry |
| `ActivationRetry.ActiveWorkflowManager.RemoveAllQueuedWorkflowActivations` | `packages/cli/src/active-workflow-manager.ts:936-940` | Empties the queue, clearing exactly the timers of its entries |
| `ActivationRetry.ActiveWorkflowManager.TimerFires` | `packages/cli/src/active-workflow-manager.ts:876-882` | A pending timer starts one retry |
| `ActivationRetry.ActiveWorkflowManager.RetryActivates` | `packages/cli/src/active-workflow-manager.ts:723-724` | A successful activation takes the workflow off the queue before `add` is done |
| `ActivationRetry.ActiveWorkflowManager.RetryFinishes` | `packages/cli/src/active-workflow-manager.ts:883-904` | The catch path of the retry function, on whichever entry is current |

## Left out

- HTTP, LDAP and database input and output, encryption, hashing and event, telemetry and log output: results of calls
  are parameters of the steps.
- `ConcurrencyControlService`: which modes are limited, and that shutting down first disables it, which makes
  `removeAll` return at once; the queue itself is modelled.
- Response promises and streaming responses beyond the entry that holds them; `resolveResponsePromise` and `sendChunk`.
- The waiting loop at the end of `shutdown`, and listings such as `getActiveExecutions`.
- Everything `WorkflowRunner.run` does after `add` returns, and other writers of an execution row (deletion, crash
  recovery, retries), except that the running execution saves, waits, ends or is cancelled.
- The split of an execution row over two tables: one update is one step.
- `shouldRestartParentExecution`: resume calls may start at any time in the model, which covers it.
- Node timers longer than 2^31 milliseconds; timers here fire at or after the time they are due.
- Which rows `getWaitingExecutions` selects (status and a look-ahead of 15 seconds): a poll may return any rows.
- Extracting the token from a response, and the request itself, except for the form body: `preAuthentication` gets the
  token found, or none.
- `CredentialTypes.GetParentTypes`: names of properties of `Object.prototype` as type names. The same for names of
  credentials as cache keys in `CredentialRepair`.
- `Overwrites.CredentialsOverwrites.ApplyOverwrite`: values are compared by content; a stored object that equals an
  overwrite but is another object counts as equal. Aliasing between the data supplied and the data stored is not
  modelled, since stored entries are never changed in place.
- `OverwriteOrder.ExtendedOrderFreeExactly`: for a type that no other type extends, one catalogue on its own is covered
  by `ChildOfForkDecides`, `SharedParentDecides` and `LoneForkIsOrderFree` only, in one direction each.
- The order of the properties in the list the frontend is told.
- `PathParser.ParsePath`: rounding of indices above 2^53.
- `KeySearch.FindFirstKey`: own properties that are not enumerable, getters and sparse arrays.
- `getByExpression`, `extractTokenFromBody` and reading tokens from headers: they evaluate foreign code or are plain
  field access.
- Texts of numbers, `NaN` and rounding of times in the token cache; `tokenExpiresAt` is kept as a number.
- `RoleMappingRules`: `list`, `serialize`, time stamps, and validation of the request before the service is called.
  Two requests at the same time are not interleaved.
- `CredentialRepair`: further properties of a credential, and an id that is undefined rather than null.
- `UserSync`: connection, login, configuration and the history of runs; the role, password and project of a created
  user; saving a user whose stored address is invalid.
- `ActivationRetry`: what `add` does to webhooks, triggers and activation errors; multi-main publishing.
