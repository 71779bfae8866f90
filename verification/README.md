# Verified models of groupbot

These Dafny modules model the parts of groupbot whose correctness rests on an argument rather than on reading one
function, and prove that argument: the update dispatcher and the two-party checkpoint that moves the durable Telegram
cursors, the settings table with its in-memory mirror, the durable warning queue with its leases, the lock order of the
settings writers, the three tokenizers with their vocabulary trims and files, and the arithmetic with stated bounds.
`dafny verify dfyconfig.toml` checks everything.

| files | what they model |
|---|---|
| `Dispatcher.dfy` | the bounded, per-peer fair scheduler: one step function on its state, the invariants every run keeps, order, conservation and fairness, and the class that refines it step by step |
| `UpdateWorker.dfy`, `WorkerRuns.dfy` | the receive, drain and pause loop of the bot and cleaner workers as a state machine over events; where each wait ends, and what whole runs keep, forget and survive |
| `Checkpoint.dfy`, `CheckpointSteps.dfy`, `CheckpointProgress.dfy`, `CheckpointRounds.dfy` | coordinator, both workers, their channels, timeouts, dropped ends and failures as one transition system with a log of facts; what no run may do, exactly when each failure, fact and ending comes about, and that any number of rounds can end as wished |
| `ChatRows.dfy` | one chat's settings as a sorted vector with binary search, refining a map |
| `SettingsTable.dfy`, `SettingsMeaning.dfy`, `BatchOrder.dfy`, `SettingsIndex.dfy`, `SettingsMirror.dfy` | the settings table, the rules of a batch and of a flag write and what they grant, what the order of a batch decides, the prefix index, and the class that keeps cache, index, totals and chat set equal to the table |
| `DurableWork.dfy`, `DurableRows.dfy`, `WarningLeases.dfy`, `DurableStore.dfy` | counter rows, notes and the warning queue: transactions as steps, runs with every issued ticket on record, and the transactions statement by statement |
| `WriteStripes.dfy`, `WriteSerial.dfy` | writers taking striped locks in order and the capacity lock last, under any scheduler; why the settings methods may be taken as single steps |
| `Unigram.dfy`, `UnigramSearch.dfy`, `UnigramTrim.dfy`, `Scripts.dfy` | the Viterbi segmenter, its arrays, and the trim to the kept scripts |
| `Merging.dfy`, `Bpe.dfy`, `BpeTrim.dfy`, `IdBpe.dfy`, `VocabFiles.dfy`, `Utf8.dfy` | byte-pair merging over any symbols, the string encoder, its trim, the id encoder, and the files between them |
| `Quantize.dfy`, `Telemetry.dfy`, `Cards.dfy` | two-layer 4-bit weights, log-bucket percentiles, Luhn and the card-number scanner |
| `Options.dfy`, `MapSum.dfy`, `Sequences.dfy` | absent values; totals over finite maps; sequences without repeats and the places of their elements |

Where the source changes state, a function states the step on values, lemmas prove what every run of steps keeps, and
the class method, loop for loop, is proved equal to the function; each method of `DurableStore.Store` without a row
below is equal to its step in `DurableWork.Apply` and adds only what it answers. The lemmas of `WorkerRuns` without a row
say where the remaining waits of a worker end. Each SQL statement or transaction is
one update of a map; an outcome the source cannot know (a commit that failed on the way back, a timeout, a dropped
channel, the next task to finish) is a free choice, so the results hold for every choice.

## Where the code and its documentation differ

- `tools/export_intent.py` (49-55) says that text entirely in the kept scripts is segmented exactly as with the full
  vocabulary, and `--check` (388-389) treats every case whose full ids survive as comparable. Neither holds:
  dropping the worst-scored piece raises the floor of the unknown edge, and a character that is kept but no piece of
  its own becomes cheap enough to win. `UnigramTrim.KeptScriptsAreNotEnough` gives such a vocabulary, in which the text
  "xyz" has the ids 0, 1, 2, all of them surviving unchanged, and after the trim the ids 0, 3.
  `UnigramTrim.TrimIsLosslessIffFewest` says exactly when a word is safe: when the trimmed tokenizer's own cut has no
  more unknown characters than some cut must have, which a cut without unknowns always meets.
- Warnings are not only zeroed by completing a penalty or by decrements: `forget_idle` deletes counter rows without
  looking at `warns` (`WarningLeases.IdlenessClearsWarnings` names the run); `WarningLeases.WarnsClearIff` lists all the
  ways.
- `write_vocab` of an empty list writes one line break, which is read back as one empty piece
  (`VocabFiles.VocabRoundTripsIffNonempty`).
- A checkpoint request uses a channel with one place and does not wait (src/main.rs 381-387). A worker that is only slow
  and still has the command of a round that timed out therefore fails the next request, which ends the coordinator
  although no worker has stopped (`CheckpointProgress.RequestFailsIff`,
  `CheckpointProgress.SlowWorkerFailsTheNextRequest`).
- The stripe index masks the low bits of a multiplicative hash, so it depends on the chat modulo 1024 alone
  (`WriteStripes.SameStripeIff`).

## Model

| member | source | states |
|---|---|---|
| Dispatch.PushKeepsInv | src/dispatcher.rs:78-98 | pushing keeps the structure: a key is ready exactly once iff its lane has work and room to run, `pending` is the sum of the queues, caps and bounds hold, no idle lane survives |
| Dispatch.StartKeepsInv | src/dispatcher.rs:100-121 | so does starting the peer at the front |
| Dispatch.CompleteKeepsInv | src/dispatcher.rs:123-148 | so does a completion, which re-queues the peer exactly when it was held back by its own limit |
| Dispatch.RunningHasTask | src/dispatcher.rs:123-130 | the lane of a finishing task exists and runs something: the two `expect`s of `complete` never fail |
| Dispatch.ReadyHasWork | src/dispatcher.rs:100-108 | the peer at the front of `ready` has a lane with work: the `expect`s of `start` never fail |
| Dispatch.RunKeepsGood | src/dispatcher.rs:78-148 | after every possible run: per peer, what was pushed is what was started or shed, in push order, followed by what waits; totals add up; every start has one task that runs or has finished |
| Dispatch.RunRecords | src/dispatcher.rs:78-148 | over any run: everything the run pushes is on record in order, the starts served are exactly those of the peers at the front, and every task ends as it ended, for good |
| Dispatch.RoomIffFewer | src/dispatcher.rs:65-67 | there is room exactly while fewer items wait in all lanes together than the capacity |
| Dispatch.PushKeepsNewest | src/dispatcher.rs:84-97 | a lane keeps its newest items up to its cap, so only the oldest of a full lane is shed, and no other lane changes |
| Dispatch.StartsServeReadyInOrder | src/dispatcher.rs:100-121 | the peer at position i of the ready queue gets the start numbered i, whatever is pushed or finishes in between |
| Dispatch.StartIsMaximal | src/dispatcher.rs:100-121 | after `start`, all workers are busy or every peer with work runs at its limit |
| Dispatch.NonEmptyHasTask | src/main.rs:831-864 | a non-empty dispatcher has a running task after `start`, so a drain never waits for nothing |
| Dispatch.DrainIsExact | src/main.rs:831-864 | a drain without pushes is over after exactly `pending + active` completions, in whatever order tasks end, and never waits with nothing running |
| Dispatch.ClearKeepsGood | src/dispatcher.rs:160-171 | once no task runs, emptying the queues keeps every invariant: order, totals and accounts hold with each dropped item on record |
| Dispatch.Dispatcher.New | src/dispatcher.rs:39-53 | an empty dispatcher in good order |
| Dispatch.Dispatcher.WithLaneCap | src/dispatcher.rs:55-59 | any positive cap may be set at any time; the object is in good order exactly if no lane already holds more |
| Dispatch.Dispatcher.Push | src/dispatcher.rs:78-98 | the fields end as the push step says, with the history extended |
| Dispatch.Dispatcher.StartNext | src/dispatcher.rs:100-121 | one turn of the start loop is the start step, and its item is on record |
| Dispatch.Dispatcher.Start | src/dispatcher.rs:100-121 | the loop starts items until it may not |
| Dispatch.Dispatcher.Complete | src/dispatcher.rs:123-148 | the fields end as the completion step says |
| Dispatch.Dispatcher.Shutdown | src/dispatcher.rs:160-171 | reports waiting and running items together, joins the running ones, drops and records the waiting ones, and leaves an empty dispatcher in good order that can be used again |
| Dispatch.Drain | src/main.rs:831-864 | the drain loop with its three ends: undisturbed it is empty after exactly the load's completions; a stop leaves it empty and accounts for the rest; an abandoned round leaves the rest waiting; and unless stopped its panic count is zero iff every handler ended well |
| UpdateWorker.StepKeepsWorkerInv | src/main.rs:632-883 | every event keeps the worker's invariant, dispatcher included; a push happens only with room |
| UpdateWorker.RestMeansHandled | src/main.rs:660-883 | a worker that may move its cursor or ended well is empty, never saw a panic in any round and dropped nothing, and every update it received was handled to the end, shed, or not wanted |
| UpdateWorker.DrainCanProgress | src/main.rs:831-864 | a draining worker with work left has a handler to wait for, and each end shortens the drain by one |
| WorkerRuns.RunHears | src/main.rs:660-883 | over any run, stop signals included: every delivered update is kept in order, and the wanted ones are what the dispatcher was given |
| WorkerRuns.RestHandledTheRun | src/main.rs:660-883 | a worker that started afresh and rests has handled to a good end every wanted update of its whole run, but for those shed, per peer in order |
| WorkerRuns.FailureIsForever | src/main.rs:865-869 | after a failed handler no run reaches another pause, cursor write or good end |
| WorkerRuns.BrokenIsForever | src/main.rs:770-777 | after a broken session the worker only drains, and then stops with an error |
| WorkerRuns.HealthyRunsOn | src/main.rs:660-883 | without a failed handler, a broken session, a hopeless receive or a stop signal no run ends the worker, however many checkpoints are committed, deferred or abandoned |
| WorkerRuns.PauseEnds | src/main.rs:357-371 | a pause that synchronized its cursor, well or not, or was told to resume: the worker starts a fresh round iff the signal is running, has finished iff it is drain, and aborts iff it is abort |
| WorkerRuns.DrainEnds | src/main.rs:865-883 | a drain ends in an error iff a handler ever failed or the session broke, in a pause iff a checkpoint is still listened to, in a fresh round iff it is not, and finished iff there is none |
| WorkerRuns.AbandonedEnds | src/main.rs:854-862 | a round given up while handlers run begins the next one iff none ever failed |
| WorkerRuns.NoticeEnds | src/main.rs:679-818 | what a stop signal does in each wait, and how much work an abort reports as unfinished |
| WorkerRuns.FailureEnds | src/main.rs:735-777 | a failed receive is retried, breaks the session, or ends the intake, and the worker remembers which |
| WorkerRuns.TenRetries | src/main.rs:602-619 | ten transient failures in a row are retried, the eleventh is not, and an update in between starts the count anew |
| Checkpoint.MoveKeepsInv | src/main.rs:327-395 | every step of coordinator, worker, timer, channel or failure keeps the protocol invariant |
| Checkpoint.EveryRunIsSafe | src/main.rs:420-572 | in every interleaving a cursor of a round moves only after both workers were ready in it, owned tasks joined without failure, all four flushes succeeded, the barrier was clean and ownership held; a deferred round moves no cursor, a committed one moved both, and no worker moves twice in a round |
| Checkpoint.CursorMovesAtRest | src/main.rs:327-372 | whenever a cursor moves, its worker is empty, never saw a panic and has handled what it was given |
| CheckpointSteps.FailsIff | src/main.rs:420-585 | the coordinator fails exactly for the listed reason of each failure, and a failed one stays as it is |
| CheckpointSteps.TellsIff | src/main.rs:420-585 | each move puts at most one fact on record: a ready exactly when a worker without a failure ever answers a waiting coordinator, a cursor exactly when one is written, a deferral exactly when time runs out before the flush or both workers were told to resume, a commitment exactly when both cursors moved |
| CheckpointSteps.RoundsEndOneWay | src/main.rs:420-585 | in every run each round ends one way, deferred or committed, before the next begins |
| CheckpointSteps.WaitsIff | src/main.rs:471-584 | the coordinator stops waiting for answers, or for cursors, exactly when each worker has answered or has stopped or given its command up |
| CheckpointSteps.NoRoundHangs | src/main.rs:420-585 | in every interleaving the coordinator ends a round, or fails, within twelve moves of its own, and until then always has one |
| CheckpointSteps.FailedIsForever | src/main.rs:420-585 | after a failure no run begins another round or sends another decision |
| CheckpointSteps.DecidesIff | src/main.rs:336-355 | in every run a paused worker goes on exactly when it was sent a decision, which it follows, or when its round is over, and then it only resumes |
| CheckpointSteps.AnswersInVainIff | src/main.rs:588-593 | a draining worker may give its command up, or answers in vain, exactly when its round is no longer waited for |
| CheckpointProgress.NextRoundCanCommit | src/main.rs:420-572 | the protocol can also succeed: from any reachable state with an idle coordinator and two resting workers, some run commits the next round with exactly these nine facts on record, and comes back to such a state |
| CheckpointRounds.RoundsAsWished | src/main.rs:327-585 | from the start, for every list of endings (committed, put off by any failed flush, timed out) some run goes through rounds that end so, each beginning where the last one ended; putting rounds off never ends the service |
| CheckpointRounds.EveryRoundCanCommit | src/main.rs:327-585 | so for every n a single run commits the rounds 1 to n and may go on |
| CheckpointProgress.RequestFailsIff | src/main.rs:374-395 | a request fails exactly when its worker has stopped or has not yet taken the command of an earlier round |
| CheckpointProgress.SlowWorkerFailsTheNextRequest | src/main.rs:374-395 | such a failure is reachable from the start with no worker stopped, ownership held and the barrier sound |
| Rows.Find | src/state.rs:449-452 | binary search finds the key or its place, for any sorted vector |
| Rows.InsertIsUpdate | src/state.rs:458-466 | inserting refines a map update and keeps the order |
| Rows.DeleteIsRemoval | src/state.rs:468-470 | removing refines a map removal and keeps the order |
| Rows.SortedIsCanonical | src/state.rs:446-447 | equal contents mean equal vectors |
| Rows.BeforeIsByteOrder | src/state.rs:450-452 | the order of the keys is the order of their UTF-8 bytes, as the source compares them |
| Rows.ChatRows.Get | src/state.rs:454-456 | looks a key up as the map would |
| Rows.ChatRows.Put | src/state.rs:458-466 | updates the map and returns what was there |
| Rows.ChatRows.Remove | src/state.rs:468-470 | removes from the map and returns what was there |
| SettingsMeaning.BatchGrantsAll | src/state.rs:4037-4057 | the rows after a batch of distinct keys are the only ones in which each put is stored, each delete gone, each conditional put stored iff its condition was absent or empty before, and every other key unchanged |
| SettingsTable.ChangesCountsDifferences | src/state.rs:4055-4070 | the reported count is the number of keys whose value differs |
| BatchOrder.VerdictIsOrderFree | src/state.rs:3982-4108 | for every batch, well-formed or not: another order is accepted in the same cases, with the same rows and count, and refused for the same capacity; only the error of the first checks may differ |
| BatchOrder.SomeOrderNamesIffOffends | src/state.rs:3992-4018 | the errors the first checks can name, over all orders, are exactly the mutations' own faults, and a duplicate iff two well-formed ones share a key |
| BatchOrder.ErrorIsOrderFreeIffOneOffence | src/state.rs:3992-4018 | so the error is the same in every order exactly when the batch has at most one kind of offence |
| BatchOrder.ErrorDependsOnOrder | src/state.rs:3992-4018 | a batch that ends with two different errors in two orders |
| SettingsMeaning.AcceptedIffSound | src/state.rs:3994-4018 | a batch passes the first checks iff keys and condition keys have at most 512 bytes, values are valid and have at most 16384, and no key repeats |
| SettingsMeaning.FirstErrorNames | src/state.rs:3994-4018 | the error named is that of the first mutation at fault, or of the first that repeats a key |
| SettingsMeaning.SizeIsBytes | src/state.rs:4055-4065 | the size of a row is the number of UTF-8 bytes of its key and value |
| SettingsMeaning.TotalsAreExact | src/state.rs:4055-4065 | both totals are zero for an empty table and grow by one row and its bytes with each new row, wherever it is put |
| SettingsTable.DeltaIsExact | src/state.rs:4055-4070 | the running sums of rows and bytes are the true differences |
| SettingsTable.BatchKeepsCaps | src/state.rs:4075-4108 | an accepted batch keeps the per-chat, row, byte and chat caps, and registers every chat that owns a row |
| SettingsMeaning.AcceptedIffWithinCaps | src/state.rs:4075-4143 | and conversely: a batch is accepted exactly if it passes the first checks and either changes nothing or leads to a table within every cap, with a readable access hash |
| SettingsMeaning.FlagGrants | src/state.rs:4246-4437 | a flag write sets its key to the empty text, or removes it, in exactly the listed chats and touches nothing else |
| SettingsMeaning.FlagCountsChats | src/state.rs:4283-4437 | the count a flag write reports is the number of chats whose rows it changes |
| SettingsTable.ProjectionIsTrue | src/state.rs:4285-4322 | the projected totals over many chats are those of the table the write leads to |
| SettingsMeaning.ProjectedIffRoom | src/state.rs:4285-4322 | a flag write passes its projection exactly when there is room for all its new rows, bytes and chats together |
| SettingsMirror.FlagAcceptedIffRoom | src/state.rs:4246-4322 | it is accepted exactly if its key is sound and, to be set, there is that room and every stored hash can be read |
| SettingsTable.FlagKeepsCaps | src/state.rs:4285-4322 | an accepted flag write keeps every cap |
| SettingsTable.ForgetKeepsCaps | src/state.rs:3681-3796 | removing a chat keeps every cap and the chat set right |
| SettingsIndex.SlotIsUnique | src/state.rs:1012-1017 | a key belongs to the slot of the one indexed prefix it starts with |
| SettingsIndex.ReindexAgrees | src/state.rs:4546-4563 | reindexing one key keeps the index listing exactly the cached keys of each prefix, once |
| SettingsIndex.IndexedAnyIsScan | src/state.rs:4536-4544 | asking the index equals scanning the cache |
| SettingsMirror.AppliedIsTarget | src/state.rs:4055-4070 | leaving out mutations that change nothing loses nothing |
| SettingsMirror.StatementsAreApplied | src/state.rs:4145-4179 | one upsert statement and one delete statement together equal the changes one by one |
| SettingsMirror.PlanFacts | src/state.rs:4075-4086 | the totals the checks use are the totals of the resulting table |
| SettingsMirror.Settings.TryApplyBatch | src/state.rs:3982-4227 | all of the batch or nothing, in table and mirror alike: after Ok(n) every mutation has what it asks for, every other key is unchanged and n keys differ; the exact result in every case; an unknown commit closes the gate and leaves the mirror, and a closed gate refuses everything |
| SettingsMirror.Settings.SetFlags | src/state.rs:4246-4437 | the same for one flag in many chats: after Ok(n) the flag is set or gone in the listed chats, everything else is unchanged, and n chats changed |
| SettingsMirror.Settings.ForgetChat | src/state.rs:3681-3796 | the same for removing a marked chat, with its rows, index and totals |
| SettingsMirror.Settings.IndexedAny | src/state.rs:4536-4544 | finds iff some row of the table under the prefix passes |
| DurableWork.StepKeepsCounts | src/state.rs:2927-3138 | every operation keeps both counts equal to the real rows, and the shard and per-chat caps |
| DurableRows.EveryRowBecomes | src/state.rs:2927-3393 | every operation, row by row: what it makes of the counter, the note and the penalty of any member, named or not, against a table written per member; and both counts are the numbers of rows |
| DurableRows.UnnamedStay | src/state.rs:2927-3764 | over whole runs a member that no operation names keeps its counter, note and penalty |
| DurableRows.ForgetTakesTheChat | src/state.rs:3725-3764 | forgetting a chat leaves exactly the rows of all other chats, the counts fall by exactly that chat's rows, and no token is drawn |
| DurableWork.RunKeepsCounts | src/state.rs:5279-5361 | so does every run |
| WarningLeases.LogKeepsCounts | src/state.rs:2927-3138 | the runs with tickets on record, too, keep the counts and the caps |
| DurableWork.FloorsNeverBind | src/state.rs:3599-3626 | in every reachable state no subtraction from a count reaches its floor at zero: idle rows, a chat's rows and a note were all counted |
| DurableWork.CreditLandsIffRoom | src/state.rs:2927-2969 | a credit is added, with the name it brings, exactly when its row exists or the real rows leave room under both caps; otherwise nothing changes |
| DurableWork.NoteLandsIffRoom | src/state.rs:5279-5361 | a note is stored, erased or refused exactly by its size and the real rows, existing ones staying writable at the cap |
| WarningLeases.StepKeepsRows | src/state.rs:1567-1580 | `version = attempts + 1`, a row awaiting a rejoin holds no lease, generations and tokens are drawn once and never shared |
| WarningLeases.RunKeepsLog | src/state.rs:3029-3393 | every run keeps the rows, ticket, expiry and completion invariants |
| WarningLeases.AtMostOneHolder | src/state.rs:3140-3158 | in every reachable state at most one ticket ever issued for a member is current |
| WarningLeases.LostForever | src/state.rs:3140-3158 | a ticket that stopped being current never becomes current again, whatever follows |
| WarningLeases.FencedOut | src/state.rs:3230-3393 | so deferring, awaiting, completing or terminating with it changes nothing, ever |
| WarningLeases.NoClaimBeforeExpiry | src/state.rs:3160-3186 | while a ticket is current a claim does nothing before its expiry, and from then on takes the lease over |
| WarningLeases.EarlyClaimNeedsAnEnd | src/state.rs:3160-3186 | over whole runs: between two claims of a member, the later one before the first one's time is over, some step ended the first lease by something else than a claim, or by a claim made at a later clock reading than the last one |
| WarningLeases.CompletedOnce | src/state.rs:3342-3372 | each generation is completed at most once and never comes back |
| WarningLeases.LeaseEndsExactlyBy | src/state.rs:3117-3393 | a current ticket is lost exactly by expiry and a new claim, its holder's own end of work, a decrement, or the chat going away; never by a purge |
| WarningLeases.AwaitingUntilResumed | src/state.rs:3259-3338 | a row awaiting a rejoin changes exactly by resuming, decrementing, ageing out or the chat going away, and resuming makes it claimable |
| WarningLeases.PenaltyQueuedIffLimit | src/state.rs:3029-3112 | a penalty is queued exactly when the added warning reaches the limit, and can be claimed at once |
| WarningLeases.BatchClaimsEach | src/state.rs:3187-3228 | claiming many due rows gives each one a ticket, all current afterwards, and touches no other row |
| WarningLeases.WarnsRiseIff | src/state.rs:3029-3112 | warnings rise only by one, and only where no penalty is pending |
| WarningLeases.WarnsClearIff | src/state.rs:3342-3372 | the exact list of operations that take the last warnings away |
| WarningLeases.IdlenessClearsWarnings | src/state.rs:3568-3626 | a named run after which a member has a warning, and the idle sweep that erases it |
| DurableStore.Store.IncrementWarning | src/state.rs:3029-3112 | the answer in every case: a pending penalty answers without counting, refusal only for want of room, otherwise the stored count and the penalty that is now queued |
| DurableStore.Store.ClaimPending | src/state.rs:3187-3228 | equal to the run of single claims; every ticket current and fresh |
| DurableStore.Store.Defer | src/state.rs:3230-3257 | succeeds iff the ticket is current; then it is lost and the row can be claimed exactly from the retry time on |
| DurableStore.Store.AwaitRejoin | src/state.rs:3259-3287 | succeeds iff the ticket is current; then it is lost and nobody can claim the row at any time |
| DurableStore.Store.PurgeStale | src/state.rs:3302-3321 | a leased row is never taken, and the count is what went |
| DurableStore.Store.ReverseWarning | src/state.rs:5116-5180 | takes one warning back iff there is one and its case is still open |
| DurableStore.Store.SetNote | src/state.rs:5279-5361 | what is stored, and the reason of every refusal |
| DurableStore.Store.ForgetIdle | src/state.rs:3568-3626 | each chosen row is looked at again, the count is what went, and the answer says whether the choice reached its limit |
| DurableStore.Store.ForgetChat | src/state.rs:3725-3764 | the three tables keep exactly the rows of the other chats; chat 0 changes nothing |
| WriteStripes.Stripes | src/state.rs:4268-4274 | the stripes of any list of chats, strictly increasing and exactly theirs |
| WriteStripes.PlanIsOrdered | src/state.rs:4264-4278 | every writer's plan is strictly increasing and consists of the stripes of its chats, with the capacity lock last iff it counts |
| WriteStripes.SameStripeIff | src/state.rs:4515-4519 | two chats share a stripe exactly when they agree modulo 1024 |
| WriteStripes.StripeIsLow | src/state.rs:4515-4519 | the 64-bit hash and mask come down to 21 times the chat modulo 1024 |
| WriteStripes.RunIsExclusive | src/state.rs:3703-3705 | no lock is ever held twice |
| WriteStripes.WritersAreApart | src/state.rs:4020-4022 | in every reachable state two writers at work share no chat and do not both hold the capacity lock |
| WriteStripes.NeverDeadlocked | src/state.rs:3589-3598 | in every reachable state with writers, one of them can move |
| WriteStripes.EveryScheduleEnds | src/state.rs:3589-3598 | without new writers every schedule ends after exactly the moves that were left, with all finished |
| WriteSerial.InterleavingsAreSerial | src/state.rs:4020-4278 | however the pieces of the writers that hold the capacity lock interleave, whenever none is at work the state is that of whole writers one after the other, in the order they finished |
| WriteSerial.WritersWorkAlone | src/state.rs:4020-4278 | a writer at work sees the finished writers and its own pieces, never half of another |
| Unigram.IdsAreLast | tools/export_intent.py:175-176 | an id is the last place a piece stands at, and only pieces have one |
| Unigram.NewIsExact | tools/export_intent.py:175-180 | the scores in order, the length of a longest piece, and an unknown edge exactly ten below a worst score |
| Unigram.BestIsChosen | tools/export_intent.py:190-202 | the table keeps for each position a best last part, earlier pieces before later ones and pieces before the unknown on ties |
| Unigram.PartsSplit | tools/export_intent.py:203-209 | every position is reachable: the walk back gives a split whose parts spell the word |
| Unigram.SearchIsOptimal | tools/export_intent.py:182-209 | no split of the word into pieces and single unknown characters scores more |
| Unigram.SearchPrefersSooner | tools/export_intent.py:190-202 | of all best splits the search returns the one whose parts, from the end of the word, are preferred: longer pieces first, the unknown last |
| Unigram.OwnPiecesMeanNoUnknowns | tools/export_intent.py:200-202 | a word whose characters are all pieces is cut without unknowns |
| Unigram.FloorProofIffFewest | tools/export_intent.py:180-202 | a word is cut alike at every lower floor exactly when its cut has as few unknowns as any split |
| UnigramSearch.FindWord | tools/export_intent.py:182-215 | the arrays, the walk back, the reversal and the fusing give the ids of that cut |
| Unigram.WordIsParts | tools/export_intent.py:203-215 | the ids of a word are those of its parts, unknown ones as the unknown id, fused |
| UnigramSearch.FuseRuns | tools/export_intent.py:210-215 | the fusing loop equals the fused sequence |
| UnigramSearch.FuseMeans | tools/export_intent.py:210-215 | fusing keeps all other ids in order and leaves no two unknowns side by side |
| UnigramSearch.FuseIsExact | tools/export_intent.py:210-215 | two unknowns side by side count as one, and without such two nothing changes |
| UnigramSearch.FindBody | tools/export_intent.py:217-222 | a text's ids are its words' ids in order |
| UnigramSearch.BodyIsWordByWord | tools/export_intent.py:217-222 | each word is cut on its own behind the mark of a space, and texts put together have their ids put together |
| UnigramSearch.Encode | tools/export_intent.py:224-226 | framed by the specials, at most 128 ids, cut only from the end |
| UnigramTrim.TrimIsExact | tools/export_intent.py:247-261 | the trim keeps exactly the specials and the pieces of kept characters, with their scores, numbered from zero without a gap in their order |
| Scripts.KeptCharIs | tools/export_intent.py:130-142 | the kept characters are exactly the listed ranges and the mark for a space |
| UnigramTrim.KeptTextSeesOnlyTheFloor | tools/export_intent.py:247-261 | on kept text the full vocabulary differs from the trimmed one by its floor alone |
| UnigramTrim.FewestUnknownsLoseNothing | tools/export_intent.py:247-261 | kept text whose trimmed cut has the fewest unknowns gets the full tokenizer's ids, remapped |
| UnigramTrim.OwnPiecesLoseNothing | tools/export_intent.py:136-142 | in particular every kept word whose characters are pieces, ties included |
| UnigramTrim.TrimIsLosslessIffFewest | tools/export_intent.py:49-52 | a kept word is cut alike by all vocabularies with the same trim exactly when the trimmed cut has the fewest unknowns |
| UnigramTrim.SameFloorLosesNothing | tools/export_intent.py:180-180 | a trim that keeps a worst piece changes no kept word |
| UnigramTrim.KeptScriptsAreNotEnough | tools/export_intent.py:49-52 | kept script alone does not suffice: a vocabulary whose only special is the unknown piece, and a text whose full ids all survive unchanged, cut into other ids after the trim |
| UnigramTrim.TextsLoseNothing | tools/export_intent.py:217-226 | word by word, whole encoded texts keep their ids |
| Merging.MergedIsByRank | tools/export_vision.py:183-201 | merging leads to exactly one result: while some pair merges, all occurrences of the first pair of least rank are joined from the left; once none merges, nothing changes |
| Merging.FoundIsFirst | tools/export_vision.py:184-190 | the pair chosen has a rank at most every merging pair's and strictly below every earlier one's, and none is chosen exactly when none merges |
| Merging.JoinTakesTheFirst | tools/export_vision.py:191-200 | occurrences are joined from left to right, each once, nothing before them changing |
| Merging.JoinOfNoneIsSame | tools/export_vision.py:191-200 | without an occurrence nothing changes |
| Merging.MergedIsDone | tools/export_vision.py:183-201 | when merging stops no adjacent pair merges |
| Merging.MergedCoded | tools/evaluate_imgfilter.py:301-320 | merging commutes with any one-to-one coding under which the tables correspond |
| Bpe.PiecesSpellTheText | tools/export_vision.py:174-201 | the pieces spell the marked text with absent characters as bytes, and none merge on |
| Bpe.StartsAsWritten | tools/export_vision.py:175-182 | character by character: a space is marked, a character with a piece stands for itself, any other for its UTF-8 bytes |
| Bpe.OwnTextComesBack | tools/export_vision.py:174-201 | a text of the vocabulary's own characters is its pieces put together, with marks for spaces |
| Bpe.FindPieces | tools/export_vision.py:174-201 | the three loops compute those pieces: what merging by the rank table, lowest rank first, leads to from the start pieces |
| Bpe.Encode | tools/export_vision.py:203-207 | at most 64 ids, the last the end mark |
| Utf8.BytesDecode | tools/export_vision.py:181-182 | the bytes of a character are its UTF-8 form: they decode to it |
| Utf8.BytesAreShortest | tools/export_vision.py:181-182 | no shorter sequence decodes to the character and no other of that length |
| Utf8.TextDecodes | tools/export_vision.py:181-182 | a whole text can be read back from its bytes |
| Utf8.BytePieceIsHex | tools/export_vision.py:181-182 | byte pieces tell all bytes apart |
| Utf8.BytePieceReads | tools/export_vision.py:181-182 | a byte piece is its byte in two upper-case hexadecimal digits |
| BpeTrim.SurvivorsKeepTheirId | tools/export_vision.py:225-249 | a piece survives exactly if all its characters are kept or it is a byte or bracketed piece, and its new id is its old one remapped |
| BpeTrim.PiecesKeepOrder | tools/export_vision.py:231-243 | the pieces stay in the order of their old ids, and the remap numbers them by place |
| BpeTrim.MergesSurviveIff | tools/export_vision.py:232-248 | a merge survives iff both halves and the product do; keeping all keeps the merges as they are |
| BpeTrim.FilteringKeepsOrder | tools/export_vision.py:244-248 | dropping merges keeps the others in order |
| BpeTrim.TrimIsLosslessIffKept | tools/export_vision.py:54-58 | the trim leaves a text's pieces alone exactly when every character that is itself a piece is of a kept script |
| BpeTrim.KeptTextKeepsItsIds | tools/export_vision.py:225-249 | such a text keeps its ids, remapped |
| IdBpe.Load | tools/evaluate_imgfilter.py:276-290 | reading the files builds the tables, the first line of a pair counting |
| IdBpe.BuildIsExact | tools/evaluate_imgfilter.py:276-290 | reading fails iff one of the two marks is missing; each byte has its piece's id or the unknown one |
| IdBpe.FirstRowCounts | tools/evaluate_imgfilter.py:282-290 | a pair of ids merges iff some line with all three pieces says so, and the first such line gives its rank and product |
| IdBpe.FindIds | tools/evaluate_imgfilter.py:292-322 | the loops on ids give 64 ids: what merging by the table leads to from the start ids, cut after 63, the end mark, and zeros |
| IdBpe.IdsAsWritten | tools/evaluate_imgfilter.py:293-300 | character by character: a space is marked, a piece is its id, any other character the ids of its UTF-8 bytes |
| IdBpe.TableMirrorsRanks | tools/evaluate_imgfilter.py:282-290 | the id table has a pair exactly when the merges do, at its rank |
| IdBpe.IdsRefineStrings | tools/evaluate_imgfilter.py:292-322 | for a well-formed vocabulary the id encoder equals the string encoder plus zeros, for every text |
| IdBpe.FilesRefineStrings | tools/evaluate_imgfilter.py:276-322 | and so through the files the exporter writes |
| VocabFiles.EscapeIsByChar | tools/export_vision.py:567-568 | the four replacements together escape character by character |
| VocabFiles.EscapeAsWritten | tools/export_vision.py:567-568 | the four escapes, one character at a time |
| VocabFiles.EscapeIsPlain | tools/export_vision.py:567-568 | an escaped piece has no line break, return or space |
| VocabFiles.UnescapeUndoesEscape | tools/evaluate_imgfilter.py:248-263 | reading undoes writing for every string |
| VocabFiles.UnescapeAsRead | tools/evaluate_imgfilter.py:248-263 | the reading of any text, one character or escape at a time: unknown escapes and a lone final backslash stay |
| VocabFiles.LinesAreRead | tools/evaluate_imgfilter.py:266-273 | the lines hold no line break and joined by line breaks they are the text |
| VocabFiles.RustLinesAreRead | tools/evaluate_imgfilter.py:266-273 | every line is stripped, one after a final line break is left out, and an empty text has none |
| VocabFiles.StripIsExact | tools/evaluate_imgfilter.py:273-273 | a line loses the returns at its end and nothing else |
| VocabFiles.FindUnescaped | tools/evaluate_imgfilter.py:248-263 | the loop computes it, a lone final backslash included |
| VocabFiles.VocabRoundTripsIffNonempty | tools/export_vision.py:571-575 | the vocabulary file gives back the pieces in order iff there are any |
| VocabFiles.VocabAsWritten | tools/export_vision.py:571-575 | the vocabulary file is one escaped line after the other, each ended |
| VocabFiles.MergesAsWritten | tools/export_vision.py:578-583 | the merge file is one line for each pair, its escaped halves with a space between |
| VocabFiles.RowAsRead | tools/evaluate_imgfilter.py:283-287 | a line is a pair iff it has a space; the first one parts it, and both halves are unescaped |
| VocabFiles.IdsRoundTrip | tools/evaluate_imgfilter.py:278-278 | distinct pieces get back their ids |
| VocabFiles.MergesRoundTrip | tools/export_vision.py:578-583 | the merge file gives back every pair at its rank, and none for none |
| Quantize.RoundIsNear | tools/export_verify.py:103-104 | rounding goes to the nearest integer, to the even one half-way |
| Quantize.RangeIsExact | tools/export_verify.py:100-100 | the range of a block is the one interval around zero that holds its weights and ends, on each side, at zero or at a weight |
| Quantize.ScaleIsExact | tools/export_verify.py:101-103 | the step is a fifteenth of that range, one for a block of zeros, and the zero point the integer nearest to where zero falls |
| Quantize.CodeIsNearest | tools/export_verify.py:104-104 | of the sixteen values its block can stand for a weight gets a nearest one |
| Quantize.TiesGoToEven | tools/export_verify.py:104-104 | half-way between two the even step is taken |
| Quantize.LayerLayout | tools/export_verify.py:104-108 | the stored bytes, scales and zero points of a layer, two codes and two zero points to a byte |
| Quantize.OneLayerError | tools/export_verify.py:96-108 | one layer loses at most half a step of any weight, clipped ones and blocks of zeros included |
| Quantize.ZeroStaysZero | tools/export_verify.py:96-108 | zero weights stay exactly zero |
| Quantize.OrIsSum | tools/export_verify.py:105-105 | a packed byte is the sum of its nibbles with weights one and sixteen, and its halves are they |
| Quantize.PackLayout | tools/export_verify.py:105-107 | even places go to low halves, odd ones to high halves |
| Quantize.UnpackUndoesPack | tools/export_verify.py:213-219 | unpacking is exact |
| Quantize.PackingIsExact | tools/export_verify.py:213-220 | a layer multiplies by exactly the value of each weight's code |
| Quantize.Dequantize | tools/export_verify.py:213-220 | the slice assignments compute it |
| Quantize.TwoLayers | tools/export_verify.py:186-189 | the loop quantizes the weight and then what the first layer lost; the two layers' sum is as near as the next row says, for every weight |
| Quantize.TwoLayersError | tools/export_verify.py:183-189 | the two layers together lose at most a 450th of the length of any interval that holds zero and the block's weights |
| Telemetry.BucketBounds | src/main.rs:45-46 | a bucket below the top holds the numbers from half its power of two up to just below it |
| Telemetry.RankedExists | src/main.rs:67-67 | every rank is some sample's |
| Telemetry.FirstBucketIsRanked | src/main.rs:68-74 | the first bucket whose running total reaches the rank is the ranked sample's |
| Telemetry.RankedIsNearest | src/main.rs:67-67 | the sample ranked is the nearest-rank percentile: at least that many per cent of the samples are at most it, and fewer are below it |
| Telemetry.ShownIsClose | src/main.rs:71-72 | what is shown is a power of two above the sample and at most twice it, or the maximum in the top bucket |
| Telemetry.Percentile | src/main.rs:63-76 | the loop shows the nearest-rank sample as the next power of two, or the maximum in the top bucket, and never falls through |
| Telemetry.Percentiles | src/main.rs:59-77 | three readings of the same drained buckets |
| Telemetry.UpdateTelemetry.Complete | src/main.rs:37-57 | a finished handler adds one sample to each histogram, a failed one none |
| Telemetry.UpdateTelemetry.LatencyPercentiles | src/main.rs:59-77 | reads the samples since the last reading and forgets them |
| Cards.Luhn | tools/evaluate_intent.py:87-95 | the loop computes the Luhn check |
| Cards.LuhnByPairs | tools/evaluate_intent.py:87-95 | in pairs from the right: the last digit counts as it is, the one before it with the digits of its double |
| Cards.OneWrongDigitIsCaught | tools/evaluate_intent.py:87-95 | a valid number of any length with one digit changed is invalid |
| Cards.SwapIsCaughtUnlessZeroNine | tools/evaluate_intent.py:87-95 | exchanging two different neighbours is caught unless they are 0 and 9 |
| Cards.CheckDigitIsUnique | tools/evaluate_intent.py:87-95 | every payload has exactly one valid last digit |
| Cards.HasCardNumber | tools/evaluate_intent.py:98-119 | true iff some longest run of digits joined by single separators has sixteen digits whose Luhn sum is a multiple of ten |
| Cards.RunIsLongest | tools/evaluate_intent.py:98-119 | what the scanner collects is exactly what a grammar of runs says: digits with at most one separator between two, not extendable on either side |

## Left out

- IdBpe.IdsRefineStrings: for distinct merge pairs, products and all byte pieces in the vocabulary; with a repeated pair the string encoder ranks it by its last line and the id encoder by its first.
- WarningLeases.EarlyClaimNeedsAnEnd: with clocks that run back a claim may end the first lease, so that case is stated; the clock of the source is the caller's.
- DurableStore.Store.ClaimPending: the order of the selection, its limit and `SKIP LOCKED` are a parameter, the selected rows, so it holds for any selection of due rows.
- DurableStore.Store.PurgeStale: the order, the limit and `SKIP LOCKED` are a parameter in the same way.
- DurableStore.Store.ReverseWarning: the moderation case and its event rows are reduced to whether the case can still be reversed.
- DurableStore.Store.ForgetIdle: the scope and order of the choice are a parameter, the chosen rows.
- UnigramSearch.FindBody: normalization and whitespace splitting are the caller's; a text arrives as words.
- WriteSerial.InterleavingsAreSerial: is about the writers that take the capacity lock, as all settings writers do; what a writer checks before it has its locks reads nothing shared but the ownership flag, which it reads again under them.
- Machine widths: counts, sizes and tokens are unbounded, so saturating and wrapping at 32 or 64 bits are not modelled, except the 64-bit stripe hash and the 32-bit cap of a latency.
- Floating point: scores, weights and scales are real numbers, so float32 rounding is not modelled.
- PostgreSQL, migrations, advisory locks and the loading of the mirror at start; the settings object starts empty.
- `validate_persisted_setting` and the parsing of an access hash from text are parameters of the settings model.
- Tally rows, captcha rows, image filters, cases and strict actions, which `forget_chat` also deletes.
- `UpdateWorker` and `Checkpoint` are state machines over events rather than loops with awaits; signal delivery is over-approximated, and only the drain is also written as a loop.
- Lock fairness: which waiter gets a free lock is a free choice, so progress is of the whole, not of each writer.
- The final shutdown in `main` past the cursor gate, where the two cursors may be synchronized independently.
- Telegram calls, session files, the Mini App server, response policy and media evaluation.
- NFKC normalization, whitespace splitting and the character clean-up before the tokenizers: texts arrive as words.
- Universal newline translation when the vocabulary files are read and written; an escaped file contains no carriage return.
- Latency counters in the summary beyond the two histograms, and the gauges `received`, `active` and `queued`.
