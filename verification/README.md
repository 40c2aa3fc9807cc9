# A verified model of the Amalgam cache's protocols and stores

Amalgam is a hybrid cache: an in-process L1 in front of a distributed L2. Its difficult parts
are small hand-written concurrency protocols, bounded stores and a codec fast path. This
project models those parts in Dafny and proves what they promise, for every input and every
interleaving.

`dafny verify dfyconfig.toml` checks the whole project.

## How the parts are modelled

Concurrent protocols are state machines. Every atomic access, and every section under a mutex,
is one step of one thread; a schedule is any sequence of steps of any number of threads, in one
total order. Main results speak about the state after an arbitrary schedule. Stores that are
changed under one lock are classes whose methods are specified against functions of the old
state; what a method promises about whole runs is then proved about those functions.

| part | files |
|---|---|
| reader-slot lock (`src/reader_slots.rs`) | `ReaderSlots.dfy`, `ReaderSlotsSafety.dfy`, `ReaderSlotsProgress.dfy` |
| activity counts, close and drain (`src/execution.rs`) | `Activity.dfy` |
| execution scopes (`src/execution.rs`) | `Scope.dfy`, `ScopePolls.dfy` |
| bounded L1 store (`src/memory.rs`) | `RetentionModel.dfy`, `Retention.dfy` |
| recovery queue and commit fences (`src/recovery.rs`, `src/commit.rs`) | `Recovery.dfy`, `RecoveryRuns.dfy`, `RecoveryService.dfy`, `CommitLanes.dfy` |
| leases and fenced writes (`src/distributed_lock.rs`, `src/distributed.rs`) | `Leases.dfy` |
| canonical codec and framing (`src/distributed.rs`) | `CodecNumbers.dfy`, `CodecEnvelope.dfy`, `JsonReference.dfy`, `SnapshotFrame.dfy` |
| per-key identity slots (`src/locking.rs`) | `Locking.dfy` |
| marker snapshots and observations | `MarkerSnapshots.dfy`, `MarkerReads.dfy` |
| entry lifetimes (`src/entry.rs`) | `EntryLifetimes.dfy`, `Time.dfy` |
| plugin teardown, circuit breaker | `Plugins.dfy`, `Circuit.dfy` |

## Where the code does less than one might expect

Each entry names a lemma that exhibits an input or run on which the stronger property fails,
and a lemma that states exactly when it holds.

- The integer fast path accepts `-0`, which printing never gives. Section 6 of RFC 8259 reads it
  as zero. `serde_json`, to which the code falls back, keeps the sign of zero, reads a bare `-0`
  as a float and refuses it for an `i64`; its source is not part of this model. The general
  decoder therefore takes its treatment of `-0` as a parameter: with a decoder that refuses it,
  the fast path is visible on exactly the envelopes that spell a tick `-0`
  (`JsonReference.NegativeZeroInput`, `JsonReference.NegativeZeroDiffers`;
  `JsonReference.FastPathInvisible`). The source's comment at src/distributed.rs:648-651 promises
  agreement without that exception.
- An exhausted recovery identity sequence is reported after the capacity rule has already
  evicted work (`RecoveryRuns.ExhaustionLosesWork`, reached by a run;
  `RecoveryRuns.ExhaustionMayEvict`).
- A caller's explicit cancellation can win the token while the scope ends with another reason
  (`Scope.CallerCanWinTheToken`; `Scope.TokenAgrees`, on the order of the steps).
- A lost lease is held again if the clock moves back before an expiry nobody has replaced,
  released or swept (`LeaseRuns.BackwardClockRevives`; `LeaseRuns.OnlyTheClockRevives`).
- A leased write is fenced by the proof's key, not by the key it writes
  (`LeaseRuns.TwoKeysInterleave`; `LeaseRuns.CellsFencedExactly`).
- A fail-safe default near the end of the clock carries a backend time to live longer than its
  saturated deadline (`EntryLifetimes.DefaultCanOutliveTheClock`;
  `EntryLifetimes.DefaultIsOrdered`).
- A snapshot renewal that finds the old snapshot expired may store a lower revision
  (`MarkerSnapshots.RevisionCanFall`; `MarkerSnapshots.LoweredExactly`).
- A tag's own durable record disappears when its scope's journal compacts; the invalidation
  itself stays in force (`MarkerSnapshots.TagRecordCanDisappear`;
  `MarkerSnapshots.AdvanceForgetsNothing`).
- The clear that a marker mutation still owes is dropped when a newer marker that has yet to
  advance replaces it (`RecoveryRuns.OwedClearCanBeLost`; `RecoveryRuns.OwedClearSurvives`).
- `drained` waits for a notification alone once it sees an empty task tracker. A token given back
  outside any activity between its failed check and that decision leaves it waiting
  (`ActivityDrain.BareRetirementCanStrand`; `ActivityDrain.NoLostDrain`). Scopes give tokens back
  under an activity; src/execution/cache_request.rs:27-31 gives one back wherever the request is
  cancelled.

## Model

| member | source | states |
|---|---|---|
| `ReaderSlotsSafety.MutualExclusion` | src/reader_slots.rs:217-340 | in every schedule a write guard coexists with no read guard (local, colliding or nested) and no other write guard, although the writer scans bitmap and counts one load at a time |
| `ReaderSlotsSafety.NoLostWakeup` | src/reader_slots.rs:274-292 | a parked reader is counted in `waiting`, and the gate is still kept closed by a writer or the writer that reopened it has yet to check interest or notify |
| `ReaderSlotsSafety.CountsAreExact` | src/reader_slots.rs:217-255 | each slot's shared count is the sum of its threads' shared reservations and its local count is the owner's, so plain stores lose no update and nothing wraps |
| `ReaderSlotsSafety.QuiescentIsClean` | src/reader_slots.rs:372-406 | once all guards are dropped, also after refused writers, the gate is open, both mutexes are free, nobody is counted as waiting and all counts are zero |
| `ReaderSlotsSafety.StepKeeps` | src/reader_slots.rs:217-406 | every atomic step of every thread keeps the inductive invariant |
| `ReaderSlotsSafety.ReachableInv` | src/reader_slots.rs:190-215 | the invariant holds after every schedule from the initial lock |
| `ReaderSlotsSafety.ScanAdvances` | src/reader_slots.rs:293-307 | one load of the writer's scan extends the passed region only over places without guards |
| `ReaderSlotsProgress.UnusedLockIsGranted` | src/reader_slots.rs:308-340 | from any reachable state with the writer mutex free and every count zero, `try_write` and `write` run alone end with the guard |
| `ReaderSlotsProgress.TryWriteAlone` | src/reader_slots.rs:329-340 | from any reachable state with the writer mutex free, `try_write` run alone is refused if some published slot is in use and granted if none is |
| `ReaderSlotsProgress.ReadAlone` | src/reader_slots.rs:256-272 | from any reachable state with the gate open, `read` run alone ends with one more guard, while the slot counts can be incremented |
| `ReaderSlotsProgress.RefusedWriterLeaves` | src/reader_slots.rs:398-406 | a refused writer run alone ends idle with the gate open and the writer mutex free |
| `ActivityDrain.CountsAreExact` | src/execution.rs:384-406 | each stripe's local and shared counts equal its live activities and owned permits in every schedule |
| `ActivityDrain.DrainedMeansDrained` | src/execution.rs:513-555 | `drained` returns only when every activity and permit published before `close`, admitted ones included, is dropped, every task registered before is retired and the activities that retired them have ended |
| `ActivityDrain.CloseCoversAllLive` | src/execution.rs:513-519 | (supporting) everything live when `close` takes effect counts as published before it |
| `ActivityDrain.NoLostDrain` | src/execution.rs:536-555 | a drainer that cannot proceed still has a live activity or task, or a thread about to notify it, unless a token given back outside any activity emptied the tracker right before it decided what to wait for |
| `ActivityDrain.NoLostDrainUnderActivity` | src/execution.rs:603-657 | no wakeup is lost in any schedule that gives tokens back under activities, as scopes do |
| `ActivityDrain.BareRetirementCanStrand` | src/execution.rs:546-547 | a schedule in which a token given back outside any activity leaves a drainer waiting with nothing left to notify it |
| `ActivityDrain.QuietDrainReturns` | src/execution.rs:536-555 | after `close`, with no activity, permit or task left, a drainer run alone from its start or from a wait it can leave returns |
| `ActivityDrain.FirstScanMissesWork` | src/execution.rs:543-545 | a schedule in which the first scan and the task check pass while work registered before `close` is still being destroyed, so the second scan is needed |
| `ActivityDrain.StepKeeps` | src/execution.rs:384-434 | every step of reservation, permit drop, registration, close and drain keeps the invariant |
| `ActivityDrain.ReachableInv` | src/execution.rs:360-376 | the invariant holds after every schedule |
| `Scope.TerminalForever` | src/execution.rs:707-890 | a terminal state and a recorded token reason never change again, whatever follows |
| `Scope.OutcomesMatchState` | src/execution.rs:827-890 | a value is returned at most once and only from Completed, an error carries exactly the terminal reason, no unreachable branch is taken, also when user work panics while polled or destroyed |
| `Scope.CompletedDelivers` | src/execution.rs:853-875 | the scope is Completed exactly when its value was returned, is being returned, or was lost to work that panicked while destroyed |
| `ScopePolls.ValueMeansReadyWork` | src/execution.rs:851-870 | a value is returned, being returned or lost if and only if some poll's work returned ready and the owner's next step found no cancellation and an open registry |
| `ScopePolls.PendingWorkStaysPending` | src/execution.rs:862-868 | work that returned pending under the same conditions leaves the scope pending with unchanged results |
| `ScopePolls.PolledUntilReady` | src/execution.rs:827-890 | a scope polled undisturbed until its work is ready returns exactly one value and ends its token as finished |
| `ScopePolls.DropEndsScope` | src/execution.rs:917-923 | a scope dropped alone ends as dropped by its caller, or by shutdown if the registry is closed |
| `ScopePolls.PanicEndsScope` | src/execution.rs:805-826 | a panicking poll ends the scope likewise and reports the panic |
| `ScopePolls.ClosedPollFails` | src/execution.rs:853-861 | in a closed registry a poll reports shutdown whatever its work returned |
| `ScopePolls.CancelEndsScope` | src/execution.rs:730-764 | a lone canceller ends a pending scope and its token with exactly the reason it asks for |
| `Scope.OwnTokenMatches` | src/execution.rs:729-768 | a token that only its scope cancels carries the terminal reason or the one the poll in flight must adopt |
| `Scope.TokenAgrees` | src/execution.rs:201-233 | in a terminal state the token carries the terminal reason if and only if no explicit caller request won it, or the reason was fixed by an operation that loaded the token after the winning step, or that was asked to cancel for the caller |
| `Scope.WinIsScheduled` | src/execution.rs:290-295 | the winning step is a caller request at that position of the schedule |
| `Scope.RunProvenance` | src/execution.rs:730-764 | in every schedule each recorded reason is the one asked for, or the token's exactly if the token was loaded after the win |
| `Scope.CallerCanWinTheToken` | src/execution.rs:290-295 | a schedule in which the token's reason differs from the terminal reason |
| `Scope.QuietIsAnnounced` | src/execution.rs:917-923 | a dropped scope is terminal, and a terminal scope at rest has ended its token |
| `Scope.StepKeeps` | src/execution.rs:805-890 | every step of poll, cancel, drop, panic and close keeps the invariant |
| `RetentionStore.Retention.Get` | src/memory.rs:1132-1160 | a read refreshes recency, removes a dead entry with its reason, and keeps limits and exact weight |
| `RetentionStore.Retention.Remove` | src/memory.rs:1161-1166 | the weight falls by exactly the removed weight and never underflows |
| `RetentionStore.Retention.RemoveExpired` | src/memory.rs:1167-1185 | exactly the dead entries leave, each retired once with its reason |
| `RetentionStore.Retention.Insert` | src/memory.rs:1186-1221 | the decision for every input: version change, oversize, protected capacity or admission, with the whole new contents and retirements; limits and weight stay exact, and old contents plus any admitted candidate equal new contents plus retirements |
| `RetentionStore.Retention.Admit` | src/memory.rs:1186-1263 | rejected exactly if evicting every eligible entry would not make room, keeping every live entry |
| `RetentionStore.Retention.Plan` | src/memory.rs:1243-1289 | the shortest sufficient prefix of the eviction order, or none exactly when the whole order is not enough; every victim is one the candidate's priority may push out, and is less worthy than every such entry that is spared: lower priority, then less recently used, then alphabetically first; the usage left after every prefix is nonnegative |
| `RetentionStore.PrefixIsFair` | src/memory.rs:1265-1289 | the same, for every prefix of the eviction order, by the priorities themselves |
| `RetentionModel.EligibleExactly` | src/memory.rs:1269-1273 | (supporting) a Low candidate may push out Low entries, a Normal one Low and Normal ones, any other all but NeverRemove |
| `RetentionStore.ReadTwiceThenInsert` | src/memory.rs:1132-1289 | of two entries read one after the other, an insert under pressure never gives up the one read last and keeps the one read first; in a full store of two the one read first goes |
| `RetentionStore.Retention.Projected` | src/memory.rs:1222-1228 | the projection of a candidate, whose subtraction never underflows |
| `RetentionModel.NothingUnderflows` | src/memory.rs:1226-1256 | taking any distinct stored victims off a projection leaves entries and weight nonnegative |
| `RetentionStore.ShortestPrefix` | src/memory.rs:1249-1262 | the victim loop finds the shortest sufficient prefix in unsigned arithmetic |
| `RetentionStore.PlannedVictims` | src/memory.rs:1265-1289 | victims are distinct, never the candidate's key, never NeverRemove, never of higher rank |
| `RetentionStore.VictimsAreLeast` | src/memory.rs:1265-1289 | every victim precedes every spared eligible entry in rank, recency and key order |
| `RetentionModel.VictimOrderSorted` | src/memory.rs:1281-1288 | the eviction order is strictly sorted |
| `RetentionModel.BeforeIsStrictOrder` | src/memory.rs:1281-1288 | rank, access and key give a strict total order |
| `RetentionModel.VictimOrder` | src/memory.rs:1265-1289 | the order lists every eligible entry exactly once |
| `RetentionStore.Retention.Commit` | src/memory.rs:1291-1327 | new contents and usage after eviction and replacement, with one retirement for each departing entry |
| `RetentionStore.Retention.Store` | src/memory.rs:1328-1346 | the stored weight and a fresh ticket are accounted |
| `RetentionStore.InsertConserves` | src/memory.rs:1186-1221 | old contents plus any admitted candidate equal new contents plus retirements, whatever is decided |
| `RetentionStore.AdmissionConserves` | src/memory.rs:1291-1327 | conservation across expiry, eviction and replacement of one admission |
| `RetentionModel.RetiresConserves` | src/memory.rs:1167-1185 | what is left plus what was retired is what was there, as multisets |
| `RetentionModel.ContentsMultiplicity` | src/memory.rs:1104-1112 | each stored representation occurs exactly once in the contents |
| `RetentionStore.Retention.Discard` | src/memory.rs:763-785 | removal of any or only the expected instance |
| `RetentionStore.Retention.RunPendingTasks` | src/memory.rs:823-840 | maintenance leaves exactly the living entries |
| `RetentionStore.Retention.InvalidateAll` | src/memory.rs:800-822 | empties the store, retires every entry exactly once as explicit, and no origin snapshot taken before it matches afterwards |
| `RecoveryRuns.NextKeeps` | src/recovery.rs:652-1016 | every event keeps identities unique, claims, budgets and the bound consistent |
| `RecoveryRuns.RunKeeps` | src/recovery.rs:652-1016 | the invariant holds in every run |
| `RecoveryRuns.GoneForever` | src/recovery.rs:749-765 | an issued identity that left the queue never returns |
| `RecoveryRuns.StaleReplayIsHarmless` | src/recovery.rs:834-1016 | after a replacement and any further run, the old ticket's completion, failure, claim drop and stage transitions change nothing |
| `RecoveryRuns.ReplacementIsNewer` | src/recovery.rs:689-698 | fenced work is replaced only by a newer generation, other work only by superseding work |
| `RecoveryRuns.EnqueueDecides` | src/recovery.rs:689-770 | the whole decision of admission by generations, timestamps, versions, room and identities |
| `RecoveryRuns.OwedIsStrongest` | src/recovery/marker_snapshots.rs:188-205 | (supporting) a marker mutation owes the strongest of its own committed clear and the one it took over |
| `RecoveryRuns.StageOnlyNotifies` | src/recovery.rs:834-896 | an advanced stage never stores again, keeps key, time, expiry and retries, and carries on exactly the notification it had |
| `RecoveryRuns.OwedClearSurvives` | src/recovery.rs:699-721 | the clear a replaced marker mutation owes survives if and only if the newcomer is a marker mutation or a marker that only has to notify |
| `RecoveryRuns.OwedClearCanBeLost` | src/recovery.rs:714-720 | a run from the empty queue in which an owed clear disappears |
| `RecoveryRuns.RetryBudget` | src/recovery.rs:672-676 | in every run a ticket is queued with at most r failures and leaves at exactly its (r+1)-th, where r is its data item's own number of retries, or else the configured one, also for marker work; without either no failure removes it |
| `RecoveryRuns.OriginIsTheRequest` | src/recovery.rs:749-765 | (supporting) an identity stands for the work its admission asked for |
| `RecoveryRuns.ExclusiveClaim` | src/recovery.rs:1005-1016 | no identity is claimed twice at once |
| `RecoveryRuns.Bounded` | src/recovery.rs:723-748 | the queue never exceeds `max_items` in any run |
| `RecoveryRuns.EvictsOnlyEarlier` | src/recovery.rs:728-744 | capacity evicts at most one entry, which expires strictly before the newcomer's bound, never non-expiring marker work |
| `RecoveryRuns.RejectionChangesNothing` | src/recovery.rs:723-748 | capacity rejection happens exactly when a new key meets a full queue with nothing evictable, and changes nothing |
| `RecoveryRuns.ExhaustionMayEvict` | src/recovery.rs:740-750 | exhaustion of identities leaves the queue unchanged if and only if nothing was evictable |
| `RecoveryRuns.ExhaustionLosesWork` | src/recovery.rs:740-750 | a run from the empty service that ends with the exhaustion error costing its only queued work |
| `RecoveryService.AutoRecoveryService.EnqueueWork` | src/recovery.rs:652-771 | early refusals change nothing; otherwise only the work's own key and at most one evicted key change, the evicted one expiring before the bound, and installed work is pending under the reported identity; the queue invariant and its bound hold |
| `RecoveryService.AutoRecoveryService.FindEarliest` | src/recovery.rs:728-739 | the capacity scan finds an expiring entry of least expiry, or none exactly if none expires |
| `RecoveryService.AutoRecoveryService.CompleteTicket` | src/recovery.rs:956-975 | afterwards the identity is queued nowhere, and work under any other identity is untouched |
| `RecoveryService.AutoRecoveryService.Fail` | src/recovery.rs:976-1003 | a claimed ticket loses one attempt and is pending again, or leaves with its last one; other keys are untouched |
| `RecoveryService.AutoRecoveryService.TryClaim` | src/recovery.rs:1005-1016 | claims exactly pending work, under an identity nobody else was replaying, and changes nothing else |
| `RecoveryService.AutoRecoveryService.DropClaim` | src/recovery.rs:496-519 | an unfinished claim makes only its own work pending again, at no cost |
| `RecoveryService.AutoRecoveryService.NotifyStage` | src/recovery.rs:834-896 | advances exactly the stage of the still-queued ticket, keeping identity, attempts and claim |
| `RecoveryService.AutoRecoveryService.Supersede` | src/recovery.rs:774-797 | removes exactly data work up to the generation; what remains under the name is newer |
| `RecoveryService.AutoRecoveryService.CancelUpTo` | src/recovery.rs:799-819 | removes exactly data work up to a time |
| `RecoveryService.AutoRecoveryService.DrainOnce` | src/recovery.rs:1019-1070 | one pass settles every pending entry by its outcome, leaves work in flight alone, adds nothing and gives back every claim it took |
| `RecoveryService.DrainSettles` | src/recovery.rs:1019-1070 | each visited pending entry is settled by its outcome: dead or fenced-out work and successes leave, failures cost one attempt, pauses nothing; the rest is untouched |
| `RecoveryService.DrainKeyIsLocal` | src/recovery.rs:1019-1070 | draining one key changes no other key |
| `CommitLanes.KeyLane.Advance` | src/commit.rs:203-229 | the generation advances by one without wrapping and the timestamp never falls; exhaustion changes nothing |
| `CommitLanes.FenceNeverRevives` | src/commit.rs:194-248 | in every schedule of advances, refused advances, epoch bumps and two-load captures, a captured fence that stops being current, actively or passively, never becomes current again |
| `CommitLanes.RunAdvances` | src/commit.rs:203-213 | generation and epoch never fall in any schedule |
| `CommitLanes.AdvanceEndsOlderFences` | src/commit.rs:214-229 | a successful advance ends every fence captured or half captured before it, for good |
| `CommitLanes.ExhaustedLaneStands` | src/commit.rs:203-213 | at the end of the sequence the generation stands still instead of starting over |
| `LeaseRuns.WritesFallIntoOwnership` | src/distributed.rs:1323-1349 | between a committed write and its token's acquisition nobody else acquired the key, with any clock moves |
| `LeaseRuns.NoStaleWrite` | src/distributed.rs:1323-1349 | after another token acquires the key, no older token's write commits |
| `LeaseRuns.CellsReplayTheLog` | src/distributed.rs:1329-1343 | (supporting) stored values are the replay of the committed writes |
| `LeaseRuns.CellsHoldTheLastWrite` | src/distributed.rs:1323-1349 | in every run a cell holds exactly the bytes and deadline of its last committed Set, and is absent if its last committed write was a Remove or there was none |
| `LeaseRuns.LostStaysLost` | src/distributed_lock.rs:431-468 | with a forward clock and fresh tokens a lost lease is never held again |
| `LeaseRuns.OnlyTheClockRevives` | src/distributed_lock.rs:451-468 | in a run from a world where a used token has lost the key, it holds it again at some point if and only if the clock at some point goes back before the expiry of its still-stored entry |
| `LeaseRuns.BackwardClockRevives` | src/distributed_lock.rs:432-468 | a run from the start that acquires, loses and holds again |
| `LeaseRuns.CellsFencedExactly` | src/distributed.rs:1323-1349 | a cell's committed writes are grouped by token in acquisition order in every run if and only if its writes carry at most one proof key |
| `LeaseRuns.OneKeySerializes` | src/distributed.rs:1323-1349 | with one proof key, once another token has written the cell the earlier one writes it no more, and the groups come in acquisition order |
| `LeaseRuns.TwoKeysInterleave` | src/distributed.rs:1329-1343 | owners of any two keys can interleave writes to any cell |
| `Leases.LeasedStore.TryAcquire` | src/distributed_lock.rs:432-449 | acquires exactly when no unexpired lease exists, then holds until its deadline; other keys are untouched |
| `Leases.LeasedStore.Acquire` | src/distributed_lock.rs:541-564 | the retry loop acquires at the first attempt that finds the lease free, whatever other holders do between attempts, else leaves their map alone |
| `Leases.LeasedStore.Extend` | src/distributed_lock.rs:566-585 | only the unexpired holder renews, and then holds |
| `Leases.LeasedStore.Surrender` | src/distributed_lock.rs:507-520 | releases its own token and never another's |
| `Leases.LeasedStore.HeldCount` | src/distributed_lock.rs:485-494 | lazy sweeping changes nobody's ownership |
| `Leases.LeasedStore.WriteWithLease` | src/distributed.rs:1323-1349 | commits exactly under ownership: a Set leaves its bytes with no deadline or the one its ttl gives, a Remove leaves the cell absent; every other cell, and everything without ownership, is unchanged |
| `CodecNumbers.EightDigits` | src/distributed.rs:382-387 | the packed evaluation equals base-10 evaluation and no 64-bit operation overflows |
| `CodecNumbers.PackedSteps` | src/distributed.rs:382-387 | the three combining steps stay within 64 bits and no lane carries into another |
| `CodecNumbers.Decimal` | src/distributed.rs:368-379 | the exact value of at most nineteen digits |
| `CodecNumbers.ParseI64` | src/distributed.rs:350-365 | accepts exactly an optional minus and the longest digit run when nonempty, without leading zero and at most 2^63-1, with exact value and remainder |
| `CodecNumbers.PrintParse` | src/distributed.rs:348-365 | parsing a printed integer returns it and the remainder exactly if its magnitude is at most 2^63-1 |
| `CodecEnvelope.ParseTags` | src/distributed.rs:690-707 | the tag loop equals the recursive grammar |
| `CodecEnvelope.ParseEntry` | src/distributed.rs:652-711 | the parser with its loops equals the field-by-field specification |
| `CodecEnvelope.StringRoundTrip` | src/distributed.rs:714-724 | a printed escape-free UTF-8 string parses back |
| `CodecEnvelope.StringAccepted` | src/distributed.rs:714-724 | an accepted string is a quoted plain UTF-8 text and the remainder |
| `CodecEnvelope.TagsRoundTrip` | src/distributed.rs:690-707 | printed tag lists parse back |
| `CodecEnvelope.EntryRoundTrip` | src/distributed.rs:652-711 | printing any envelope (ticks not i64::MIN, escape-free strings) and parsing it returns it |
| `CodecEnvelope.LayoutText` | src/distributed.rs:653-689 | (supporting) the literal text before each member |
| `JsonReference.FastPathAgrees` | src/distributed.rs:648-711 | what the fast path accepts, a general RFC 8259 decoder reads as the same envelope, or refuses for an integer spelled `-0` if it does not admit that spelling |
| `JsonReference.FastPathInvisible` | src/distributed.rs:640-645 | fast path with fallback equals the general decoder if and only if the decoder admits `-0`, or the fast path refuses the input, or none of its four integers is spelled `-0` |
| `JsonReference.AdmittingDecoderIsMatched` | src/distributed.rs:640-645 | with a decoder that reads `-0` as zero, the two agree on every input |
| `JsonReference.NegativeZeroDiffers` | src/distributed.rs:1438-1443 | every envelope created at tick zero has a spelling that the fast path accepts and a decoder without `-0` refuses |
| `JsonReference.NegativeZeroInput` | src/distributed.rs:640-645 | one such decoder and input |
| `SnapshotFrame.UnframeAccepts` | src/distributed.rs:317-334 | unframing accepts exactly the framed texts whose header decodes, each with its own payload |
| `SnapshotFrame.FrameLayout` | src/distributed.rs:302-314 | the frame byte by byte: magic, version 2, big-endian header length, header, payload |
| `SnapshotFrame.SnapshotRoundTrip` | src/distributed.rs:287-315 | every valid snapshot survives framing, given inverse payload and general header decoders |
| `SnapshotFrame.HeaderRoundTrip` | src/distributed.rs:327-346 | the header fast path never intercepts a header it would misread |
| `SnapshotFrame.HeaderFits` | src/distributed.rs:300-301 | framing never refuses a header this program builds |
| `SnapshotFrame.CanonicalHeaderExact` | src/distributed.rs:336-346 | the header fast path accepts exactly the printed unspecified headers, with zero also spelled `-0` |
| `SnapshotFrame.MagicNeverFallsBack` | src/distributed.rs:439-460 | magic-prefixed bytes are never read as a legacy payload |
| `SnapshotFrame.EnvelopeIsLegacy` | src/distributed.rs:455-460 | a printed envelope decodes as a legacy snapshot anchored at its creation |
| `SnapshotFrame.BigEndianRoundTrip` | src/distributed.rs:310-325 | (supporting) the 32-bit length survives its encoding |
| `SnapshotFrame.PriorityRoundTrip` | src/distributed.rs:389-407 | (supporting) priority bytes invert both ways |
| `Locking.WeakSlots.Lookup` | src/locking.rs:192-213 | while a holder or waiter keeps a key's control alive every lookup returns it; otherwise a pooled or never used one |
| `Locking.WeakSlots.Drop` | src/locking.rs:8-12 | a departing holder changes no slot |
| `Locking.WeakSlots.CleanAll` | src/locking.rs:214-229 | a maintenance pass sweeps at most its budget, skips busy shards, touches no living control, and with budget to spare leaves no dead slot in the others |
| `Locking.Clean` | src/locking.rs:115-133 | sweeping n keys removes exactly their dead slots and requeues the rest in order |
| `Locking.CleanIdle` | src/locking.rs:67-78 | among the oldest pooled controls within the budget exactly those nobody else holds are dropped, the held ones requeued |
| `Locking.SweepKeepsLive` | src/locking.rs:115-133 | living slots survive, and the sweep queue still lists each slot key exactly once |
| `Locking.CreateMoves` | src/locking.rs:86-112 | creation replaces only a dead control, keeping every living control current |
| `MarkerSnapshots.InvalidationStore.ReadSnapshot` | src/distributed.rs:1138-1160 | reads report at least the durable maximum and drop only expired snapshots |
| `MarkerSnapshots.InvalidationStore.Renew` | src/distributed.rs:1198-1232 | the whole effect of a renewal; the bound holds and the answer is at least the durable maximum |
| `MarkerSnapshots.InvalidationStore.Advance` | src/distributed.rs:1073-1093 | refused exactly for a new scope beyond the bound, changing nothing; otherwise its fact is in force and no invalidation is forgotten, also when tags compact |
| `MarkerSnapshots.AdvanceForgetsNothing` | src/tags.rs:415-452 | an advance keeps every invalidation in force and the tags within their bound; a tag's own record disappears exactly if the advance compacts |
| `MarkerSnapshots.TagRecordCanDisappear` | src/tags.rs:434-451 | two tags in a journal with room for one lose their records and stay covered |
| `MarkerSnapshots.RetainedNeverLowers` | src/marker_snapshots.rs:115-123 | while a snapshot stays retained no run lowers its revision |
| `MarkerSnapshots.BoundAndFactsKept` | src/distributed.rs:1217-1227 | no run exceeds the bound or weakens what invalidates a key |
| `MarkerSnapshots.LoweredExactly` | src/distributed.rs:1198-1232 | a stored revision falls if and only if a timely renewal finds the old snapshot expired and neither its version nor the journal reaches the old one; never below the journal |
| `MarkerSnapshots.RevisionCanFall` | src/distributed.rs:1198-1232 | a run from the empty store in which a revision falls |
| `MarkerReads.ReconcileIsMaximum` | src/marker_reads.rs:128-136 | (supporting) reconciliation is the maximum of both facts and keeps the record exactly when it already is |
| `MarkerReads.RetainedNeverLowers` | src/marker_reads.rs:415-507 | while an observation stays retained no race of admissions, merges and fallbacks lowers it |
| `MarkerReads.FactsArrive` | src/marker_reads.rs:415-507 | a finished merge has raised the store to its maximum and a finished admission kept its own fact |
| `MarkerReads.StoresExactly` | src/marker_reads.rs:415-507 | in every race a stored observation is exactly the maximum of the writer's fact and the one it replaces, or as a fallback the replaced presence |
| `MarkerReads.MergeAlone` | src/marker_reads.rs:480-507 | a lone merge leaves the maximum behind |
| `EntryLifetimes.ChainDescends` | src/entry.rs:610-715 | every chain of changes keeps logical at most physical and the creation instant; a fail-safe entry stays so and its physical deadline never grows |
| `EntryLifetimes.HydratedReads` | src/entry.rs:855-899 | a hydrated entry is fresh while its source is and its memory duration lasts, and alive while its source is and its memory lifetime lasts |
| `EntryLifetimes.ThrottledReads` | src/entry.rs:641-676 | a throttled entry is fresh exactly for the throttle window of its source's life |
| `EntryLifetimes.ExpiredReads` | src/entry.rs:692-715 | an expired entry is fresh only before the given instant and lives on |
| `EntryLifetimes.RoundTripReads` | src/distributed.rs:80-125 | from the wire a fresh entry has the renewed L2 lifetime and a fail-safe one the shorter of that and its own |
| `EntryLifetimes.FreshReads` | src/entry.rs:568-614 | a fresh entry is fresh for its duration plus jitter and alive for the longer of that and its fail-safe maximum |
| `EntryLifetimes.StepDescends` | src/entry.rs:835-905 | the same for each single change, with the remaining time to live exact |
| `EntryLifetimes.GrowsExactly` | src/distributed.rs:80-104 | a physical deadline grows exactly in the L2 snapshot of an entry that is not fail-safe, when the renewed deadline is later |
| `EntryLifetimes.ThrottlingBounds` | src/entry.rs:641-676 | the source's deadline bounds all descendants of a throttled entry |
| `EntryLifetimes.PlanRefinesFresh` | src/entry.rs:186-236 | (supporting) the prepared plan computes what the general construction does for the same options |
| `EntryLifetimes.FreshIsOrdered` | src/entry.rs:568-614 | (supporting) fresh entries are ordered with an exact time to live, whatever the jitter |
| `EntryLifetimes.DefaultIsOrdered` | src/entry.rs:923-950 | fail-safe defaults are ordered; their time to live is exact if and only if the deadline did not saturate |
| `EntryLifetimes.DefaultCanOutliveTheClock` | src/entry.rs:923-950 | a default made at the last tick claims time it does not have |
| `EntryLifetimes.SnapshotIsValid` | src/distributed.rs:80-104 | (supporting) a snapshot of an ordered entry passes validation |
| `Plugins.TeardownOnce` | src/plugins.rs:330-450 | teardown starts at most once, with no callback alive, the unreachable branch is never taken and all observers see one result |
| `Plugins.NothingStartsLater` | src/plugins.rs:330-350 | once teardown started no callback starts, and a published result stays |
| `Plugins.StoppedWakesEveryone` | src/plugins.rs:318-432 | a waiter parked on a stopped slot has been notified, or the task that published the end is about to notify |
| `Plugins.PublishedBeforeNotified` | src/plugins.rs:420-432 | a schedule that reaches the window between publication and notification |
| `Plugins.PluginSlot.RequestStop` | src/plugins.rs:351-385 | tears down at once without callbacks, else leaves it to the last one, and reports a stopped result again |
| `Plugins.PluginSlot.FinishCallback` | src/plugins.rs:387-418 | the last callback of a draining slot tears it down |
| `Plugins.PluginSlot.Callback` | src/plugins.rs:330-349 | callbacks start only while running |
| `Circuit.TransitionsAlternate` | src/circuit.rs:71-125 | in every interleaving reported transitions alternate, starting with an opening, and match the state |
| `Circuit.WindowNeverShrinks` | src/circuit.rs:101-113 | without a reported transition the reopen tick never decreases |
| `Circuit.TripBlocksLaterThan` | src/circuit.rs:101-113 | (supporting) a trip opens past its own failure unless the clock is at its last tick |
| `Circuit.TripOpensFor` | src/circuit.rs:101-113 | a trip keeps the breaker open for its whole duration, at least past the failure and never shorter than before |
| `Circuit.CheckAlone` | src/circuit.rs:71-95 | a lone check is admitted when closed, blocked before the reopen tick, and otherwise makes the one closing transition |
| `Circuit.DisabledStaysClosed` | src/circuit.rs:71-74 | a disabled breaker never opens nor reports a transition |

## Left out

- Weak memory: every atomic access is one step in a total order; orderings, fences, parking initialization and thread-local index allocation are not modelled.
- ReaderSlots bitmap words are sets of slot indices; clearing the lowest bit is removing the least index.
- Which owners outside this model give task tokens back without an activity, and whether they notify by other means; the model allows it at any time.
- `ActivityDrain.CountsAreExact`: counts are unbounded naturals going up, so a counter above the machine word is not modelled.
- `ActivityDrain.DrainedMeansDrained`: tasks registered after `close` are cancelled by their registration and are not part of the guarantee.
- Inline frames, wakers and listeners of scopes, beyond the cancellations they cause; a destructor that panics during another panic, which aborts.
- Cache-bound cancellation requests, whose reason also depends on the registry; scopes use the plain request.
- The retention store takes one clock and origin-revision observation per operation as a parameter; payload reuse in place, sharding and event delivery are not modelled, and weights and monotonic deadlines are unbounded.
- `RecoveryService.AutoRecoveryService.DrainOnce`: runs without interruption here; races at its awaits are the events of `RecoveryRuns`.
- The validation error of inheriting a marker compaction, which well-formed work does not meet.
- Recovery timers, suspension after reconnect and the supervising task.
- Lease acquisition timing: the attempts of the retry loop, with the clock and the lock map they find, are a parameter; tokens are fresh by assumption, as random tokens are; renewal tasks and Redis are left out.
- `CodecNumbers.PackedSteps`: masks and shifts are written as the arithmetic extraction of byte lanes.
- `CodecEnvelope.EntryRoundTrip`: the value codec is abstract and assumed to recover the encoded value when the metadata follows it.
- `SnapshotFrame.SnapshotRoundTrip`: the general header decoder is abstract and assumed to invert the header's serialization where the fast path does not apply.
- `JsonReference.FastPathInvisible`: the general decoder is read off RFC 8259 and the JSON library behind it is not part of this model: its treatment of `-0` is a parameter, and its nesting limit, its sequence form of a structure and its error texts are left out.
- Hash maps choose among equally old marker snapshots in an unspecified order; any choice is allowed.
- `MarkerReads.RetainedNeverLowers`: follows one stored key; lifetimes of the observations are those of `EntryLifetimes`.
- `EntryLifetimes.ChainDescends`: durations are whole ticks, and the eager-refresh fraction and jitter are arbitrary samples within their bounds.
- `src/cache.rs` orchestration, single-flight, options, events, metrics, backplane, Redis and OpenTelemetry integration.
