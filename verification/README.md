# Verified model of the session daemon and the application workspace

This project states and proves, in Dafny, how the stateful core of the repository behaves: the local
daemon that runs provider sessions, and the desktop side that prepares job applications. To check it,
use `dafny verify dfyconfig.toml`.

The code under study changes things step by step and is interrupted at awkward moments: by a crash
between two writes, by an output that pushes back, by another run that passes at an `await`. The model
takes the same shape. Each component has a value for its whole state, a function for one step, and a
run as a sequence of steps chosen by an adversary; what an `await`, a file system or a clock answers is
part of the step. The classes that follow the source change their fields in place, and each method is
tied by its `ensures` to that step function. What each step does is stated once more in plain fields and
numbers, apart from the function that computes it, and the laws are proved about every run.

| file | models |
|---|---|
| `LineageEviction`, `TrashNames` | two-phase eviction of session lineages, with crashes anywhere and the recovery at startup |
| `EventLogs`, `SessionRecovery` | a session's event log and record through crashes, repair and recovery |
| `LineageStore`, `LineageRetention` | running totals, the session index, retention and making room |
| `HistoryPaging` | session and event pages, bounded search |
| `SessionAdmission`, `SessionLimiter`, `WorkspaceLeases` | admission, revocation, release of sessions, as one event loop |
| `Replay`, `Reconnect` | the replay buffer, its subscribers, and a client that comes back |
| `SseWriter`, `SseWriterEnds`, `SseFrames`, `DecimalText` | the bounded writer against an adversarial output, what ends a connection, and the client that reads its frames |
| `ApplicationQueue`, `QueueEffects`, `QueueOrder` | the single-worker queue with snapshot, event log and restarts, what each command does, and whom it promotes |
| `AuditLog` | the rotating audit log, its latch, and the files it sets aside |
| `LineLog` | an append-only file of lines as a crash leaves it, shared by the event log, the queue's log and the audit log |
| `CalendarDates`, `DueDates` | calendar arithmetic after section 21.4.1 of ECMA-262, wall times in zones with gaps and folds, due dates |
| `Critique`, `CritiqueMeaning`, `CritiqueFence`, `CompanyFacts` | the verifier of untrusted findings, what its checks mean, and the fence that says when one is still current |
| `ArtifactStaging` | concurrent runs that write a document and swap its row |

Assumptions used throughout: writing a file by replacement and renaming are atomic; an append that a
crash cuts off leaves part of a line, or the whole line without its newline; ids minted as random are
fresh. Ids, payloads and file contents that the code only compares are numbers here.

## Where the code does less than its text says

Each of these is a lemma with a concrete input, and beside it the exact condition under which the
promise holds.

- A lease that belongs to another session is refused by `create` but not handed back
  (`SessionAdmission.ForeignLeaseStaysHeld`, exact in `SessionAdmission.RefusedLeaseFreedExactly`; the
  comment is at `apps/daemon/src/session-manager.ts:402-408`).
- "Longest waiting first" fails for an ended attempt that is enqueued again, which keeps its old place
  (`QueueOrder.RequeuedAttemptOvertakes`, exact in `QueueOrder.RequeueOrder` and
  `QueueOrder.EnqueueStaysFair`).
- An audit file whose last line lost only its newline is accepted, the next entry is returned as
  written, and the joined line makes the next load set the file aside
  (`AuditLog.ReturnedEntryCanBeLost`, exact over runs in `AuditLog.GivenUpExactly`).
- "A day that begins in a gap begins at the jump" holds only for gaps that begin at midnight
  (`DueDates.StartMissesEarlyGap`, exact in `DueDates.StartIsFirstInstant`).
- Different content hashes among concurrent staging runs do not keep every registered file on disk
  (`ArtifactStaging.DifferentHashesBreak`, exact in `ArtifactStaging.FilesKeptExactly`).
- A critique finding can stay current after the reason for it has gone, because the check for an
  omission reads every draft while the finding depends on the named ones only
  (`CritiqueFence.OmissionOutlivesRepair`, exact in `CritiqueFence.StillDeserved`).
- A trash entry of a root id with a double hyphen, or one that ends in a hyphen, is read back as
  another root (`TrashNames.RootMisread`, exact in `TrashNames.RootOfTrashName`; ids the daemon mints
  are of neither kind).
- Of two drafts of one kind the fence watches the first while quotes are checked in the last
  (`CritiqueFence.SecondDraftIsNotFenced`, exact in `CritiqueFence.UnchangedReadsSame`).
- The fence hashes company facts sorted by id, but the critic is shown the first two by position: two
  facts that change places go unnoticed (`CritiqueFence.ReorderedFactsAreNotFenced`, exact in
  `CompanyFacts.ShownSameExactly`; today's loader keeps a fixed order, which
  `CritiqueFence.LoadedFindingsStand` shows to be what is needed).

## Model

| member | source | states |
|---|---|---|
| `LineageEviction.EvictionIsAtomic` | apps/daemon/src/session-lineage-store.ts:658-698 | In every run with crashes between any two steps, inside the deletion and during recovery: once a startup is through, each lineage ever stored is whole in its place with no tombstone or gone with one, the trash is empty, and no entry was ever unrestorable |
| `LineageEviction.RunsAgree` | apps/daemon/src/session-lineage-store.ts:1049-1083 | At every step of every such run the disk agrees with a store in which an eviction is one atomic step, taken at the tombstone write |
| `LineageEviction.EvictedStaysGone` | apps/daemon/src/session-lineage-store.ts:1061-1073 | A tombstone is final: its root is never a lineage again, through any later steps and crashes |
| `LineageEviction.RecoveryEmptiesTrash` | apps/daemon/src/session-lineage-store.ts:671-698 | Recovery over a listing of the trash removes exactly the listed entries, keeping the agreement with the atomic store |
| `LineageEviction.StartupGetsThrough` | apps/daemon/src/session-lineage-store.ts:455-493 | From the disk any run has left, an uninterrupted startup over a listing of the trash and of the bare directories ends with the store running |
| `LineageEviction.EvictionStore.RecoverInterruptedEvictions` | apps/daemon/src/session-lineage-store.ts:671-698 | The recovery loop: finish what has a tombstone, restore what has none, set aside what cannot be restored |
| `LineageEviction.EvictionStore.EvictLineage` | apps/daemon/src/session-lineage-store.ts:1049-1083 | Rename, tombstone, delete: the three steps in that order |
| `LineageEviction.EvictionTakesEffect` | apps/daemon/src/session-lineage-store.ts:1049-1083 | From any running store of any run, rename, tombstone and delete end running with exactly that root gone, tombstoned, the trash empty, and gone from the simple store too |
| `LineageEviction.CreationTakesEffect` | apps/daemon/src/session-lineage-store.ts:1128-1142 | From any running store, making the directories and writing the record of an unused root stores exactly that tree and changes nothing else |
| `LineageEviction.CrashBeforeCommitRollsBack` | apps/daemon/src/session-lineage-store.ts:671-698 | A crash between the rename and the tombstone, then a startup: every lineage is back as it was |
| `LineageEviction.CrashAfterCommitCompletes` | apps/daemon/src/session-lineage-store.ts:671-698 | A crash after the tombstone, half way through the deletion, then a startup: the same store as an uninterrupted eviction leaves |
| `LineageEviction.CreationCutShort` | apps/daemon/src/session-lineage-store.ts:455-493 | A crash after the directories of a new root and before its record, then a startup: the store is as it was |
| `TrashNames.RootOfTrashName` | apps/daemon/src/session-lineage-store.ts:673-677 | Recovery reads the evicted root back out of the trash name exactly when the root holds no double hyphen and does not end in a hyphen |
| `TrashNames.RootMisread` | apps/daemon/src/session-lineage-store.ts:673-677 | Two concrete roots that are read back as another one |
| `EventLogs.RepairKeepsLongestPrefix` | apps/daemon/src/session-lineage-store.ts:781-836 | Repair keeps the longest prefix of parsing lines with strictly increasing sequences; kept and quarantined lines together are the original lines; repairing again changes nothing |
| `EventLogs.RisingExactly` | apps/daemon/src/session-lineage-store.ts:772-836 | A prefix is good exactly when every line parses and every sequence is above all before it |
| `EventLogs.RepairIsNoopExactly` | apps/daemon/src/session-lineage-store.ts:807-809 | A log is left alone exactly when every line is good and the last one ends in a newline |
| `EventLogs.ScanLog` | apps/daemon/src/session-lineage-store.ts:794-805 | The scanning loop finds the length of the longest good prefix, its first sequence and its last terminal event |
| `EventLogs.RepairEventLog` | apps/daemon/src/session-lineage-store.ts:781-836 | The repaired log, the quarantined lines and the reported count, first sequence and terminal event |
| `SessionRecovery.RecoveryReachesOwed` | apps/daemon/src/session-lineage-store.ts:847-885 | However often recovery crashes and starts over, it ends with a closed record whose status, reason and event count are determined by the disk the first crash left: a closed record stands, else the last terminal event in the log decides, else interrupted with one more event; accepted work is as it was |
| `SessionRecovery.RecoveryOutcome` | apps/daemon/src/session-lineage-store.ts:847-885 | Over all runs and all interrupted recoveries: a closed record stands; an open one whose surviving log ends its terminal events in completed, failed, cancelled or interrupted becomes ended by the provider, failed by the provider, cancelled by the client, or interrupted by the restart; without such an event it is interrupted, counted as one more event |
| `SessionRecovery.UpStepsTakeEffect` | apps/daemon/src/session-lineage-store.ts:1192-1272 | Field by field what an event, an acceptance, a finalization and a change of scope do to record, log and memory, with the cap at 5000 lines |
| `SessionRecovery.RecoveryOwesSame` | apps/daemon/src/session-lineage-store.ts:847-885 | No single recovery step, torn append or crash changes that outcome |
| `SessionRecovery.RecoveryFinishes` | apps/daemon/src/session-lineage-store.ts:847-885 | Load, recover and close without a crash always finish |
| `SessionRecovery.InterruptedLineIsLast` | apps/daemon/src/session-lineage-store.ts:867-871 | The synthesized interrupted line is appended behind all others with a sequence above every earlier one |
| `SessionRecovery.RunsStayConsistent` | apps/daemon/src/session-lineage-store.ts:754-768 | At every moment of every run the record and line count in memory are what a fresh load of the disk gives, and sequences in the log rise |
| `SessionRecovery.EventsAreCounted` | apps/daemon/src/session-lineage-store.ts:1188-1209 | The event count a restart would find grows by exactly one per event, also beyond the full log, and by nothing else; a cut append adds one or nothing |
| `SessionRecovery.AcceptedForever` | apps/daemon/src/session-lineage-store.ts:1218-1226 | Once accepted work is on disk as accepted, no run ever shows it otherwise |
| `SessionRecovery.SessionJournal.AppendEvent` | apps/daemon/src/session-lineage-store.ts:1188-1209 | The whole new state of record, log and memory after one event, below and above the log cap |
| `SessionRecovery.SessionJournal.MarkAcceptedWork` | apps/daemon/src/session-lineage-store.ts:1218-1226 | Only unknown to accepted, and a repeat changes nothing |
| `SessionRecovery.SessionJournal.FinalizeSession` | apps/daemon/src/session-lineage-store.ts:1229-1237 | Status, reason and completion time are written; accepted work is not touched |
| `SessionRecovery.SessionJournal.LoadSession` | apps/daemon/src/session-lineage-store.ts:754-763 | Repair, then the larger of the record's count and the lines on disk |
| `SessionRecovery.SessionJournal.RecoverSession` | apps/daemon/src/session-lineage-store.ts:847-885 | Recovery of one session ends with a closed record |
| `LineageStore.TotalsStayExact` | apps/daemon/src/session-lineage-store.ts:909-931 | After creating, writing, appending or evicting, running bytes, line counts and the session index equal a fresh measurement of the disk |
| `LineageStore.After` | apps/daemon/src/session-lineage-store.ts:909-931 | So it is after any sequence of operations from the empty store |
| `LineageStore.WriteKeepsExact` | apps/daemon/src/session-lineage-store.ts:909-914 | Adjusting the byte count by the difference in file size keeps it equal to a measurement |
| `LineageStore.AppendKeepsExact` | apps/daemon/src/session-lineage-store.ts:916-922 | So does adding a line's bytes and its newline, and the line count |
| `LineageStore.AddKeepsExact` | apps/daemon/src/session-lineage-store.ts:1130-1142 | A new session in an old or a new lineage is indexed and counted |
| `LineageStore.EvictKeepsExact` | apps/daemon/src/session-lineage-store.ts:1075-1077 | Eviction removes the lineage's sessions from the index and nobody else's |
| `LineageStore.LocateFinds` | apps/daemon/src/session-lineage-store.ts:1283-1290 | A session is found exactly when the index names it |
| `LineageStore.WriteTakesEffect` | apps/daemon/src/session-lineage-store.ts:909-914 | A written record is the session's new one; its log, every other session and the index stay, and the byte count moves by the difference |
| `LineageStore.AppendTakesEffect` | apps/daemon/src/session-lineage-store.ts:916-922 | An appended line is one more line of the session, its bytes counted with the newline; all else stays |
| `LineageStore.AddTakesEffect` | apps/daemon/src/session-lineage-store.ts:1130-1142 | A new session is open, empty and indexed, last in its root's lineage or alone in a new one |
| `LineageStore.EvictTakesEffect` | apps/daemon/src/session-lineage-store.ts:1075-1077 | Exactly one lineage, its directory and its sessions' index entries go |
| `LineageRetention.PickVictim` | apps/daemon/src/session-lineage-store.ts:967-971 | The victim is the first of the stably sorted candidates: eligible, none eligible older, none before it as old; none only when there is no candidate |
| `LineageRetention.EvictExpired` | apps/daemon/src/session-lineage-store.ts:983-988 | After the age pass no candidate is past its age, only candidates past it went, and the oldest went first |
| `LineageRetention.EvictOverQuota` | apps/daemon/src/session-lineage-store.ts:990-1001 | The quota passes stop with both quotas held or no candidate left; the last victim was needed |
| `LineageRetention.EnforceRetention` | apps/daemon/src/session-lineage-store.ts:980-1001 | Retention never takes an active or excluded lineage, leaves no expired candidate, takes no quota victim newer than a surviving candidate, loses nothing else, terminates, and returns with both quotas held or no candidate left |
| `LineageRetention.MakeRoomForOneMore` | apps/daemon/src/session-lineage-store.ts:1011-1035 | The same, and there is room for one more record with bytes below the budget, or storage is full and no candidate is left |
| `LineageRetention.ProtectedSurvives` | apps/daemon/src/session-lineage-store.ts:967-971 | Every active or excluded lineage is still there, unchanged, after any retention pass |
| `LineageRetention.RetainedMeans` | apps/daemon/src/session-lineage-store.ts:967-988 | Read off the sessions: what went had no open session and was not excluded; by age went only lineages all of whose sessions are longer ago than allowed, and no closed, unexcluded one like that is left |
| `LineageRetention.QuotaCountsSessions` | apps/daemon/src/session-lineage-store.ts:955-965 | The record count a quota is held against is the number of indexed sessions, and its bytes are those of all files on disk |
| `LineageRetention.SessionLineageStore.Create` | apps/daemon/src/session-lineage-store.ts:1105-1142 | Creating a session keeps the totals exact and the record quota, or reports full storage with no candidate left; in both cases what was evicted on the way is what retention allows |
| `LineageRetention.SessionLineageStore.WriteRecord` | apps/daemon/src/session-lineage-store.ts:909-914 | The new state of memory and disk after a record is replaced |
| `LineageRetention.SessionLineageStore.AppendLine` | apps/daemon/src/session-lineage-store.ts:916-922 | The new state of memory and disk after a line is appended |
| `LineageRetention.SessionLineageStore.Enforce` | apps/daemon/src/session-lineage-store.ts:980-1001 | The startup retention pass on the store object |
| `HistoryPaging.ListingIsStable` | apps/daemon/src/session-lineage-store.ts:1297-1306 | Newest first with ids breaking ties is a total order: the same records in any arrangement list the same |
| `HistoryPaging.PagesYieldAll` | apps/daemon/src/session-lineage-store.ts:1308-1326 | Following cursors with any limit of at least 1 yields every item once, in order; a cursor is refused exactly when no item bears it |
| `HistoryPaging.SessionPagesYieldAll` | apps/daemon/src/session-lineage-store.ts:1308-1326 | Every retained session is paged exactly once, newest first |
| `HistoryPaging.EventPagesYieldAll` | apps/daemon/src/session-lineage-store.ts:1346-1366 | Every event of a repaired log is paged exactly once, in order |
| `HistoryPaging.SearchEvents` | apps/daemon/src/session-lineage-store.ts:1381-1420 | An unknown cursor is refused and no other; a page is the unbounded scan of the whole sessions it covered, covers at least one and at most 200, stops as soon as enough matches are in, and its cursor names the last session scanned |
| `HistoryPaging.SearchAll` | apps/daemon/src/session-lineage-store.ts:1381-1420 | Pages concatenated by following cursors equal one unbounded scan, for any limit; the unscanned sessions strictly decrease |
| `HistoryPaging.ScanFindsExactly` | apps/daemon/src/session-lineage-store.ts:1381-1420 | A scan finds exactly the events of the covered sessions that hold the needle, each with its number and the first field that holds it |
| `SessionAdmission.AdmissionConserved` | apps/daemon/src/session-manager.ts:393-491 | After any run held reservations are exactly the admitted sessions whose `finally` has not run, counters are exact and within 4 and 2, no release underflows, and two live leased sessions never share a workspace |
| `SessionAdmission.AdmittedExactly` | apps/daemon/src/session-manager.ts:393-491 | A session is admitted exactly when the provider is known, the lease is its own, the workspace is not blocked, the epoch is the expected one, four sessions and two of its provider are not reached, and the launch works; each refusal has its own cause, the first in this order |
| `SessionAdmission.AdmissionTakesEffect` | apps/daemon/src/session-manager.ts:435-491 | An admitted session is live, holds its reservation and is listed under its workspace; blocks, epochs and leases stay |
| `SessionAdmission.FinallyTakesEffect` | apps/daemon/src/session-manager.ts:661-690 | The end of a session frees its reservation, its leases and its index entry, and nobody else's |
| `SessionAdmission.OtherStepsTakeEffect` | apps/daemon/src/session-manager.ts:818-835 | Blocking and allowing set exactly one workspace and count its epoch up by one; a lease on a free workspace is taken; a removal leaves the index only |
| `SessionAdmission.RunsAreSound` | apps/daemon/src/session-manager.ts:661-690 | The invariant behind it: reservations, leases and the workspace index agree with the live sessions after every step |
| `SessionAdmission.RefusalLeavesNoTrace` | apps/daemon/src/session-manager.ts:476-491 | A refused create changes nothing but freeing the refused session's own leases |
| `SessionAdmission.RefusedLeaseFreedExactly` | apps/daemon/src/session-manager.ts:402-491 | The lease passed to a refused create is handed back exactly when it is the refused session's own |
| `SessionAdmission.ForeignLeaseStaysHeld` | apps/daemon/src/session-manager.ts:402-483 | A concrete run that ends in a refused create whose foreign lease stays held, unlike what the comment says |
| `SessionAdmission.SameEpochMeansUntouched` | apps/daemon/src/session-manager.ts:818-835 | The epoch is equal at two moments exactly when no block and no allow of the workspace ran in between |
| `SessionAdmission.AdmissionMeansUntouched` | apps/daemon/src/session-manager.ts:419-434 | A create with the epoch read at an earlier moment admits only when no block or allow ran since |
| `SessionAdmission.TrustMeansUntouched` | apps/daemon/src/session-manager.ts:895-918 | `workspaceIsTrusted` answers yes exactly when both collaborators do, the workspace was open when the epoch was read, and no block or allow ran until the answer |
| `SessionAdmission.NoAdmissionWhileBlocked` | apps/daemon/src/session-manager.ts:832-835 | From a block until the next allow no session is admitted in the workspace |
| `SessionAdmission.RevokeReturnsRunning` | apps/daemon/src/session-manager.ts:845-856 | Revocation returns exactly the sessions that run in the workspace at the block |
| `SessionAdmission.RevokeIsComplete` | apps/daemon/src/session-manager.ts:845-856 | Whatever still runs there later, before an allow, was in the returned list |
| `SessionAdmission.SessionManager.Create` | apps/daemon/src/session-manager.ts:393-491 | The whole new state after an admission or a refusal, with the reason |
| `SessionAdmission.SessionManager.RevokeWorkspace` | apps/daemon/src/session-manager.ts:845-856 | Block, then read the index, with no step in between |
| `SessionAdmission.SessionManager.ConsumeFinally` | apps/daemon/src/session-manager.ts:661-690 | The `finally`: reservation, leases and index entry of the session go, and nobody else's |
| `Replay.RunsAreFaithful` | apps/daemon/src/session-manager.ts:591-660 | After any steps event i carries sequence i, the byte count is the exact sum within both caps, the buffer is a prefix of everything emitted, and each subscriber saw what it should |
| `Replay.EmittedOnlyGrows` | apps/daemon/src/session-manager.ts:618-656 | Delivered events are never changed, also across the replacement of an oversized event, and an ended stream delivers nothing more |
| `Replay.SubscriberSeesEachOnce` | apps/daemon/src/session-manager.ts:998-1012 | A subscriber sees each event from its index on once and in order exactly when nothing it asked for had been dropped when it joined |
| `Replay.NothingDroppedBeforeLatch` | apps/daemon/src/session-manager.ts:709-723 | Until the latch every subscriber joins a complete buffer |
| `Replay.RunsKeepLongest` | apps/daemon/src/session-manager.ts:709-723 | After any steps the buffer is the longest prefix of the delivered events within 5000 events and 16 MiB, and the latch is set exactly when it is not all of them |
| `Replay.StepsTakeEffect` | apps/daemon/src/session-manager.ts:591-660 | What one event, an oversized one, its replacement and a subscription do to the stream and to every subscriber |
| `Replay.SessionRuntime.StoreEnvelope` | apps/daemon/src/session-manager.ts:709-723 | What one stored or dropped envelope does to buffer, byte count and latch |
| `Replay.SessionRuntime.HandleEvent` | apps/daemon/src/session-manager.ts:591-660 | One event of an ordinary size: numbered, stored, delivered to every listener |
| `Replay.SessionRuntime.AddSubscriber` | apps/daemon/src/session-manager.ts:998-1012 | Replay from an index, then live delivery |
| `SessionLimiter.ReservedExact` | apps/daemon/src/active-session-limiter.ts:81-101 | A reservation keeps per-provider counts equal to the held map's counts and both limits |
| `SessionLimiter.JudgedExactly` | apps/daemon/src/active-session-limiter.ts:81-125 | A session is admitted exactly when it holds nothing yet, fewer than four are held and fewer than two of its provider |
| `SessionLimiter.ReleasedExact` | apps/daemon/src/active-session-limiter.ts:112-124 | So does a release, and the underflow throw is unreachable |
| `SessionLimiter.ReleaseUndoesReserve` | apps/daemon/src/active-session-limiter.ts:81-124 | A release undoes its reservation, a second one changes nothing |
| `SessionLimiter.ActiveSessionLimiter.Reserve` | apps/daemon/src/active-session-limiter.ts:81-101 | Admits or refuses by the global limit first; a refusal changes nothing |
| `SessionLimiter.ActiveSessionLimiter.Release` | apps/daemon/src/active-session-limiter.ts:112-124 | Idempotent release |
| `WorkspaceLeases.OneLeasePerWorkspace` | apps/daemon/src/workspace-execution-lease.ts:140-181 | With write acquires only, two leases on one workspace are one lease |
| `WorkspaceLeases.AcquireKeeps` | apps/daemon/src/workspace-execution-lease.ts:140-181 | An acquire keeps exclusion and is granted exactly when no lease names the workspace |
| `WorkspaceLeases.ReleaseKeeps` | apps/daemon/src/workspace-execution-lease.ts:188-197 | A release frees exactly that lease, an unknown id changes nothing |
| `WorkspaceLeases.ReleasedForUnique` | apps/daemon/src/workspace-execution-lease.ts:200-204 | The order in which a session's leases are released does not matter |
| `WorkspaceLeases.WorkspaceExecutionLeaseManager.AcquireWrite` | apps/daemon/src/workspace-execution-lease.ts:140-181 | The new lease maps, or a conflict with its reason that grants nothing |
| `WorkspaceLeases.WorkspaceExecutionLeaseManager.ReleaseForSession` | apps/daemon/src/workspace-execution-lease.ts:200-204 | Frees every lease of the session and no other |
| `SseWriter.ConnectionKeepsLaw` | apps/daemon/src/sse-writer.ts:81-205 | For every sequence of calls and output behaviours: output history unbroken, handed frames followed by the queue are the accepted frames, bounds and exact byte count, a drain awaited exactly under backpressure, end and onClose exactly when closed |
| `SseWriter.ConnectionDeliversInOrder` | apps/daemon/src/sse-writer.ts:81-205 | Frames handed over are a prefix of those accepted, nothing but a drain and the end follows a terminal frame, nothing follows the end, nothing is sent between a push-back and the drain, `end` and `onClose` at most once, 256 frames and 4 MiB, and no queue without backpressure |
| `SseWriter.AfterDrainKeeps` | apps/daemon/src/sse-writer.ts:148-173 | One drain with an output that accepts flushes everything |
| `SseWriter.NothingAcceptedAfterTerminal` | apps/daemon/src/sse-writer.ts:95-99 | A writer that saw a terminal event or closed takes on nothing more |
| `SseWriter.AcceptedIsPrefixOfWrites` | apps/daemon/src/sse-writer.ts:95-115 | Accepted frames are a prefix of the written ones, all of them while the writer is in service |
| `SseWriter.PeerSeesPrefix` | apps/daemon/src/sse-writer.ts:51-55 | Wherever the byte stream is cut, a client following section 9.2 of the WHATWG HTML Living Standard has dispatched a prefix of the accepted events |
| `SseWriter.BoundedSseWriter.Write` | apps/daemon/src/sse-writer.ts:95-115 | The new state after a write: handed over, queued, dropped, or the writer given up |
| `SseWriter.BoundedSseWriter.HandOff` | apps/daemon/src/sse-writer.ts:129-146 | The new state after the output accepted, pushed back or threw |
| `SseWriter.BoundedSseWriter.HandleDrain` | apps/daemon/src/sse-writer.ts:148-173 | The new state after a drain: the draining loop or the delayed end |
| `SseWriter.BoundedSseWriter.Overflow` | apps/daemon/src/sse-writer.ts:175-180 | Overflow empties the queue and finishes |
| `SseWriterEnds.WriteTakesEffect` | apps/daemon/src/sse-writer.ts:95-115 | Behind backpressure a frame is queued, with the writer open, while 256 frames and 4 MiB are not exceeded, and ends the connection otherwise; without backpressure it is handed over at once |
| `SseWriterEnds.ClosedExactly` | apps/daemon/src/sse-writer.ts:61-205 | Over all connections: closed exactly when close was called, the replay was over with no terminal event, the output threw or took the terminal frame, a drain came behind one, or a write found a bound exceeded |
| `SseWriterEnds.HistoryIsAnswered` | apps/daemon/src/sse-writer.ts:129-173 | Every reply in a connection's history is the output's own |
| `SseWriterEnds.QueuedSpelled` | apps/daemon/src/sse-writer.ts:95-101 | A frame counts with its size in UTF-8, and completed, failed and cancelled are the terminal kinds |
| `SseFrames.StreamRoundTrip` | apps/daemon/src/sse-writer.ts:51-55 | The opening comment and any frames are read back by such a client as exactly the framed events |
| `SseFrames.CutStreamIsPrefix` | apps/daemon/src/sse-writer.ts:51-55 | Any part of a stream delivers a prefix of the events |
| `SseFrames.FeedFrame` | apps/daemon/src/sse-writer.ts:51-55 | One frame delivers exactly its event and leaves the client idle |
| `Reconnect.ReconnectShowsEachOnce` | apps/daemon/src/routes/sessions.ts:130-200 | Any number of connections, each cut anywhere and each from the id the client sends back, each joined when caught up or with nothing dropped: together a prefix of the session's events, none twice and none missing |
| `Reconnect.LastIdIsNumber` | apps/daemon/src/routes/sessions.ts:135-140 | The index computed from the last id is the number of events already dispatched |
| `ApplicationQueue.RunsKeepQueue` | apps/daemon/src/application-queue-store.ts:282-398 | Over all runs with crashes and restarts, every snapshot ever on disk and every state in memory has unique attempt ids and a lease exactly when one entry is active and names it; event numbers in the log strictly increase |
| `ApplicationQueue.DecideKeeps` | apps/daemon/src/application-queue-store.ts:282-398 | Every transition keeps that and never lowers the event counter |
| `ApplicationQueue.OneActiveEntry` | apps/daemon/src/application-queue-store.ts:308-328 | At most one entry is active, and there is a lease exactly when one is |
| `ApplicationQueue.EveryBootEndsIdle` | apps/daemon/src/application-queue-store.ts:178-193 | Startup after any run ends with no lease and no active entry |
| `ApplicationQueue.EndedLeaseStaysEnded` | apps/daemon/src/application-queue-store.ts:330-343 | A lease that has ended never comes back, so its late release never does anything |
| `ApplicationQueue.PerformOk` | apps/daemon/src/application-queue-store.ts:233-245 | Every cut between the snapshot write and the log append leaves a good disk |
| `ApplicationQueue.ClearedEventsStayGone` | apps/daemon/src/application-queue-store.ts:267-274 | After the first write of a clear, even when the log was never truncated, no earlier event is ever replayed |
| `QueueEffects.KnownEntryMoves` | apps/daemon/src/application-queue-store.ts:282-398 | Pause, resume, skip, cancel and enqueue of an attempt in the queue: which states allow it, the state and event that follow, when the lease ends, and that everything else stays |
| `QueueEffects.UnknownAttempt` | apps/daemon/src/application-queue-store.ts:282-306 | An unknown attempt is appended by an enqueue and not found by anything else |
| `QueueEffects.AcquireMoves` | apps/daemon/src/application-queue-store.ts:308-328 | The first queued entry becomes active under the new lease, unless there is a lease |
| `QueueEffects.ReleaseMoves` | apps/daemon/src/application-queue-store.ts:330-343 | The holder's release queues the active entry again, or makes it done or failed, and ends the lease; another's does nothing |
| `QueueEffects.ChangeTakesEffect` | apps/daemon/src/application-queue-store.ts:233-245 | In any run a command that changes something leaves the changed queue in memory and on disk, its event with the next number in the log, and the last 500 events to replay |
| `QueueEffects.ChangeCutShort` | apps/daemon/src/application-queue-store.ts:233-245 | Where a crash inside a command can leave snapshot and log |
| `QueueEffects.BootTakesEffect` | apps/daemon/src/application-queue-store.ts:178-193 | Startup queues the leased entry again, drops the lease and logs the release; without a lease it changes nothing |
| `QueueEffects.RunsReplayExactly` | apps/daemon/src/application-queue-store.ts:219-232 | After any run over a readable log exactly the last 500 events not below the floor are offered for replay |
| `QueueOrder.RequeueOrder` | apps/daemon/src/application-queue-store.ts:282-300 | With a clock past every time in the queue, enqueueing an ended attempt again leaves the live entries in the order they were queued exactly when no live entry stands behind its place |
| `QueueOrder.OrderKeptExactly` | apps/daemon/src/application-queue-store.ts:282-398 | For any clock: from a queue in order, a command leaves it in order exactly when it is no enqueue out of turn |
| `QueueOrder.RunsPromoteLongest` | apps/daemon/src/application-queue-store.ts:303-322 | Over all runs with crashes and restarts in which every enqueue came in turn, the entry the scheduler promotes is the longest-waiting one |
| `QueueOrder.FairExactlyInOrder` | apps/daemon/src/application-queue-store.ts:303-322 | From any reachable queue, every later promotion without a further enqueue is of the longest-waiting entry exactly when the live entries are in order; otherwise a continuation that promotes another is constructed |
| `QueueOrder.EnqueueStaysFair` | apps/daemon/src/application-queue-store.ts:282-322 | An enqueue from a queue in order leaves the scheduler fair from there on exactly when it is in turn |
| `QueueOrder.RequeuedAttemptOvertakes` | apps/daemon/src/application-queue-store.ts:282-322 | A concrete run after which an ended attempt enqueued again is promoted over one that has waited longer |
| `ApplicationQueue.ApplicationQueueStore.Enqueue` | apps/daemon/src/application-queue-store.ts:282-306 | The new queue, snapshot, log and recent events after an enqueue |
| `ApplicationQueue.ApplicationQueueStore.AcquireNextLease` | apps/daemon/src/application-queue-store.ts:308-328 | The new state when the worker takes the next entry, or there is none |
| `ApplicationQueue.ApplicationQueueStore.ReleaseLease` | apps/daemon/src/application-queue-store.ts:330-343 | The new state after a release with a matching or a stale lease id |
| `ApplicationQueue.ApplicationQueueStore.ReconcileStaleLease` | apps/daemon/src/application-queue-store.ts:178-193 | Startup: a leased entry is queued again and the lease is dropped |
| `ApplicationQueue.ApplicationQueueStore.Clear` | apps/daemon/src/application-queue-store.ts:267-274 | The replay floor is raised before the log is emptied |
| `AuditLog.RunsConserve` | apps/daemon/src/audit-store.ts:199-272 | After any run, with failed writes, crashes inside an append and restarts anywhere: sealed segments, files set aside and the active file, in order, hold every entry that reached the disk once and in order, so every returned one with only unreturned ones between; each file is numbered from 0 without a gap, and no file set aside is deleted |
| `AuditLog.AppendConserves` | apps/daemon/src/audit-store.ts:295-339 | One append keeps this with any faults, returns an entry exactly when it becomes the next returned one on disk, and rotates at most once, by a measure on the active bytes |
| `AuditLog.FittingAppend` | apps/daemon/src/audit-store.ts:295-339 | An append that fits and meets no fault is written with the next number and the time of the call; each fault leaves its own file and a latched store |
| `AuditLog.RotatingAppend` | apps/daemon/src/audit-store.ts:371-407 | An append that does not fit seals the active file under the time of the rotation and is number 0 of the next one, or is too large |
| `AuditLog.LoadGivesBack` | apps/daemon/src/audit-store.ts:199-254 | A restart of a healthy store over a file that loads gives back the same entries, bytes and next sequence |
| `AuditLog.DiskReadsBack` | apps/daemon/src/audit-store.ts:371-407 | While every file is readable and everything that landed was returned, archives and then the active file read back as all successful appends in order, and every file loads |
| `AuditLog.LatchHolds` | apps/daemon/src/audit-store.ts:295-300 | After a failed write no later append succeeds or changes anything |
| `AuditLog.FailedWriteLatches` | apps/daemon/src/audit-store.ts:325-339 | Every append that reports the store unavailable leaves it latched |
| `AuditLog.RestartFinds` | apps/daemon/src/audit-store.ts:199-272 | After any run a restart gives back all the active file holds, or nothing with the whole file set aside, or a latched store when it cannot be set aside |
| `AuditLog.GivenUpExactly` | apps/daemon/src/audit-store.ts:211-254 | After any run the active file does not load exactly when, since it was begun, a line was torn or something landed behind a line that had lost its newline |
| `AuditLog.YoungSegmentsStay` | apps/daemon/src/audit-store.ts:416-452 | After any run whose clock never passed t, every past file is still there but for archive segments older than the maximum age at t; files set aside are never pruned |
| `AuditLog.RestartPrunesExactly` | apps/daemon/src/audit-store.ts:416-452 | Right after a restart at t whose deletions work, exactly those segments are gone |
| `AuditLog.AppendAfterLoadIsReadable` | apps/daemon/src/audit-store.ts:211-232 | A file that loads keeps loading after the next append exactly when it ended in a newline |
| `AuditLog.ReturnedEntryCanBeLost` | apps/daemon/src/audit-store.ts:199-339 | A concrete run: an append that loses its newline, a restart, a returned append, a restart; the returned entry can no longer be read |
| `AuditLog.FollowPages` | apps/daemon/src/audit-store.ts:463-481 | What following the cursors collects is every entry once, in order |
| `AuditLog.LoadLines` | apps/daemon/src/audit-store.ts:211-232 | The load loop accepts exactly the files that are readable and numbered from 0, with all their entries |
| `AuditLog.AuditStore.AppendEntry` | apps/daemon/src/audit-store.ts:295-339 | The new state and the outcome of one append |
| `AuditLog.AuditStore.Rotate` | apps/daemon/src/audit-store.ts:371-407 | The new state after a rotation that works or fails |
| `AuditLog.AuditStore.PruneExpiredSegments` | apps/daemon/src/audit-store.ts:416-452 | The pruning loop deletes exactly the expired segments that can be deleted |
| `CalendarDates.ParseOfFormat` | apps/desktop/electron/application-actions-core.ts:80-90 | Reading a written date of the supported years gives it back |
| `CalendarDates.FormatOfParse` | apps/desktop/electron/application-actions-core.ts:80-90 | Only real dates of the supported years are read, and writing one gives the text back |
| `CalendarDates.ParseOfFormatWall` | apps/desktop/electron/application-actions-core.ts:92-101 | The same for wall times, one way |
| `CalendarDates.FormatOfParseWall` | apps/desktop/electron/application-actions-core.ts:92-101 | and the other |
| `CalendarDates.DaysInIsMonthLength` | apps/desktop/electron/application-actions-core.ts:75-77 | Day 0 of the next month is the length of the month, leap years included |
| `CalendarDates.NextDayIsSuccessor` | apps/desktop/electron/application-actions-core.ts:215-218 | One day of milliseconds later is the calendar successor across months, years and leap days |
| `CalendarDates.DayFromYearIsFormula` | apps/desktop/electron/application-actions-core.ts:75-77 | Counting years one by one is the closed form of section 21.4.1 of ECMA-262 that Date.UTC uses |
| `CalendarDates.CivilOfDayNumber` | apps/desktop/electron/application-actions-core.ts:215-218 | Dates to day numbers and back, one way |
| `CalendarDates.DayNumberOfCivil` | apps/desktop/electron/application-actions-core.ts:215-218 | and the other, for every day number |
| `DueDates.OffsetRecovered` | apps/desktop/electron/application-actions-core.ts:160-180 | Reading the wall clock's parts and rounding gives the zone's offset back at every instant |
| `DueDates.CandidatesExact` | apps/desktop/electron/application-actions-core.ts:195-204 | For a whole-minute offset below 24 hours that changes at most once within a day either side: exactly the instants that show the wall time |
| `DueDates.CandidatesCounted` | apps/desktop/electron/application-actions-core.ts:195-204 | None exactly in a gap, two exactly in a fold with the earlier one first and carrying the offset from before the change, one otherwise |
| `DueDates.StartIsFirstInstant` | apps/desktop/electron/application-actions-core.ts:207-213 | The computed start of a local day is its first instant exactly when midnight is shown, or the gap begins at midnight and is shorter than a day |
| `DueDates.StartMissesEarlyGap` | apps/desktop/electron/application-actions-core.ts:207-213 | 31 March 2024 in a concrete zone whose gap begins before midnight: the day starts earlier than computed |
| `DueDates.DateIsDueInItsZone` | apps/desktop/electron/application-actions-core.ts:274-290 | Of the input itself: a readable date is due, in the zone its name stands for, at the first instant of its successor exactly unless a gap swallows that midnight and does not begin at it |
| `DueDates.TimeIsDueInItsZone` | apps/desktop/electron/application-actions-core.ts:292-322 | Of the input itself: a readable time is resolved, in the zone its name stands for and by the input's own choice, as nonexistent, ambiguous or the instant meant |
| `DueDates.RefusedExactly` | apps/desktop/electron/application-actions-core.ts:271-294 | Unknown zone, unreadable date and unreadable time are refused exactly for that, the zone first |
| `DueDates.ResolveAgain` | apps/desktop/electron/application-actions-core.ts:271-323 | Resolving the stored fields again gives the same due, in any zone |
| `DueDates.ResolveTimeExact` | apps/desktop/electron/application-actions-core.ts:292-322 | A time is nonexistent exactly when no instant shows it, ambiguous exactly when two do and none was picked, and otherwise resolves to the unique, the earlier or the later one |
| `DueDates.DateDueAtNextDay` | apps/desktop/electron/application-actions-core.ts:274-290 | A date falls due at the first instant of the next calendar day, exactly under the condition above |
| `DueDates.DueTodayExact` | apps/desktop/electron/application-actions-core.ts:351-356 | While the clock shows its due date an action is due today, and overdue exactly when the clock was set back over a midnight already shown |
| `DueDates.DueStateExact` | apps/desktop/electron/application-actions-core.ts:351-356 | Dates and times alike: closed when not open, overdue from the due instant on, due today before it while the clock shows its date, upcoming otherwise |
| `Critique.VerifyFindings` | apps/desktop/electron/application-critique.ts:546-701 | The loop returns the lists the findings determine one after the other |
| `Critique.ScanEvidence` | apps/desktop/electron/application-critique.ts:579-629 | The evidence loop: the first problem, or all evidence with its counts |
| `Critique.EveryFindingOnce` | apps/desktop/electron/application-critique.ts:546-701 | Every raw finding is in exactly one of accepted and refused, in order, and an accepted one is the stored form of its own raw finding |
| `Critique.AtMostTwelveDistinct` | apps/desktop/electron/application-critique.ts:569-577 | At most 12 accepted, no two with the same kind and normalised summary |
| `Critique.NoProblemMeansDeserved` | apps/desktop/electron/application-critique.ts:587-683 | The checks pass exactly when the finding's own evidence meets what its kind needs |
| `Critique.KeptExactly` | apps/desktop/electron/application-critique.ts:563-683 | A finding is kept exactly when it parses, fits, repeats no kept one and meets that need |
| `Critique.DocumentsExact` | apps/desktop/electron/application-critique.ts:671-679 | The documents of a finding are those it quotes, or for an omission those it names that exist |
| `Critique.EveryCitationCovered` | apps/desktop/electron/application-critique.ts:685-689 | The dependencies of a kept finding cover every input it cites |
| `CritiqueMeaning.DependsExactly` | apps/desktop/electron/application-critique.ts:685-689 | Which inputs a finding depends on, each as an iff on its kind, its items and its documents |
| `CritiqueMeaning.RefusedExactly` | apps/desktop/electron/application-critique.ts:562-577 | Malformed, over the limit of twelve, or a repetition, in this order, or for its own fault |
| `CritiqueMeaning.ItemProblemExactly` | apps/desktop/electron/application-critique.ts:588-629 | The fault of one item: a quote under six characters or not in its text, a missing document, an unknown fact |
| `CritiqueMeaning.ReasonExactly` | apps/desktop/electron/application-critique.ts:631-683 | With every reference right: too little evidence for its kind, all quotes supported, the fact already in a draft, or no named document, each exactly then |
| `CritiqueMeaning.SupportedExactly` | apps/desktop/electron/application-critique.ts:516-522 | A quote is supported exactly when some line of it has text and every such line is in the reviewed evidence |
| `CritiqueMeaning.PhraseExactly` | apps/desktop/electron/application-critique.ts:481-488 | A phrase of 14 characters may stand anywhere, a shorter one only as whole words, an empty one nowhere |
| `CritiqueMeaning.CorpusHolds` | apps/desktop/electron/application-critique.ts:506-514 | The reviewed evidence is the CV and every reviewed and company fact, as cited and as a sentence |
| `CritiqueMeaning.KeptStores` | apps/desktop/electron/application-critique.ts:690-699 | A kept finding stores its number, kind, summary, non-empty suggestion, and the evidence of each item in order |
| `CritiqueFence.ChangedInputs` | apps/desktop/electron/application-critique.ts:163-195 | The set holds exactly the inputs whose fences differ |
| `CritiqueFence.ChangedExactly` | apps/desktop/electron/application-critique.ts:137-195 | With collision-free hashes an input counts as changed exactly when it differs: posting, CV with its review, sorted company facts, or the first draft of the kind |
| `CritiqueFence.UnchangedReadsSame` | apps/desktop/electron/application-critique.ts:137-195 | With collision-free hashes a posting or CV that does not count as changed reads the same; a draft whose first of the kind read as the last does so exactly when that still holds; company facts, hashed sorted by id but shown by position, do so exactly when the first two come in the same order |
| `CritiqueFence.CurrentFindingsStand` | apps/desktop/electron/application-critique.ts:546-701 | An accepted finding none of whose dependencies changed quotes and cites only what is in the current posting, drafts, CV and company facts, given for a quoted draft that the first of its kind reads as the last, and for a company fact that the first two come in the same order |
| `CritiqueFence.LoadedFindingsStand` | apps/desktop/electron/application-critique.ts:546-701 | With one draft per kind and company facts loaded in a fixed order no condition is left: every quote and citation of a current finding stands |
| `CritiqueFence.StillDeserved` | apps/desktop/electron/application-critique.ts:631-689 | Such a finding would be accepted again exactly when it is no omission whose cited fact some current draft now says |
| `CritiqueFence.OmissionOutlivesRepair` | apps/desktop/electron/application-critique.ts:650-653 | A concrete omission that stays current although another draft now says the fact |
| `CritiqueFence.SecondDraftIsNotFenced` | apps/desktop/electron/application-critique.ts:178-193 | With two drafts of one kind the fence watches the first and quotes are checked in the last |
| `CritiqueFence.ReorderedFactsAreNotFenced` | apps/desktop/electron/application-critique.ts:137-151 | Two company facts that change places: the fence is the same, and company-1 is another fact |
| `CompanyFacts.ShownSameExactly` | apps/desktop/electron/application-cover-letter.ts:61-74 | Among lists with the same hash, with ids and claims that tell facts apart, the same two facts are shown exactly when the first two come in the same order |
| `CompanyFacts.FixedOrderIsSame` | apps/desktop/electron/workspace/company-evidence-store.ts:361-372 | A loader with a fixed order gives, with an unchanged hash, the very same list |
| `ArtifactStaging.FencedOutChangesNoRow` | apps/desktop/electron/application-artifact-staging.ts:208-254 | For any interleaving the rows are the result of the runs that passed their trailing check; an abandoned run is none of them |
| `ArtifactStaging.OneRowAlways` | apps/desktop/electron/application-artifact-staging.ts:258-275 | A document of an attempt never has two rows |
| `ArtifactStaging.FilesKeptExactly` | apps/desktop/electron/application-artifact-staging.ts:208-296 | Every schedule keeps every registered row's file on disk with its own bytes exactly when no two runs clash: none shares an unregistered path, and none makes a registered file again that another replaces |
| `ArtifactStaging.CompensationBreaks` | apps/desktop/electron/application-artifact-staging.ts:231-251 | A schedule in which a compensating removal takes the live run's file |
| `ArtifactStaging.RestagingBreaks` | apps/desktop/electron/application-artifact-staging.ts:283-296 | A schedule with different hashes in which a superseded file is removed after it was made again |
| `ArtifactStaging.DifferentHashesBreak` | apps/desktop/electron/application-artifact-staging.ts:208-296 | A concrete attempt with two runs of different hashes and such a schedule |
| `ArtifactStaging.SwapRows` | apps/desktop/electron/application-artifact-staging.ts:258-275 | The delete-and-create loop and the paths it leaves to remove |
| `ArtifactStaging.CheckTakesEffect` | apps/desktop/electron/application-artifact-staging.ts:231-275 | A live run's row replaces exactly its document's rows, and exactly their other files are to go; an abandoned run keeps the rows, and its own file when a row points at it |
| `ArtifactStaging.LiveRunRegisters` | apps/desktop/electron/application-artifact-staging.ts:208-275 | A run that stays live leaves its document with the one new row and its own bytes on disk |
| `ArtifactStaging.RemovalTakesEffect` | apps/desktop/electron/application-artifact-staging.ts:236-296 | Each later step removes at most the next file, or fails to, and touches no row |
| `ArtifactStaging.ArtifactStore.Advance` | apps/desktop/electron/application-artifact-staging.ts:208-296 | The new rows, files and phase after one stretch between two awaits |

## Left out

- Reading and validating JSON, schema versions and their preflight: a line parses to a record or does not.
- The real file system, fsync, quarantine file names, permissions and directory listings.
- An IO call of the lineage store that throws while the process keeps running: the source names this as accepted residual risk at `apps/daemon/src/session-lineage-store.ts:1041`; the audit store's IO faults are modelled.
- A corrupt metadata record that takes its lineage into quarantine: it cannot arise under atomic replacement.
- Finding a parent by its provider thread id, and unknown-frame ledgers: plain scans and copies; the parent's root is an input of `Create`.
- Reading mode of workspace leases and the dirty check: the daemon asks for write leases only.
- Result attachments of stored envelopes: an extra id in the payload.
- Launching, cancelling and timing out provider processes: their answers are inputs of the steps.
- A `Last-Event-ID` that is negative or no whole number: `Reconnect` covers ids the daemon itself sent.
- HTTP routes, authentication, Git calls and workspace identity: arbitrary answers where they matter.
- Time-zone data and the naming of zones: an offset function, and for `DueDates.ResolveAgain` a naming that is idempotent.
- Zones with second-precise offsets: whole minutes only.
- SessionRecovery looks at one session: startup treats the sessions one after the other and none reads another's files.
- The attempt's company name in the sentence around a company claim: taken as fixed for the attempt; the fence does not hash it.
- Search excerpts, messages, labels and summaries cut for display: text only.
- Unicode normalisation, case folding, trimming, bullet stripping and hashing in the critique verifier: given functions, hashes collision-free where stated.
- A drain or close event that the output fires inside `write` or `once`: Node streams emit both on a later tick, so they come between calls here.
- A truncating rewrite of a staged file that is being read: a write of a file is one step.
- Rows of the artifact table without a path, or pointing outside the attempt's directory: the removal loop skips them.
- Prompts, model replies, PDF rendering and document acceptance: libraries and providers that cannot be seen.
- LineageStore.TotalsStayExact: files are listed in the order they were made; sums and counts do not depend on that order, which the model does not vary.
- Attempt transition tables, persisted-schema projections, alias book, relay, in-memory session store, data-reset gate: small, they would only add easy members.
