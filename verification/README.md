# Attention, notifications and their neighbours: a verified model

Dinotty tells its clients which terminal panes want attention. The server keeps an *attention ledger*:
per-pane queues of unread events with a read watermark, notifications without a pane, expiry after 72
hours, caps on queues and on identities, a table of answered requests, and a revision counter. Each
change of the ledger goes out as one delta, and browsers keep a replica by applying the deltas. A thin
protocol layer turns retried network requests into exactly one change.

This project models the ledger and that layer as the objects they are in the source, proves each method
against a specification function, and proves about those functions what the design relies on. Around
them stand the other deterministic parts of the program whose correctness is not visible from one body:
calendar dates, UTF-8 reassembly, the desktop-entry codec, escape-sequence stripping, login sessions,
one-time codes, lockout, and the update-check cache.

| module | models |
|---|---|
| `Common`, `Deltas`, `AttentionTypes` | shared datatypes, delta lists, `src/attention/types.rs` |
| `AttentionSpec`, `Dedup`, `Eviction` | what each ledger operation does, as functions |
| `AttentionInvariant`, `AttentionRuns`, `Retention` | the global invariant, runs, what expiry keeps |
| `PaneEffects`, `NotifHistory` | what each operation does to each pane and event; notifications against their history |
| `LiveLedger` | the class `AttentionLedger` of `src/attention/ledger.rs` |
| `UnreadHistory`, `ReadReceipts`, `DedupRuns` | queues against histories, receipts as a join, exactly-once |
| `Replica`, `Convergence`, `ServerRuns` | the client store, when it agrees with the server, and live runs |
| `NotificationSpec`, `Notification`, `NotificationRuns`, `NotificationAnswers`, `Debounce` | `src/notification/broadcast.rs` |
| `Calendar`, `Timestamp` | `src/util.rs` |
| `Utf8Stream` | the reassembly in `src/pty.rs` |
| `StripAnsi` | `strip_ansi` of `src/agent.rs` |
| `DesktopEntry` | the Linux text format of `src-tauri/src/autostart.rs` |
| `SessionStore`, `SessionInterleaving` | `src/auth/session.rs` |
| `VerificationCodes`, `CodeRates` | `src/auth/verification_code.rs` |
| `Lockout` | `src/auth/mod.rs` |
| `UpdateCheck` | `src/update_check.rs` |

`dafny verify dfyconfig.toml` checks all of it.

## Conventions

- Clocks, fresh identifiers, payload hashes, settings, pane liveness and upstream responses are
  parameters. Ledger times are milliseconds; monotonic instants are nanoseconds.
- Most callers read the clock before they get the lock. Where a property needs calls to reach the state in
  the order of their readings, the lemma says so (`Timely`, `InOrder`, `ClockOk`, `Sequential`). The
  invariant, convergence, generations, replays and the safety of codes need no such thing.
- A panic of the source is a value of its own (`Decoded.Panics`), or proved not to happen.
- A method's contract names the function it computes. What that function means is proved apart from it,
  in terms of the input, the run so far and the state afterwards; the rows say which lemma does so.

## What turned out to hold only conditionally

Each of these is stated as an if-and-only-if, with an input for which it fails.

- **Convergence of replicas** (`Convergence.ReplicasConverge`): a client takes any newer delta, does not
  notice a gap, and drops older snapshots. Whatever messages arrive, each identity shows what the server
  showed at the revision of the last message taken about it. So the store is right exactly if no identity
  changed between that revision and the store's own. In particular it is right if no delta ever skips a
  revision (`Replica.UnskippedConverges`).
- **Joining** (`Convergence.SubscriberConverges`): `register_client` releases the ledger before it sends the
  snapshot, to a client that already gets deltas. If a delta overtakes the snapshot, the client takes the
  delta and drops the snapshot as older. It then arrives at the right revision, but at the right state
  exactly if everything there was when it joined has been listed since (`OvertakenSnapshotFails`). A
  snapshot that is taken always puts things right (`Replica.SnapshotRestoresIff`).
- **Chunking of UTF-8** (`Utf8Stream.LosslessIffShortRest`): output is independent of the cuts, and
  nothing is replaced, exactly when at most three bytes follow the longest valid prefix of the stream.
  Prefixes of valid UTF-8 always satisfy this (`PrefixOfValidIsLossless`); FF 41 41 41 41 does not
  (`ChunkingCanMatter`).
- **Grouping of read receipts** (`ReadReceipts.GroupingIff`): expiry stops at the first live event, so an
  event with an earlier reading can stay behind a live one after it has expired (`HiddenEventReachable`) and
  go only when a receipt exposes it. How receipts are grouped, ordered and repeated is irrelevant exactly
  without such an event; there is none if calls reach the ledger in the order of their readings
  (`HistoryMeansAllLive`).
- **Session cleanup** (`SessionStore.CleanupUnobservable`): invisible, except that `revoke` answers
  otherwise for a session if a cleanup ran more than the TTL after its last recorded use
  (`RevokeSeesCleanup`).
- **The life of a one-time code** (`VerificationCodes.LifeIsOrderly`): `verify` reads the clock before it gets
  the entry and removes the entry after it has let go of it. The outcomes come in order exactly if no call
  that read the clock within the TTL gets the entry after another was told "expired"; such a call can even
  succeed (`OvertakenCallSucceeds`). One success at most, four mismatches at most, and never a success
  together with a lockout: that holds whatever overlaps (`AtMostOneSuccess`).
- **Rate windows** (`CodeRates`): `create` reads the clock before it gets the window. Clearing windows changes
  nothing exactly if no request reads less than a minute after the start of a window that has already been
  cleared (`ClearingInvisible`, `ClearingShows`). Sixty seconds admit at most twice the limit, and as much
  again for each such request, and one more for each creation counted by a window that began after the
  request read the clock (`RateBound`); without these the bound is twice the limit (`OrderlyRate`), with
  them it can be more (`RateExceeded`).
- **The 60 s sweep of the debounce maps** (`Debounce.SweepInvisibleIff`): changes no decision exactly for
  windows of up to a minute (`SweepShows`).
- **`decode_desktop_exec`** (`DesktopEntry.PanicsIff`): its slice has its end before its start exactly
  when the unescaped value is the suffix itself, so one quote is both the opening and the closing one. A
  file with that value reaches it (`FilePanics`); no encoded path does (`ExecRoundTrip`).
- **Stripping piece by piece** (`StripAnsi.PiecewiseIffOutside`): allowed exactly when the first piece
  does not end inside an escape sequence (`CutInsideSequence`).

## Model

| member | source | states |
|---|---|---|
| LiveLedger.AttentionLedger.RecordPaneEvent | src/attention/ledger.rs:106-143 | expiry, a fresh event number, append, both caps, one delta: the new state is `RecordPane`, and the delta carries replicas from the old to the new state with revision + 1 |
| LiveLedger.AttentionLedger.RecordNotifEvent | src/attention/ledger.rs:145-167 | the same for a notification without a pane |
| LiveLedger.AttentionLedger.MarkRead | src/attention/ledger.rs:169-266 | new state, verdicts in request order, `appliedAt`, and a delta exactly when replicas see a difference |
| LiveLedger.AttentionLedger.MarkAllRead | src/attention/ledger.rs:197-261 | receipts, then notifications, then their delta entries; accepted iff some target was applied |
| LiveLedger.AttentionLedger.MarkReceipt | src/attention/ledger.rs:202-229 | the verdict on one receipt, and that it is reported as a change iff the watermark moved |
| LiveLedger.AttentionLedger.PaneClosed | src/attention/ledger.rs:268-277 | the pane is gone; a delta iff replicas see a difference |
| LiveLedger.AttentionLedger.Reserve | src/attention/ledger.rs:284-319 | reserved, replay, conflict or busy, and the table afterwards |
| LiveLedger.AttentionLedger.Complete | src/attention/ledger.rs:321-340 | installs for the active generation only, otherwise changes nothing |
| LiveLedger.AttentionLedger.Sweep | src/attention/ledger.rs:342-348 | expiry alone; a delta iff replicas see a difference |
| LiveLedger.AttentionLedger.ExpireInto | src/attention/ledger.rs:364-437 | the two passes compute `Expire`; their delta lists name each changed identity once, with its final value, and no other |
| LiveLedger.AttentionLedger.PopExpired | src/attention/ledger.rs:380-386 | the pop loop removes exactly the leading expired events |
| LiveLedger.AttentionLedger.PopRead | src/attention/ledger.rs:211-217 | the pop loop removes exactly the leading events at or below the watermark |
| LiveLedger.AttentionLedger.CapUnread | src/attention/ledger.rs:129-137 | keeps the newest `UNREAD_CAP` events |
| LiveLedger.AttentionLedger.EnforcePaneCap | src/attention/ledger.rs:453-485 | the loop evicts the one victim, ends, and its `expect`s cannot fire |
| LiveLedger.AttentionLedger.EnforceNotifCap | src/attention/ledger.rs:487-519 | the same for notifications |
| LiveLedger.AttentionLedger.FinishDelta | src/attention/ledger.rs:546-556 | no delta and no new revision iff both snapshot tables are unchanged |
| LiveLedger.PaneReadsShow | src/attention/ledger.rs:222-226 | whatever a mark-read changes after expiry shows against the state before the call |
| Deltas.Upsert | src/attention/ledger.rs:589-603 | at most one entry per identity, in place or appended |
| Deltas.UpsertAll | src/attention/ledger.rs:421-436 | after the loop every listed identity has its final entry |
| Deltas.ApplyShows | frontend/src/composables/attentionReconcile.ts:81-115 | applying a list sets exactly the listed identities |
| Deltas.ApplyDescribed | frontend/src/composables/attentionReconcile.ts:81-115 | a table that held the old state holds exactly the new one after applying the list |
| Deltas.EmptyIffUnchanged | src/attention/ledger.rs:551-553 | a minimal list is empty iff nothing changed |
| AttentionTypes.MaxSeverityIsMax | src/attention/ledger.rs:529 | the severity shown is the most severe unread one |
| AttentionTypes.SeverityShown | src/attention/types.rs:28-36 | in words: urgent iff anything unread is, info iff everything is, and so on |
| AttentionTypes.ExpiredIff | src/attention/ledger.rs:585-587 | expired iff the whole duration is over, also for a clock that went back |
| AttentionInvariant.ViewTellsUnread | src/attention/ledger.rs:522-532 | from what replicas get they can tell unread panes: latest event past the watermark, a first time, a severity |
| Eviction.MinBy | src/attention/ledger.rs:454-477 | the search finds the least candidate in whatever order the hash table is iterated |
| Eviction.LeastExists | src/attention/ledger.rs:454-477 | among distinct event numbers there is a least candidate |
| Eviction.LeastUnique | src/attention/ledger.rs:458-464 | the victim is a function of the table |
| AttentionInvariant.CapPanesKeeps | src/attention/ledger.rs:453-485 | exactly one victim, unique; no unread pane goes while a read one exists; afterwards the cap holds |
| AttentionInvariant.CapNotifsKeeps | src/attention/ledger.rs:487-519 | the same for notifications |
| AttentionInvariant.PaneVictimIsOldest | src/attention/ledger.rs:458-473 | read panes go in order of reading, unread ones in order of their oldest unread event |
| AttentionInvariant.NotifVictimIsOldest | src/attention/ledger.rs:492-506 | the same for notifications |
| AttentionInvariant.ExpirePaneKeeps | src/attention/ledger.rs:377-394 | expiry keeps a pane well formed, never lowers its watermark, and each change shows to replicas |
| AttentionInvariant.MarkPaneKeeps | src/attention/ledger.rs:206-226 | a receipt keeps a pane well formed and changes it iff it moves the watermark |
| AttentionInvariant.ExpireKeeps | src/attention/ledger.rs:364-437 | expiry keeps the global invariant |
| AttentionInvariant.RecordPaneKeeps | src/attention/ledger.rs:106-143 | recording for a pane keeps the global invariant |
| AttentionInvariant.RecordNotifKeeps | src/attention/ledger.rs:145-167 | recording a notification keeps it |
| AttentionInvariant.MarkReadKeeps | src/attention/ledger.rs:169-266 | mark-read keeps it |
| AttentionInvariant.PaneClosedKeeps | src/attention/ledger.rs:268-277 | closing a pane keeps it |
| AttentionInvariant.SeqsUniqueAcrossIdentities | src/attention/ledger.rs:558-562 | no event number is used by two identities, and all lie below the next one |
| AttentionRuns.InvariantHolds | src/attention/ledger.rs:106-348 | the invariant holds after every run, whatever the clock does |
| AttentionRuns.RevisionMovesByOne | src/attention/ledger.rs:546-576 | revisions move by at most one, and not at all only if the snapshot stays the same |
| Retention.LiveEventsStay | src/attention/ledger.rs:380-386 | no live event is lost to expiry, and the oldest left is live |
| Retention.PaneGoneIff | src/attention/ledger.rs:387-411 | a pane is collected iff it was read a whole retention period ago |
| Retention.NotifGoneIff | src/attention/ledger.rs:396-419 | a notification is collected iff it was read a whole retention period ago; an overdue unread one becomes read now |
| Retention.NothingMoreToCollect | src/attention/ledger.rs:364-437 | expiring twice at one time removes nothing more |
| PaneEffects.PanePresence | src/attention/ledger.rs:106-348 | after any operation a pane is there iff it was recorded for, or was there and neither collected nor closed; less the victim of the cap |
| PaneEffects.PaneAfter | src/attention/ledger.rs:106-348 | which events are unread after any operation, one by one: those sheltered from expiry, not over the cap and reached by no valid receipt, and the one recorded; and the watermark, latest number and time of reading |
| PaneEffects.EvictedAtOnceIff | src/attention/ledger.rs:453-485 | the pane just recorded for is evicted iff it is new, the table is full, and every other pane has a later unread event |
| NotifHistory.NotifAfter | src/attention/ledger.rs:106-348 | which notifications are there after any operation, and what each is |
| NotifHistory.NotifEvictedAtOnceIff | src/attention/ledger.rs:487-519 | the same exact condition for notifications |
| NotifHistory.NotifsAsRemembered | src/attention/ledger.rs:145-167 | after any run each notification is what a machine that never drops one remembers |
| NotifHistory.NotificationFate | src/attention/ledger.rs:145-253 | over any run: number, time and severity of the last recording; read iff a request of the epoch named it since, or queues were touched a whole UNREAD_TTL after that time; and when |
| Deltas.ApplyElsewhere | frontend/src/composables/attentionReconcile.ts:81-115 | applied to another table, a list gives the new state iff that table agrees with the old one on all unlisted identities |
| Replica.MissedDeltas | frontend/src/composables/attentionReconcile.ts:77-120 | a store that missed deltas is right after the next one iff that lists every identity the missed ones changed |
| Replica.SnapshotRestoresIff | frontend/src/composables/attentionReconcile.ts:122-150 | after any genuine snapshot the store is right, unless the snapshot is dropped as older and the store was wrong before |
| Convergence.EachIdentityAsTold | frontend/src/composables/attentionReconcile.ts:70-156 | for every stream of genuine messages, each identity shows what the server showed at the revision of the last message taken about it |
| Convergence.ReplicasConverge | frontend/src/composables/attentionReconcile.ts:70-156 | for every stream of genuine messages, in any order, with gaps, repetitions and other epochs: the store equals the server at the store's revision iff no identity changed since the last message taken about it |
| Replica.CaughtUpMeansEqual | frontend/src/composables/attentionReconcile.ts:70-150 | a store at the server's latest revision shows the server's latest state |
| Convergence.SubscriberConverges | src/notification/broadcast.rs:46-54 | a client that gets every delta from when it joined, in order, and somewhere among them the snapshot, reaches the server's epoch and revision; it equals the server iff no delta overtook the snapshot or everything there was has been listed since |
| Convergence.OvertakenSnapshotFails | frontend/src/composables/attentionReconcile.ts:77-125 | a delta ahead of the snapshot makes the client drop the snapshot and miss a pane |
| ServerRuns.OvertakenSnapshotReachable | src/notification/broadcast.rs:46-54 | a run of the server where that happens: two panes recorded in turn, a client joining in between |
| ServerRuns.Perform | src/attention/ledger.rs:106-348 | each operation of the object is one step of the specification and one step for replicas |
| ServerRuns.RunServer | src/attention/ledger.rs:106-348 | a live ledger performing any operations produces a run as `Replica` needs it |
| UnreadHistory.QueuesRefineHistory | src/attention/ledger.rs:117-137 | after any run in the order of clock readings every queue is the full event list of its identity less the longest of three prefixes: over the cap, read, expired |
| UnreadHistory.FirstUnreadExact | src/attention/ledger.rs:359-362 | `first_unread_at` is the time of the first event neither over the cap, read nor expired, and none iff there is no such event |
| UnreadHistory.CutIs | src/attention/ledger.rs:377-394 | the cut by counting is the same as: all left is live and unread, and the last cut event was cut for a reason |
| UnreadHistory.ExpireRefines | src/attention/ledger.rs:377-394 | expiry moves the cut and nothing else |
| UnreadHistory.MarkRefines | src/attention/ledger.rs:206-221 | a receipt moves the cut and nothing else |
| UnreadHistory.PushRefines | src/attention/ledger.rs:119-137 | a new event extends history and queue alike |
| ReadReceipts.ReceiptsJoin | src/attention/ledger.rs:202-234 | a list of receipts does to each pane what its largest valid one does |
| ReadReceipts.MarkTwice | src/attention/ledger.rs:206-221 | two receipts do what the larger does |
| ReadReceipts.OrderAndRepetitionIrrelevant | src/attention/ledger.rs:202-234 | only the set of receipts matters |
| ReadReceipts.OnlyReadEventsCleared | src/attention/ledger.rs:210-217 | an event stays iff it is newer than the receipt |
| ReadReceipts.InterleavingIffAllLive | src/attention/ledger.rs:377-394 | for one pane: expiry again after a receipt at the same time changes nothing iff no expired event hides behind a live one |
| ReadReceipts.GroupingIff | src/attention/ledger.rs:169-266 | at one time, any two ways to send the same targets, in whatever calls, order and repetition, leave the same panes and notifications, iff no expired event hides behind a live one |
| ReadReceipts.HiddenEventReachable | src/attention/ledger.rs:377-386 | a run with readings out of order leaves such an event |
| ReadReceipts.HistoryMeansAllLive | src/attention/ledger.rs:377-386 | when calls reach the ledger in the order of their clock readings, no expired event hides |
| ReadReceipts.RefusedHaveNoEffect | src/attention/ledger.rs:180-205 | another epoch, unknown ids and receipts beyond the latest event do no more than a sweep |
| ReadReceipts.PaneVerdictTrue | src/attention/ledger.rs:180-234 | for every epoch, each verdict on a pane can be read off the state after the call: stale iff the epoch is not the ledger's, applied iff read up to there |
| ReadReceipts.NotifVerdictTrue | src/attention/ledger.rs:180-253 | the same for notifications |
| ReadReceipts.AppliedAtTrue | src/attention/ledger.rs:180-265 | `appliedAt` is given iff the epoch is the ledger's and some target shows as read; it is the present revision |
| DedupRuns.ExactlyOnce | src/attention/ledger.rs:284-340 | after a completion, every reserve of the key within the horizon replays that outcome or conflicts |
| DedupRuns.ReservedIff | src/attention/ledger.rs:291-318 | a key is handed out iff it was neither completed within the horizon nor is being worked on |
| DedupRuns.ReservationHolds | src/attention/ledger.rs:294-300 | until completed or timed out, a reservation keeps others out |
| DedupRuns.ReplayIsGenuine | src/attention/ledger.rs:304-306 | a replayed outcome was installed for the latest reservation of the key, which had the same payload |
| DedupRuns.GenerationsNeverRepeat | src/attention/ledger.rs:564-571 | generations grow over the whole run |
| DedupRuns.StaleCompletionRefused | src/attention/ledger.rs:328-339 | a completion installs iff the entry is in flight under that very generation |
| DedupRuns.NothingStaleKept | src/attention/ledger.rs:439-446 | every mutation leaves exactly the entries still of use |
| DedupRuns.LedgerTableIsTable | src/attention/ledger.rs:439-446 | these results hold of the ledger's own table in every run |
| Notification.NotificationBroadcast.ProcessNotify | src/notification/broadcast.rs:294-454 | early answers, reserve, gate, liveness, record, complete as one step; the completion installs; what is sent is that step |
| Notification.NotificationBroadcast.ApplyMarkRead | src/notification/broadcast.rs:184-246 | the same for mark-read requests, with no reply for a busy key |
| Notification.NotificationBroadcast.ParseReceipts | src/notification/broadcast.rs:211-220 | entries that parse, in order |
| Notification.NotificationBroadcast.Sweep | src/notification/broadcast.rs:248-254 | publishes the sweep's step |
| Notification.NotificationBroadcast.PaneClosed | src/notification/broadcast.rs:259-269 | publishes the removal |
| Notification.NotificationBroadcast.SendDetectedBell | src/notification/broadcast.rs:66-76 | a duplicate touches only its own debounce map |
| Notification.NotificationBroadcast.SendBell | src/notification/broadcast.rs:78-127 | a bell is recorded iff the gate accepts it; the map is updated either way |
| Notification.NotificationBroadcast.SendNotify | src/notification/broadcast.rs:129-182 | a program's request is recorded without a pane iff enabled and not a repetition |
| Notification.NotificationBroadcast.CheckOscDebounce | src/notification/broadcast.rs:282-292 | verdict and map of one debounced call |
| NotificationRuns.RetriedNotifyIsNoOp | src/notification/broadcast.rs:339-449 | a retry within the horizon leaves the whole ledger untouched and gets the first outcome, whatever came between |
| NotificationRuns.RetriedMarkReadIsNoOp | src/notification/broadcast.rs:188-245 | the same for mark-read |
| NotificationRuns.KindsDoNotMix | src/notification/broadcast.rs:207-209 | a mark-read request never receives a producer's outcome |
| NotificationRuns.CompleteInstalls | src/notification/broadcast.rs:439-445 | `complete` installs although the mutation in between sweeps the table |
| NotificationRuns.NoReservationLeft | src/notification/broadcast.rs:339-449 | no call leaves a reservation behind |
| NotificationRuns.NoReservationEver | src/notification/broadcast.rs:339-449 | from an empty ledger, no reservation exists between calls in any run |
| NotificationRuns.NobodyWaits | src/notification/broadcast.rs:195-206 | hence no request is told to retry, and every mark-read is answered |
| NotificationAnswers.TurnedAwayIff | src/notification/broadcast.rs:302-329 | malformed iff the type, the source or the identifiers are; idle reminders that are off are suppressed first; either leaves no trace |
| NotificationAnswers.NotifyAnswers | src/notification/broadcast.rs:352-447 | of a newly reserved request: suppressed iff notifications are off, not found iff its pane is not live, both without a trace; otherwise the answer names identity, number and revision of the one new event, with the severity of its type |
| NotificationAnswers.MarkReadAnswers | src/notification/broadcast.rs:210-241 | of a newly reserved request: every target is told truly how it stands, and a revision is given iff one shows as read |
| NotificationAnswers.ParsedExactly | src/notification/broadcast.rs:211-220 | the receipts are exactly the targets with a number |
| NotificationAnswers.ChangedNotifyConflicts | src/notification/broadcast.rs:345-347 | a key used again for another payload is a conflict and changes nothing |
| NotificationAnswers.ChangedReadConflicts | src/notification/broadcast.rs:207-209 | the same for mark-read: every target once, all conflicts, nothing applied |
| NotificationAnswers.ReadKeyConflicts | src/notification/broadcast.rs:345-347 | a producer never receives a mark-read outcome |
| NotificationAnswers.NewIdsAreServed | src/notification/broadcast.rs:325-331 | over any run, identifiers that no call has carried before get a reservation |
| NotificationAnswers.UntypedIsInfo | src/notification/broadcast.rs:147 | a program's request has the severity of its type, or is informational |
| Debounce.SweepInvisibleIff | src/notification/broadcast.rs:284-291 | the 60 s sweep changes no decision iff the window is at most a minute |
| Debounce.AcceptedAreApart | src/notification/broadcast.rs:285-290 | accepted calls with one key are the window, or a minute, apart |
| Debounce.AcceptedIff | src/notification/broadcast.rs:284-290 | for windows up to a minute: accepted iff every accepted call with the key is a whole window ago |
| Debounce.AcceptedAfterWindow | src/notification/broadcast.rs:284-290 | for any window: a whole window after every accepted call, a call is accepted |
| Debounce.MapHoldsRecentKeys | src/notification/broadcast.rs:287-290 | the map holds only keys accepted in the last minute |
| Calendar.YearOfEraCorrect | src/util.rs:21-25 | the quotient formula finds the year of the era, without underflow |
| Calendar.NextDay | src/util.rs:19-31 | every day number gives a real date, and the next number the next date |
| Calendar.ClosedFormIsCalendar | src/util.rs:19-31 | the closed form equals counting day by day from 1 January 1970 |
| Calendar.DatesIncrease | src/util.rs:19-31 | later days have later dates |
| Timestamp.TimestampsSort | src/util.rs:4-15 | up to the year 9999 timestamps sort as strings in time order |
| Timestamp.ReadsBack | src/util.rs:4-15 | twenty characters in the form of RFC 3339, section 5.6, from which date and time read back |
| Utf8Stream.BroadcastTask | src/pty.rs:98-173 | the loop computes `FeedAll`; every broadcast is valid and at most three bytes wait |
| Utf8Stream.ConsumedIsLongestValidPrefix | src/pty.rs:156-163 | `valid_up_to` ends the longest valid prefix |
| Utf8Stream.ValidIff | src/pty.rs:156-163 | valid means: the encoding of some Unicode scalar values, section 3 of RFC 3629 |
| Utf8Stream.NothingValidLost | src/pty.rs:155-172 | each batch sends the whole longest valid prefix, then one replacement character iff more than three bytes would be left |
| Utf8Stream.LosslessIffShortRest | src/pty.rs:155-172 | no loss and no replacement under every chunking iff at most three bytes follow the longest valid prefix |
| Utf8Stream.PrefixOfValidIsLossless | src/pty.rs:155-172 | streams that can still become valid lose nothing, however cut |
| Utf8Stream.ChunkingCanMatter | src/pty.rs:155-172 | a stray byte before "AAAA": two cuts, two texts |
| Utf8Stream.OutputDependsOnlyOnStream | src/pty.rs:106-109 | two ways to cut such a stream give the same text and the same tail |
| Utf8Stream.AlwaysValid | src/pty.rs:155-172 | for any bytes at all, broadcasts are valid and the tail is short |
| StripAnsi.StripAnsi | src/agent.rs:166-199 | the nested scanner equals a five-state automaton |
| StripAnsi.OutputIsCleanSubsequence | src/agent.rs:166-199 | the output is a subsequence of the input without ESC |
| StripAnsi.IdentityOnPlainText | src/agent.rs:194-196 | text without ESC is unchanged |
| StripAnsi.Idempotent | src/agent.rs:166-199 | stripping twice is stripping once |
| StripAnsi.PiecewiseIffOutside | src/agent.rs:166-199 | strip(a + b) = strip(a) + strip(b) for all b iff a ends outside an escape sequence |
| StripAnsi.CutInsideSequence | src/agent.rs:170-180 | cutting after the escape character changes the result |
| StripAnsi.ControlSequence | src/agent.rs:172-180 | a control sequence goes up to its first letter, or to the end |
| StripAnsi.OperatingSystemCommand | src/agent.rs:181-193 | an OSC goes up to BEL or to ESC and backslash, or to the end |
| StripAnsi.LoneEscape | src/agent.rs:170-194 | any other escape character is dropped alone |
| StripAnsi.PlainStays | src/agent.rs:194-196 | any other character stays |
| DesktopEntry.EncodeDesktopExec | src-tauri/src/autostart.rs:311-337 | both loops compute quoting inside escaping, or refuse the path |
| DesktopEntry.DecodeDesktopValue | src-tauri/src/autostart.rs:340-358 | the loop computes the string layer |
| DesktopEntry.UnquoteExec | src-tauri/src/autostart.rs:368-382 | the loop computes the quoting layer |
| DesktopEntry.ExecRoundTrip | src-tauri/src/autostart.rs:311-389 | every representable path survives both layers |
| DesktopEntry.EncoderInjective | src-tauri/src/autostart.rs:311-337 | two paths never share an encoding |
| DesktopEntry.DecodedIsEncodable | src-tauri/src/autostart.rs:361-389 | whatever is accepted is a path the encoder can write and read back |
| DesktopEntry.EncodableIff | src-tauri/src/autostart.rs:283-290 | exactly the absolute paths without NUL, LF and CR can be written |
| DesktopEntry.ExecIsSafe | src-tauri/src/autostart.rs:311-337 | what is written is one quoted argument and the flag, with every quote, backtick, dollar and percent sign escaped, in both layers |
| DesktopEntry.EscapesMean | src-tauri/src/autostart.rs:348-355 | the five escapes of a string value, and no others |
| DesktopEntry.QuotingsMean | src-tauri/src/autostart.rs:371-381 | the quotings of an argument, and no others |
| DesktopEntry.PanicsIff | src-tauri/src/autostart.rs:363-367 | the slice fails exactly when the value is the suffix itself |
| DesktopEntry.SuffixPanics | src-tauri/src/autostart.rs:363-367 | it does for that value |
| DesktopEntry.FilePanics | src-tauri/src/autostart.rs:987-1026 | so does reading a file that is well formed but for that value |
| DesktopEntry.ReadDesktopFields | src-tauri/src/autostart.rs:999-1010 | the line loop: malformed and repeated lines refuse the file |
| DesktopEntry.FieldsIff | src-tauri/src/autostart.rs:999-1010 | lines make fields iff each that is not empty has a key and no key comes twice |
| DesktopEntry.FieldsAre | src-tauri/src/autostart.rs:999-1010 | and the fields are then those of the lines |
| DesktopEntry.ManagedIff | src-tauri/src/autostart.rs:1011-1025 | managed iff exactly the five fields are there with their values and the argument decodes |
| DesktopEntry.HeaderNeeded | src-tauri/src/autostart.rs:988-998 | no file is missing; no text or no header is malformed |
| DesktopEntry.FirstLineCr | src-tauri/src/autostart.rs:995 | lines may end in CR LF |
| DesktopEntry.FileTextIs | src-tauri/src/autostart.rs:848-850 | the generated file, written out |
| DesktopEntry.FileRoundTrip | src-tauri/src/autostart.rs:847-1026 | the generated file reads back as the managed registration of the same path |
| SessionStore.CreatedIsAccepted | src/auth/session.rs:97-134 | a session that nobody revokes is accepted until the TTL after its creation, whatever else goes on |
| SessionStore.SessionStore.Validate | src/auth/session.rs:108-134 | accepted iff known and not idle beyond the TTL at either reading; written only past the throttle; removed if refused |
| SessionStore.RevokedIsGone | src/auth/session.rs:137-147 | a revoked session stays away from `validate`, `list` and `revoke` until its id is issued again |
| SessionStore.SessionStore.RevokeAllExcept | src/auth/session.rs:145-147 | the loop removes every session but the one |
| SessionStore.SessionStore.List | src/auth/session.rs:150-158 | the loop lists exactly the sessions `validate` would accept at that moment |
| SessionStore.SessionStore.Cleanup | src/auth/session.rs:160-169 | after the loop `validate` answers for every id as it would have before |
| SessionStore.CleanedLacksOnlyExpired | src/auth/session.rs:160-169 | over any run a cleaned store lacks only expired sessions of an uncleaned one |
| SessionStore.CleanedUpIff | src/auth/session.rs:160-169 | over any run, cleanup has taken a session iff one ran more than the TTL after its last recorded use |
| SessionStore.CleanupUnobservable | src/auth/session.rs:137-169 | every answer is the same with and without cleanup, except exactly `revoke` of a session for which a cleanup ran more than the TTL after its last recorded use |
| SessionStore.RevokeSeesCleanup | src/auth/session.rs:137-166 | an input where it shows: create, clean up one nanosecond past the TTL, revoke |
| SessionInterleaving.InvHolds | src/auth/session.rs:108-169 | in every interleaving the stored time lags the last accepted use by less than the throttle, and pending removals are of expired sessions |
| SessionInterleaving.RemovedStaysRemoved | src/auth/session.rs:115-132 | a removed session is never resurrected by a racing refresh |
| SessionInterleaving.OnlyExpiredVanish | src/auth/session.rs:115-131 | apart from revocation only expired sessions vanish, never one just refreshed, and none used within TTL less throttle |
| SessionInterleaving.AcceptedWithinTtl | src/auth/session.rs:113-133 | acceptance implies the last accepted use was at most the TTL ago |
| SessionInterleaving.UnrevokedRemains | src/auth/session.rs:108-169 | in every interleaving an issued session that nobody revoked is there, or idle for longer than TTL less throttle |
| SessionInterleaving.RecentUseAccepted | src/auth/session.rs:113-133 | an issued session that nobody revoked and that was used within TTL less throttle is accepted, or goes on to its write, where the same lemma accepts it |
| SessionInterleaving.StepAnswers | src/auth/session.rs:110-133 | when a lookup accepts at once, goes on to write or to remove, and when the write accepts |
| SessionInterleaving.StepRemoves | src/auth/session.rs:115-169 | a step takes a session away iff it revokes it, removes what was found expired, or cleans it up past the TTL |
| SessionInterleaving.RevokedIsRefused | src/auth/session.rs:137-147 | once an issued session is revoked, no call that comes to its entry afterwards accepts it |
| VerificationCodes.CodeStore.Create | src/auth/verification_code.rs:92-117 | admission by the rate window, and the new code if admitted |
| VerificationCodes.CodeStore.Verify | src/auth/verification_code.rs:121-158 | the six outcomes and what each leaves of the entry; attempts stay below the maximum |
| VerificationCodes.CodeStore.PurgeCodes | src/auth/verification_code.rs:168-170 | the loop drops exactly the codes that could only be answered "already used" or "expired" |
| VerificationCodes.CodeStore.PurgeWindows | src/auth/verification_code.rs:171-173 | the loop drops exactly the rate windows that are over |
| VerificationCodes.EndsOnce | src/auth/verification_code.rs:125-176 | with calls one after the other, "expired" or "too many attempts" is said once for a code, and only "not found" after it |
| VerificationCodes.LifeIsOrderly | src/auth/verification_code.rs:121-176 | over every life of a code, with calls, removals and cleanup overlapping in any way, the outcomes follow the automaton iff no call that read the clock in time gets the entry after another was told "expired" |
| VerificationCodes.OvertakenCallSucceeds | src/auth/verification_code.rs:122-147 | a life where one does, and succeeds |
| VerificationCodes.AtMostOneSuccess | src/auth/verification_code.rs:121-158 | over every life: at most one success, at most four mismatches, never success together with a lockout |
| VerificationCodes.AnswerExact | src/auth/verification_code.rs:129-157 | over every life, what a call is told that finds the entry: expired iff past the TTL, already used iff after a success, success iff the code is the one issued and fewer than MAX_ATTEMPTS calls in time gave another |
| VerificationCodes.RightCodeSucceeds | src/auth/verification_code.rs:121-147 | the first call with the right code succeeds, if fewer than MAX_ATTEMPTS gave another and no reading was past the TTL |
| VerificationCodes.GoneOnlyIf | src/auth/verification_code.rs:129-176 | the entry goes only after a verdict that ends it, or by cleanup after a success or past the TTL |
| VerificationCodes.AnswersAreOrderly | src/auth/verification_code.rs:121-158 | with calls one after the other the answers always follow the automaton |
| VerificationCodes.OrderlyMeansOnce | src/auth/verification_code.rs:135-157 | the automaton itself allows one success, four mismatches, and no success together with a lockout |
| CodeRates.ClearingInvisible | src/auth/verification_code.rs:93-107 | for requests and cleanups in any order: clearing changes no decision and no window iff no request reads less than a minute after the start of a window already cleared |
| CodeRates.ClearingShows | src/auth/verification_code.rs:171-173 | three operations where clearing admits a request |
| CodeRates.RateBound | src/auth/verification_code.rs:93-107 | for requests and cleanups in any order: sixty seconds admit at most twice the limit, as much again per reopened window, and one more per creation counted by a later window |
| CodeRates.RefusedIff | src/auth/verification_code.rs:99-107 | a request is refused iff its window is less than a minute old and has counted `limit` creations |
| CodeRates.RefusedOnlyAtLimit | src/auth/verification_code.rs:99-107 | with requests in order, whoever is refused has created `limit` codes within the last minute |
| CodeRates.OrderlyRate | src/auth/verification_code.rs:93-107 | if requests come in the order of their readings: at most twice the limit, and clearing is invisible |
| CodeRates.RateExceeded | src/auth/verification_code.rs:93-107 | nine requests with limit 3 where seven creations fall into sixty seconds |
| Lockout.AuthGuard.RecordAuthFailure | src/auth/mod.rs:70-91 | counts per address and in the global window |
| Lockout.AuthGuard.CheckLockout | src/auth/mod.rs:102-143 | a reported delay is at least 1 and at most the lockout; an address is forgotten when its lockout is over |
| Lockout.CountsAlways | src/auth/mod.rs:70-143 | the record counts exactly the current batch, and everything before it lies a lockout earlier |
| Lockout.RefusedOnlyIf | src/auth/mod.rs:130-138 | a refused attempt comes less than the lockout after the last failure, is told the rest of it, and there were enough failures |
| Lockout.RefusedIf | src/auth/mod.rs:130-138 | with enough failures, all less than the lockout ago, an attempt is refused |
| Lockout.BatchBound | src/auth/mod.rs:127-141 | a span shorter than k lockouts has at most k batches of failures |
| Lockout.LockoutBound | src/auth/handlers.rs:107-145 | failures in any span are at most one batch per whole lockout period, and one more |
| UpdateCheck.UpdateChecker.Refresh | src/update_check.rs:267-329 | which responses succeed, and what each does to the cache |
| UpdateCheck.UpdateChecker.CheckAtWith | src/update_check.rs:225-258 | reuse, backoff, refresh and the new backoff |
| UpdateCheck.CacheGrounded | src/update_check.rs:289-319 | the stored entity tag came with the stored release, which was current when validated |
| UpdateCheck.RefreshedIsCurrent | src/update_check.rs:289-328 | a refreshed answer reports an update iff the version published now is greater than the program's, with the versions and details of both |
| UpdateCheck.CachedIsRecent | src/update_check.rs:233-239 | a cached answer reports so of a release the upstream published less than the TTL ago |
| UpdateCheck.CachedIff | src/update_check.rs:233-265 | the cache answers iff the check is not forced and the last refresh is less than the TTL ago |
| UpdateCheck.InBackoffIff | src/update_check.rs:241-256 | the upstream is left alone iff the cache does not answer and the last request failed less than its wait ago |
| UpdateCheck.WaitIs | src/update_check.rs:248-253 | the wait is at least every hint up to the limit, and no longer than there is a reason for |
| UpdateCheck.CacheNeverEmpty | src/update_check.rs:234-292 | "usable cache did not contain a release" and "304 without a cached release" are unreachable with an honest upstream |
| UpdateCheck.FailureBacksOff | src/update_check.rs:241-256 | after a failure the next request, forced or not, is at least the smaller backoff later |

## Left out

- Exhausted 64-bit counters: event numbers, revisions and generations are `nat`; the source aborts when one of them is exhausted. Day numbers within 719468 of the 64-bit maximum are likewise not modelled.
- Wire shapes: `PaneDelta` and `NotifDelta` are one type with the two forms the ledger builds; snapshot list order, decimal strings and JSON are not modelled.
- Delivery: which orders the sending threads can produce is not modelled, since some paths broadcast after releasing the ledger lock; convergence is stated for every order.
- Mutex poisoning, hooks, the event bus, and the display messages that accompany a delta.
- The overlays of the client store, and the rows of `evaluate_ingest_gate` for finished commands and keywords.
- `std::str::from_utf8` is modelled by what it documents, `valid_up_to`; the synchronized-output watchdog beside it does not affect what is broadcast there and is left out.
- Utf8Stream.LosslessIffShortRest: says nothing about what malformed streams look like beyond validity and the tail bound; the source replaces the whole remaining tail by one replacement character there.
- SessionInterleaving.InvHolds: TTL fixed during a run; cleanup comes to each session in a step of its own.
- SessionStore.CleanupUnobservable: calls one after the other; `SessionInterleaving` has the overlapping ones.
- UnreadHistory.QueuesRefineHistory: says nothing about runs whose calls reach the ledger in another order than that of their clock readings.
- VerificationCodes.LifeIsOrderly: TTL fixed during a life; one entry only, since identifiers are fresh.
- CodeRates.RateBound: limit fixed during a run.
- Lockout.LockoutBound: attempts of one address one after the other, per-address strategy, fixed settings; concurrent attempts can each pass the check before any of them is recorded.
- Lockout.AuthGuard.RecordAuthFailure: `u32` wrap-around of the counters is not modelled.
- UpdateCheck.RefreshedIsCurrent: version order is a number, and release validation and asset selection are part of the response; an upstream that does not honour `If-None-Match` is not covered.
- Hashing, UUIDs, random codes, constant-time comparison: hashes are numbers, identifiers are parameters, comparison is equality.
- Desktop entries: file access and atomic replacement, and the Windows and macOS registrations.
- Session lists, virtual screens, settings, tabs, SSH, file watching, metrics and HTTP handlers.
