# A verified model of Pockly's synchronisation core

Pockly keeps coding-agent sessions of many machines visible in a browser. Three programs cooperate: a wrapper beside
the agent (Go), the Nexus server (JavaScript, with an in-memory and an SQL store) and the browser client (TypeScript).
This project models the parts of them that have to keep data straight while it moves, and proves what they keep.

| file | what it models |
|---|---|
| `Maps.dfy` | optional values and maps as partial functions |
| `NumberedTurns.dfy` | turns as they travel to the browser: number and payload |
| `SeqSets.dfy` | finite sets of turn numbers: intervals, extremes, the latest run, "top-K absorbs", "first-K absorbs" |
| `TurnStats.dfy` | the summary row cached per session, its incremental merge, the backfill cursor, three ways to find the latest run |
| `HotWindow.dfy` | the server's window of newest turns per session and the browser's turn cache |
| `SessionEvents.dfy` | the poll that merges stored and transient turns under one cursor |
| `CatalogLog.dfy`, `CatalogDelta.dfy`, `CatalogPaging.dfy`, `CatalogSync.dfy` | the session catalog: change log with debounced rewriting, delta polls, keyset pages, the browser's merge, and whole runs of all of them |
| `AnsiStrip.dfy`, `AnsiChunks.dfy` | the terminal stripper, whole-buffer and chunk by chunk |
| `DeviceSupersession.dfy` | a daemon device taking over from another, in memory and in SQL |
| `PayloadArchive.dfy` | large payloads in a content-addressed blob store: writing, reading, and a response's shared reads |
| `JsonlTailer.dfy`, `RetryQueue.dfy`, `ArgvLocking.dfy` | the wrapper's transcript tailer, its outbound queue, and pinning an agent to a session |
| `ControlHub.dfy`, `TabLeader.dfy` | the daemon connection hub with its requests and streams; the browser tab lease |
| `Bytes.dfy` | bytes and line ends |

Each loop or method of the source is a Dafny method proved against a specification function or relation; stores, hub,
tailer, queue and tabs that the source updates in place are classes. The theorems are about the specifications.

## What was found

- The comment at `daemon/cmd/pockly-claude-wrapper/ansi_strip.go:114-116` says that any chunking is invariant. Where ESC
  never follows ESC and only starts the terminator in a control string, that holds exactly when every CSI fits the carry
  window, every control string fits it or sticks out only with bytes that leave no text, and no two-byte escape ends in
  a UTF-8 leader or in a CR without its LF (`InvariantIffFits`). For the other streams `DoubleEscChangesIff` and
  `EscInBodyChangesIff` say when a cut after the offending ESC changes the text, whatever the length; before a CSI a
  second ESC always does (`DoubleEscBeforeCsiBreaks`). Any stream at all is decided by the states its reader can be in
  (`AllCuttingsAgreeIff`).
- The incremental row equals a recount for every upload. A prune in the same sync breaks it exactly when something was
  pruned, the row was merged, and anything of the record changed (`SyncStaysFaithfulIff`, `PruneBreaksRow`); the live
  sink breaks it exactly when it has a new turn to store (`LiveSinkStaysFaithfulIff`, `LiveSinkBreaksRow`).
- The backfill cursor always points at a gap, but answering it does not fill the gap in general: a daemon that reports
  its numbers is turned away with every window that ends below the total (`nexus/src/app.js:1396-1412`). Such a session
  ends complete only if at most newer turns were missing, they fit the window, and the first answer reaches down to the
  stored ones (`ReportedBackfillCompletesIff`). With 141..240 of 240 stored nothing is ever written
  (`OlderWindowsAreRefused`). Without reported numbers the session completes exactly when the window has a place for
  every turn (`UnreportedBackfillCompletesIff`).
- The browser applies all deletes of a delta before all upserts. That is a replay of the page exactly when no key's
  delete follows its upsert (`DeltaIsReplayIff`); a session created and deleted between two polls stays visible
  (`GhostSession`).
- Where `claude --continue` is pinned to a session, a prompt right behind the flag is taken for its value and dropped
  (`daemon/cmd/pockly-claude-wrapper/main.go:3030-3037`, `PinnedContinue`).
- `Emit` is documented to keep order during outages (`daemon/cmd/pockly-claude-wrapper/main.go:1420-1440`). It sends the
  new event even when the queue did not drain, so order is kept exactly as long as no event gets through while a queued
  one does not (`AlwaysInOrderIff`, `SecondEventOvertakes`).
- A line the scanner cannot hold is never passed, and every tick delivers the records before it once more
  (`StuckTicks`, `LongLineRepeatsRecord`). A file that shrank is read again (`ShrunkFileIsReadAgain`), but one that was
  replaced and has outgrown the offset by the next tick is not (`ReplacedFileCanLoseRecord`).
- A stream request under an id still in flight takes the events of the first stream, and the first stream's timer goes
  on to end the second (`ServesAllIffNoReuse`, `AlwaysServesIffFresh`, `ReusedIdCutsStream`).
- The late close of a socket that was replaced leaves the device online, but fails the streams started over the new
  socket as well (`nexus/src/control.js:191-204`, `StaleCloseEndsNewStreams`).
- Two tabs lead at once exactly when a leader lets its lease run out before another tab's heartbeat; late followers do
  no harm (`OneLeaderIffInTime`, `LateLeaderSplits`).
- The in-memory and the SQL supersession agree on sessions, project preferences and events, and on the other tables
  exactly under the conditions in `TwinsAgreeIff`: SQL overwrites hints, merges preferences, moves only active
  bindings, and leaves out turns of a session whose id is the empty string (which a sync refuses). `TwinsCanDiffer`
  gives an input on which preferences, hints and bindings differ.
- The in-memory supersession does not test that the two devices differ, as the SQL one does. A device that replaced
  itself would lose its sessions, turns, preferences, hints and events (`SelfSuperseded` in the contract of
  `SupersedeDaemonDevice`); the caller's test at `nexus/src/app.js:4101` prevents it.
- The key of the shared blob cache does not tell the encoding, and all turns of a response share the read that the first
  pointer to a key has started, also its failure. A turn gets what it would get on its own exactly when its blob is gone,
  that first pointer states the same encoding, or the blob is compressed and both ways of reading it are invalid
  (`SharedResultIsOwnIff`, `CacheCanMislead`). What the server archives itself always reads back
  (`ArchivedUploadReadsBack`, `ArchiveAndRead`).

## Model

| member | source | states |
|---|---|---|
| `SeqSets.TopKAbsorbs` | nexus/src/store.js:623-691 | trimming one side to its K largest before a union does not change the K largest of the union |
| `SeqSets.FirstKAbsorbs` | nexus/src/app.js:2298-2321 | cutting one side to its k smallest before a union does not change the k smallest of the union |
| `TurnStats.SummarizeUpload` | nexus/src/app.js:1336-1350 | the count, minimum and maximum the upload loop collects are those of the set of uploaded numbers |
| `TurnStats.MergeRefinesRecount` | nexus/src/app.js:4274-4335 | for every faithful row and every upload the merge asks for the full query exactly for an empty or gapped upload, or a gapped row the upload is not wholly above or below; otherwise it gives count, minimum, maximum and latest run of the union |
| `TurnStats.MergeOfInterval` | nexus/src/app.js:4289-4335 | the same for one interval, from set cardinalities |
| `TurnStats.SyncStaysFaithfulIff` | nexus/src/app.js:4404-4424 | after a sync the row is the recount exactly when nothing changed, nothing had to be pruned, the full query was asked for, or only known turns came in with the record otherwise unchanged |
| `TurnStats.PruneBreaksRow` | nexus/src/app.js:1276-1284 | for every window size, one more turn than fits makes the row of a full window wrong |
| `TurnStats.RunStaysFaithful` | nexus/src/app.js:4253-4335 | over any run of uploads that together fit the window the row never drifts and no turn is lost |
| `TurnStats.LiveSinkStaysFaithfulIff` | nexus/src/app.js:2850-2853 | a live upsert leaves the row right exactly when each of its turns is stored already or older than all of a full window |
| `TurnStats.LiveSinkBreaksRow` | nexus/src/app.js:2850-2853 | one stored turn, the next one live, room for both: the row is wrong |
| `TurnStats.KeptWindowIff` | nexus/src/store.js:640-691 | merging turns into a window and pruning it leaves it as it is exactly under that condition |
| `TurnStats.BackfillPointsAtGap` | nexus/src/app.js:4627-4643 | a cursor b means b - 1 is missing; 0 means all of 1..total is stored, and only that |
| `TurnStats.BackfillStopsIff` | nexus/src/app.js:4627-4643 | when the cursor is 0 if total does not bound the stored turns |
| `TurnStats.BackfillStartsAtRun` | nexus/src/app.js:4627-4643 | the cursor is the start of the latest run while older turns are claimed, unknown or missing, else one past the total if the end is missing |
| `TurnStats.AnswerStoresIff` | nexus/src/app.js:1396-1412 | an answered cursor changes what is stored exactly when the durability guard lets it in and there is room, or an older turn to give up, for the newest missing turn |
| `TurnStats.RefusedIff` | nexus/src/app.js:1396-1412 | the durability guard turns away exactly what reports both numbers and ends below its total, or was opened without a stored turn |
| `TurnStats.AnswerFits` | nexus/src/app.js:1137-1148 | with a place for every turn an admitted answer joins what is stored and the row stays right; a refused one changes nothing |
| `TurnStats.ReportedBackfillCompletesIff` | nexus/src/app.js:1396-1412 | any series of answers that report turn_count and max_seq ends with 1..total exactly when it was complete, or only newer turns were missing, total <= perSession and the first answer reaches down to the stored turns |
| `TurnStats.ReportedBackfillIsRefused` | nexus/src/app.js:1396-1412 | where an older turn is missing such answers never write anything |
| `TurnStats.UnreportedBackfillCompletesIff` | nexus/src/app.js:1396-1412 | as many answers without those numbers as turns are missing end with 1..total exactly when total <= perSession |
| `TurnStats.SmallWindowNeverCompletes` | nexus/src/app.js:4946-4988 | with fewer places than turns no series of answers does |
| `TurnStats.OlderWindowsAreRefused` | nexus/test/api.test.js:5515-5600 | 141..240 of 240 in a window of 100: the cursor is 141 and no reported answer writes anything |
| `TurnStats.NoOlderTurnsIffComplete` | nexus/src/app.js:4674-4698 | with turns stored, has_older is false exactly when the daemon does not claim more and, for a known total, turn 1 and at least total turns are stored (within the total: all of them), for an unknown one the row did not say so |
| `TurnStats.GetSessionTurnStats` | nexus/src/store.js:759-776 | the backwards loop gives count, extremes and the start of the maximal run ending at the maximum |
| `TurnStats.SqlFindsRun` | nexus/src/store.js:2405-2432 | MIN(seq) over the rows with seq + row_number = max + 1 is the start of that run |
| `TurnStats.LatestContiguousTurnTail` | nexus/src/app.js:4560-4577 | the tail is exactly the run ending at the given number, in order, and empty if that turn is not stored |
| `TurnStats.RunsAgree` | nexus/src/app.js:4560-4577 | loop, SQL form and tail start at the same turn for every stored set |
| `HotWindow.DedupeTurnRecords` | nexus/src/app.js:5076-5078 | one record per key remains, with the last payload |
| `HotWindow.SelectNewest` | nexus/src/app.js:5002-5019 | sorting newest first and slicing gives the K largest numbers |
| `HotWindow.NewestTurnRecordsByGroup` | nexus/src/app.js:5002-5019 | per session exactly the newest K records remain, with their payloads |
| `HotWindow.InMemoryNexusStore.UpsertTurns` | nexus/src/store.js:619-622 | the batch is put over the table, last record of a key winning |
| `HotWindow.InMemoryNexusStore.PruneHotTurnCache` | nexus/src/store.js:623-691 | exactly the turns beyond the newest K of each session in scope go; the sessions reported are those that lost one |
| `HotWindow.PrunedInScope` | nexus/src/store.js:655-675 | a turn goes exactly if its user and session are asked for, none named standing for all, and enough newer turns are in its session |
| `HotWindow.InMemoryNexusStore.FilterChangedTurnRecords` | nexus/src/app.js:5031-5063 | what is written is what is new or has another payload |
| `HotWindow.InMemoryNexusStore.UpsertChangedTurns` | nexus/src/app.js:4946-4988 | the whole write path leaves the specified table; a session not reported as pruned lost no stored turn, a reported one lost some |
| `HotWindow.CollectPruned` | nexus/src/store.js:640-691 | the delete scan over the groups drops exactly the turns beyond the newest K |
| `HotWindow.UploadSession` | nexus/src/app.js:4946-5019 | one upload leaves in each session the newest K of what was stored and what was sent, so the pre-filter loses nothing |
| `HotWindow.WindowIsNewestK` | nexus/src/app.js:4946-5019 | after any sequence of uploads each session holds the K largest of everything ever uploaded, each with its latest payload |
| `HotWindow.MergeSessionTurnsCache` | web/src/session-turns-cache.ts:34-61 | the browser's merge, sort and trim keep the newest 500 of both sides, incoming payloads winning, in order |
| `HotWindow.CacheIsNewestK` | web/src/session-turns-cache.ts:99-109 | over any series of responses the cache is the newest K of everything received |
| `SessionEvents.ListSessionTurnsAfter` | nexus/src/store.js:790-800 | the page is the smallest numbers past the cursor, in order |
| `SessionEvents.MergeSessionTurnsWithTransientTurns` | nexus/src/app.js:2298-2315 | stored turns win per number, the first transient one counts, result sorted and cut |
| `SessionEvents.FirstOfIsFirst` | nexus/src/app.js:2308-2311 | of several transient turns with one number the first gives the payload |
| `SessionEvents.SessionEventsTurns` | nexus/src/app.js:2208-2230 | although the stored side is cut before the merge, the page is the front of all turns past the cursor |
| `SessionEvents.CutSideIsEnough` | nexus/src/app.js:2208-2230 | cutting the stored side first does not change the merged page |
| `SessionEvents.NoTurnIsSkipped` | nexus/src/app.js:2208-2230 | the response has exactly the turns with after_seq < seq <= next_seq, with the stored payload or else that of the first transient turn, and the cursor stands still only when there is nothing past it |
| `CatalogLog.ReplayAt` | nexus/src/store.js:449-477 | replaying a log leaves at each key the effect of its last change |
| `CatalogLog.CoalesceSessionCatalogChangeRowsForWrite` | nexus/src/store.js:2890-2907 | a row is left out exactly if the next row of its key is an upsert that follows this upsert within the window; nothing new enters, each key's last change stays, ids are unique |
| `CatalogLog.SessionCatalogChanges.FindRecentSessionCatalogChange` | nexus/src/store.js:479-498 | the backwards search finds the last place of the key inside the debounce window, or none |
| `CatalogLog.SessionCatalogChanges.AppendSessionCatalogChangeRows` | nexus/src/store.js:449-477 | the log gains the last change of every written key, changes of other keys stay but for truncation to the newest 10,000 places, ids stay unique; a single row goes over the latest recent change of its key if both are upserts and else to the end, and without debouncing all rows go to the end |
| `CatalogDelta.ListSessionCatalogChanges` | nexus/src/store.js:500-507 | the page is the first changes past the cursor in id order |
| `CatalogDelta.ListSessionsDelta` | nexus/src/app.js:1813-1838 | a delta is the upserts and deletes of a page, its last id as cursor, and has_more exactly when changes are left |
| `CatalogDelta.MergeSessionCatalogDelta` | web/src/session-catalog-cache.ts:31-53 | the browser's merge removes all deleted keys and then puts all rows |
| `CatalogDelta.DeltaAt` | web/src/session-catalog-cache.ts:31-53 | key by key the merge is the replay, except that a row deleted after its upsert comes back |
| `CatalogDelta.DeltaIsReplayIff` | web/src/session-catalog-cache.ts:31-53 | the merge equals replaying the page exactly when no key's delete follows its upsert |
| `CatalogPaging.CursorAgreesWithSort` | nexus/src/store.js:2924-2946 | the after-cursor test and the sort comparator are one strict order |
| `CatalogPaging.SessionCatalogInitialPage` | nexus/src/app.js:1851-1869 | a page is the next rows past the cursor, newest first; has_more exactly when rows are left, and then the page is full |
| `CatalogPaging.PageStep` | nexus/src/store.js:421-427 | appending a page to the pages before it keeps the front of the sorted catalog and leaves fewer rows |
| `CatalogPaging.LoadAllPages` | nexus/src/app.js:1851-1869 | following the cursor to the end terminates with every row once, newest first, then by device and session |
| `CatalogSync.StepsThatCanHappen` | nexus/src/app.js:1813-1869 | the runs meant: writes of new ids that drop only read changes, first and further pages, and any page of unread changes |
| `CatalogSync.WriteKeepsInv` | nexus/src/store.js:449-507 | no write, debounced rewrite or truncation behind the cursor disturbs "unread log over view = catalog" |
| `CatalogSync.PagesKeepInv` | web/src/session-catalog-cache.ts:55-85 | nor does loading a page of the initial catalog while writes go on |
| `CatalogSync.PollKeepsInvIff` | web/src/session-catalog-cache.ts:31-53 | a poll keeps it exactly when every key the page deletes after upserting has a later change past the page |
| `CatalogSync.RunConverges` | nexus/src/app.js:1813-1838 | over every run of writes, pages and harmless polls it is invariant, and a browser that has read everything shows the server's catalog |
| `CatalogSync.PollsCatchUp` | nexus/src/app.js:1813-1838 | with no more writes, as many polls as changes are unread read all of them, whatever their limits |
| `CatalogSync.PagesEnd` | nexus/src/app.js:1851-1869 | with no more writes, loading pages ends after at most one page more than rows are left, and only with a page without has_more |
| `CatalogSync.GhostSession` | web/src/session-catalog-cache.ts:31-53 | a run from the empty world (create, delete, poll) after which a browser that has read everything shows a session the server does not have |
| `AnsiStrip.StripANSICore` | daemon/cmd/pockly-claude-wrapper/ansi_strip.go:180-288 | the index loop computes the token-by-token strip |
| `AnsiStrip.SkipCsi` | daemon/cmd/pockly-claude-wrapper/ansi_strip.go:195-228 | the CSI scan ends where the token ends and leaves a space after final G or C |
| `AnsiStrip.SkipString` | daemon/cmd/pockly-claude-wrapper/ansi_strip.go:229-262 | the control-string scan ends past BEL or the two-byte terminator, or at the end |
| `AnsiStrip.CsiLeaves` | daemon/cmd/pockly-claude-wrapper/ansi_strip.go:195-228 | a CSI with any parameters and intermediates leaves one space if its final byte is C or G and nothing otherwise, whatever follows |
| `AnsiStrip.CsiCutShort` | daemon/cmd/pockly-claude-wrapper/ansi_strip.go:195-228 | a CSI that meets another byte, or the end, first is dropped up to there |
| `AnsiStrip.ControlStringLeavesNothing` | daemon/cmd/pockly-claude-wrapper/ansi_strip.go:229-258 | OSC, DCS, SOS, PM and APC are dropped with either terminator, or to the end without one |
| `AnsiStrip.TwoByteEscapeLeavesNothing` | daemon/cmd/pockly-claude-wrapper/ansi_strip.go:259-262 | any other escape is dropped with its second byte, and so is an ESC at the end |
| `AnsiStrip.LineEndLeavesLf` | daemon/cmd/pockly-claude-wrapper/ansi_strip.go:263-273 | CR LF and a CR alone become one LF |
| `AnsiStrip.OtherByteLeaves` | daemon/cmd/pockly-claude-wrapper/ansi_strip.go:274-285 | of the other bytes C0 but LF and TAB, and DEL, are dropped and all others kept |
| `AnsiStrip.EscapeIncomplete` | daemon/cmd/pockly-claude-wrapper/ansi_strip.go:55-82 | an escape is incomplete exactly while its final byte or terminator has not arrived |
| `AnsiStrip.IncompleteUTF8TailLen` | daemon/cmd/pockly-claude-wrapper/ansi_strip.go:87-108 | the length of the unfinished rune at the end |
| `AnsiStrip.IncompleteTailLen` | daemon/cmd/pockly-claude-wrapper/ansi_strip.go:23-51 | how many bytes are held back: escape, CR or rune |
| `AnsiStrip.HoldIsBounded` | daemon/cmd/pockly-claude-wrapper/ansi_strip.go:23-51 | never more than 128 bytes are held |
| `AnsiStrip.CsiWaits` | daemon/cmd/pockly-claude-wrapper/ansi_strip.go:55-82 | a CSI waits until its final byte follows its parameters and intermediates |
| `AnsiStrip.EscapeWaits` | daemon/cmd/pockly-claude-wrapper/ansi_strip.go:55-82 | an ESC alone waits, a control string until BEL or ESC \\ has come, any other escape does not |
| `AnsiStrip.RuneWaits` | daemon/cmd/pockly-claude-wrapper/ansi_strip.go:87-108 | r bytes are held exactly if they are the start of a UTF-8 rune of more than r bytes |
| `AnsiStrip.HeldIs` | daemon/cmd/pockly-claude-wrapper/ansi_strip.go:23-51 | held is the last escape among 128 bytes if it waits, else a CR at the end, else the start of a rune |
| `AnsiStrip.HeldWithoutEscape` | daemon/cmd/pockly-claude-wrapper/ansi_strip.go:23-51 | the same without an ESC among them |
| `AnsiStrip.StripANSIChunk` | daemon/cmd/pockly-claude-wrapper/ansi_strip.go:117-128 | a chunk strips what is not held and hands the held tail on |
| `AnsiStrip.StripIsClean` | daemon/cmd/pockly-claude-wrapper/ansi_strip.go:180-288 | no ESC, CR, DEL or C0 byte but LF and TAB comes out, and never more bytes than went in |
| `AnsiStrip.StripIsStable` | daemon/cmd/pockly-claude-wrapper/ansi_strip.go:180-288 | stripping stripped text changes nothing |
| `AnsiChunks.ReadAll` | daemon/cmd/pockly-claude-wrapper/ansi_strip.go:110-128 | the reader's loop is the fold of chunk steps with the last tail flushed |
| `AnsiChunks.HoldCutsSafely` | daemon/cmd/pockly-claude-wrapper/ansi_strip.go:23-51 | on a good stream, whatever prefix has arrived, the held tail starts where the strip splits |
| `AnsiChunks.ChunkingIsInvariant` | daemon/cmd/pockly-claude-wrapper/ansi_strip.go:110-128 | on every good stream every cutting gives the whole-buffer strip, also through ESC \\, CR LF and runes |
| `AnsiChunks.InvariantIffFits` | daemon/cmd/pockly-claude-wrapper/ansi_strip.go:110-128 | for every stream without ESC ESC and without a stray ESC in a control string, whatever its bytes and lengths, all cuttings agree exactly when every escape fits |
| `AnsiChunks.MisfitBreaks` | daemon/cmd/pockly-claude-wrapper/ansi_strip.go:23-51 | where an escape does not fit, a cut into two reads changes the text |
| `AnsiChunks.DoubleEscChangesIff` | daemon/cmd/pockly-claude-wrapper/ansi_strip.go:55-82 | for two ESC at any token boundary, with a good stream from the second on, the cut between them and the rest changes the text exactly when the second ESC makes a difference to the strip |
| `AnsiChunks.DoubleEscBeforeCsiBreaks` | daemon/cmd/pockly-claude-wrapper/ansi_strip.go:55-82 | two ESC before any CSI always break |
| `AnsiChunks.EscInBodyChangesIff` | daemon/cmd/pockly-claude-wrapper/ansi_strip.go:55-82 | for a control string of any length whose body holds a stray ESC, with a good stream from it on, the cut after it changes the text exactly when the stream from that ESC strips to something else than what follows the string |
| `AnsiChunks.AllCuttingsAgreeIff` | daemon/cmd/pockly-claude-wrapper/ansi_strip.go:110-128 | for every stream whatsoever all cuttings agree exactly when in each state a reader can reach, a pair of places in the stream, what the next read passes on is the front of the text still owed |
| `AnsiChunks.DoubleEscBreaks` | daemon/cmd/pockly-claude-wrapper/ansi_strip.go:55-82 | an input of the first kind: a colour change after a stray ESC |
| `AnsiChunks.EscInBodyBreaks` | daemon/cmd/pockly-claude-wrapper/ansi_strip.go:55-82 | an input of the second kind: a title with an ESC in it |
| `DeviceSupersession.MoveRows` | nexus/src/store.js:202-241 | the in-memory scan of one table carries the rows that go to free places and removes all of the old device |
| `DeviceSupersession.MoveSessions` | nexus/src/store.js:176-200 | the same for sessions; the reported deletes and upserts replayed on the old catalog give the new one |
| `DeviceSupersession.InMemoryNexusStore.SupersedeDaemonDevice` | nexus/src/store.js:163-247 | refused exactly for devices of others; otherwise all eight tables are as specified, also for a device that replaces itself, and the reported changes replay |
| `DeviceSupersession.InMemoryNexusStore.SupersedeDaemonDevicesForMachine` | nexus/src/app.js:4096-4132 | after the loop over a machine's devices nothing is keyed to those that handed over, exactly these name the current one as successor and are offline, it has the union of their sessions, and the catalog changes of the whole loop replay |
| `DeviceSupersession.CopyTurnRowsForSessions` | nexus/src/store.js:1183-1212 | batches of fifty INSERT ... SELECT statements copy every turn of the moved sessions to a free place |
| `DeviceSupersession.UpdateSessionEvents` | nexus/src/store.js:1158-1169 | the batched updates rekey the events of exactly the moved sessions |
| `DeviceSupersession.SupersedeDaemonDeviceSql` | nexus/src/store.js:1110-1181 | copying and then deleting leaves the specified tables, and the reported changes replay |
| `DeviceSupersession.OldDeviceIsMarked` | nexus/src/store.js:169-174 | in both stores the old device's record names its successor, is offline and has the new time, with user and computer as before, and no other record changes |
| `DeviceSupersession.CopyThenDelete` | nexus/src/store.js:1171-1181 | copying a table and deleting the old rows is moving it |
| `DeviceSupersession.NothingStaysBehind` | nexus/src/store.js:163-247 | in both stores no row stays with the old device and no row of another user or device changes |
| `DeviceSupersession.SessionsAreUnited` | nexus/src/store.js:176-200 | the new device's ids are the union, its own rows unchanged, moved ones with their details, new time and its computer |
| `DeviceSupersession.TurnsGoWithTheirSession` | nexus/src/store.js:202-209 | a moved session has exactly its turns, a session the new device had keeps exactly its own |
| `DeviceSupersession.RowsLandInMemory` | nexus/src/store.js:202-245 | row by row at the new device, for five tables: its own rows stay, free places take the old device's row with the new time, session rows only with a session that moves |
| `DeviceSupersession.RowsLandInSql` | nexus/src/store.js:1134-1156 | the same for SQL, where hints and active bindings replace and preferences merge |
| `DeviceSupersession.EventsKeepOrder` | nexus/src/store.js:228-232 | events of moved sessions keep their order, all others stay |
| `DeviceSupersession.TwinsAgreeIff` | nexus/src/store.js:1110-1212 | the two stores agree on devices, sessions, project preferences and events, and on each other table exactly under a stated condition on colliding rows |
| `DeviceSupersession.TwinsCanDiffer` | nexus/src/store.js:1139-1156 | an input on which preferences, hints and bindings end up different |
| `DeviceSupersession.SupersedeBoth` | nexus/src/store.js:1110-1212 | both operations carried out on that input give different stores |
| `PayloadArchive.ExternalizeTurnPayloadCandidateBatch` | nexus/src/app.js:5161-5201 | each pointer is current for its turn and reads back the payload, exactly unless an earlier turn of the batch has the same number and another payload; nothing stored before changes |
| `PayloadArchive.GroupedPayloadCandidates` | nexus/src/app.js:5151-5159 | groups are a permutation of the candidates, one session each, sorted by number |
| `PayloadArchive.ExternalizeGroup` | nexus/src/app.js:5110-5138 | the group is cut in order, every candidate once, exactly where a byte or age limit asks for it |
| `PayloadArchive.SharedBatchIsWithinLimit` | nexus/src/app.js:5123-5129 | a batch of several payloads is within the byte limit |
| `PayloadArchive.EndsBeforeIff` | nexus/src/app.js:5123-5149 | a batch ends before a payload exactly if that would take it over the byte limit, or lies more than the age limit after the batch's first turn with a time |
| `PayloadArchive.ExternalizeTurnPayloadBatch` | nexus/src/app.js:5092-5139 | every turn of a deduplicated upload reads back as uploaded; exactly the payloads of at least the threshold, and those that look like pointers, are archived, once each, and point into a stored batch; all other turns are as they were, and at most one blob a batch is written |
| `PayloadArchive.OnlyOwnBlobsAreRead` | nexus/src/app.js:5482-5508 | a payload without the shape of a pointer is given as it is, a pointer to another user's, device's, session's or turn's blob is refused whatever is stored, and otherwise exactly the turn's own blob is read |
| `PayloadArchive.BlobTextGives` | nexus/src/app.js:5246-5257 | a single blob gives its value only with the stated hash |
| `PayloadArchive.BatchTextGives` | nexus/src/app.js:5270-5290 | a batch gives its first item of the number only with both stated hashes, and what is missing or invalid otherwise |
| `PayloadArchive.StillResolves` | nexus/src/app.js:5238-5260 | what could be read stays readable with the same result however much is archived later |
| `PayloadArchive.ResolveTurnPayload` | nexus/src/app.js:5238-5270 | one read finds the pending read of its key in the cache or starts it there, and its payload is what that read gives |
| `PayloadArchive.PublicTurns` | nexus/src/app.js:4849-4856 | each turn of a response gets what the read started by the first pointer to its key gives, also if that failed |
| `PayloadArchive.SharedResultIsOwnIff` | nexus/src/app.js:5260-5270 | for every response and turn this is the turn's own result exactly without a pointer, with the blob gone, with a first pointer of the same encoding, or with a compressed blob invalid in both readings |
| `PayloadArchive.MisreadDiffers` | nexus/src/app.js:5238-5290 | compressed bytes read as text never give what the text gives, unless both are invalid |
| `PayloadArchive.CacheChangesNothing` | nexus/src/app.js:5260-5270 | so nothing changes where pointers to one key state one encoding |
| `PayloadArchive.ArchivedUploadReadsBack` | nexus/src/app.js:4849-4856 | every turn of an archived upload reads back through the shared cache, also after more has been archived |
| `PayloadArchive.ArchiveAndRead` | nexus/src/app.js:5092-5139 | archiving an upload and serving it gives every reader what was uploaded |
| `PayloadArchive.CacheCanMislead` | nexus/src/app.js:5330-5338 | two pointers that disagree on a raw blob: the first one's reading, or its failure, is what both get |
| `JsonlTailer.Scan` | daemon/cmd/pockly-claude-wrapper/jsonl_watch.go:96-126 | the scanner delivers the records of the lines before the first it cannot hold |
| `JsonlTailer.Tailer.Tail` | daemon/cmd/pockly-claude-wrapper/jsonl_watch.go:53-127 | one tick reads from the stored offset to the last newline, or from 0 if the file shrank, and moves the offset only without error |
| `JsonlTailer.Tailer.Reset` | daemon/cmd/pockly-claude-wrapper/jsonl_watch.go:132-136 | the file is read from the start, others as before |
| `JsonlTailer.LinesSplit` | daemon/cmd/pockly-claude-wrapper/jsonl_watch.go:79-95 | cutting after a newline cuts the list of lines |
| `JsonlTailer.LineDelivers` | daemon/cmd/pockly-claude-wrapper/jsonl_watch.go:96-126 | a line delivers its text, less the CR of a CR LF, exactly if that is JSON and not all white space |
| `JsonlTailer.FitsIff` | daemon/cmd/pockly-claude-wrapper/jsonl_watch.go:97-99 | a line fits with its newline into 4 MiB |
| `JsonlTailer.TickFailsIff` | daemon/cmd/pockly-claude-wrapper/jsonl_watch.go:117-126 | a tick fails exactly if a line it reads does not fit, and then the offset stays |
| `JsonlTailer.PollKeepsInvIff` | daemon/cmd/pockly-claude-wrapper/jsonl_watch.go:96-127 | a tick keeps delivery and offset in step exactly when all pending lines fit or nothing deliverable precedes the first that does not |
| `JsonlTailer.StuckTicks` | daemon/cmd/pockly-claude-wrapper/jsonl_watch.go:96-127 | with a line in the way that does not fit, n ticks leave the offset and deliver the records before it n times |
| `JsonlTailer.LongLineRepeatsRecord` | daemon/cmd/pockly-claude-wrapper/jsonl_watch.go:96-127 | a record followed by such a line is delivered at every tick |
| `JsonlTailer.LongLineRepeatsDigit` | daemon/cmd/pockly-claude-wrapper/jsonl_watch.go:96-127 | such a file: a digit, then as many letters as the scanner's buffer holds |
| `JsonlTailer.PollDelivers` | daemon/cmd/pockly-claude-wrapper/jsonl_watch.go:53-127 | a tick over fitting lines delivers all of them and leaves none pending |
| `JsonlTailer.DeliversExactlyOnce` | daemon/cmd/pockly-claude-wrapper/jsonl_watch.go:53-127 | for any interleaving of appends and ticks each record of a complete line comes once, in order, and the offset is always at a line start |
| `JsonlTailer.ShrunkFileIsReadAgain` | daemon/cmd/pockly-claude-wrapper/jsonl_watch.go:66-70 | a file found shorter than the offset is delivered from its start, and the account goes on from there |
| `JsonlTailer.ReplacedFileCanLoseRecord` | daemon/cmd/pockly-claude-wrapper/jsonl_watch.go:66-74 | a file that was replaced and is longer than the offset again loses a record across it |
| `RetryQueue.SettlesIff` | daemon/cmd/pockly-claude-wrapper/main.go:1512-1571 | a send settles exactly when some slot of the loop is answered by a status that is neither 404 nor 5xx, or by 404 with the attempt after re-registration accepted |
| `RetryQueue.FirstConclusiveDecides` | daemon/cmd/pockly-claude-wrapper/main.go:1512-1571 | the first such slot decides: 2xx or that accepted attempt is sent, any other status gives the event up |
| `RetryQueue.QueuedSettlesIff` | daemon/cmd/pockly-claude-wrapper/main.go:1593-1613 | a queued event settles exactly if one of its slots does |
| `RetryQueue.EmitWithRetry` | daemon/cmd/pockly-claude-wrapper/main.go:1512-1571 | the retry loop, with its attempt after re-registration, computes that verdict |
| `RetryQueue.DaemonBridge.QueuePending` | daemon/cmd/pockly-claude-wrapper/main.go:1577-1591 | the event joins the end and only the oldest is evicted above 200 |
| `RetryQueue.DaemonBridge.DrainPending` | daemon/cmd/pockly-claude-wrapper/main.go:1593-1613 | a prefix settles, the rest stays in order |
| `RetryQueue.DaemonBridge.EmitOne` | daemon/cmd/pockly-claude-wrapper/main.go:1430-1440 | drain, send, queue on failure |
| `RetryQueue.EvictsIffFull` | daemon/cmd/pockly-claude-wrapper/main.go:1577-1591 | an event is evicted, the oldest, exactly when a new one fails behind 200 queued ones that do not move |
| `RetryQueue.DrainsToFirstFailure` | daemon/cmd/pockly-claude-wrapper/main.go:1593-1613 | a drain settles just the queued events before the first that fails |
| `RetryQueue.NothingIsLost` | daemon/cmd/pockly-claude-wrapper/main.go:1430-1440 | over every run each event is in exactly one of settled, pending and evicted; pending is in emission order, within 200, and newer than everything evicted |
| `RetryQueue.OrderKeptIff` | daemon/cmd/pockly-claude-wrapper/main.go:1420-1440 | one more emit or tick keeps the order of everything sent and pending exactly when the new event does not get through while a queued one does not |
| `RetryQueue.AlwaysInOrderIff` | daemon/cmd/pockly-claude-wrapper/main.go:1420-1440 | over whole runs everything is in order throughout exactly when that never happens |
| `RetryQueue.SecondEventOvertakes` | daemon/cmd/pockly-claude-wrapper/main.go:1420-1440 | from an empty queue: the first event fails, the second is sent while the first is still refused |
| `ArgvLocking.ParseClaudeInvocation` | daemon/cmd/pockly-claude-wrapper/main.go:2843-2918 | the index loop reads the flags as the scan function does and decides lockable, id and injection |
| `ArgvLocking.BareIsInjected` | daemon/cmd/pockly-claude-wrapper/main.go:2843-2918 | without session flags the generated id is to be injected |
| `ArgvLocking.LoneFlagDecides` | daemon/cmd/pockly-claude-wrapper/main.go:2843-2918 | among other tokens --continue, -c, --fork-session and a --resume or -r without value leave the session open, a --session-id at the end counts for nothing |
| `ArgvLocking.InlineValueDecides` | daemon/cmd/pockly-claude-wrapper/main.go:2843-2918 | --session-id=x and --resume=x pin x, trimmed, unless it is blank |
| `ArgvLocking.NextValueDecides` | daemon/cmd/pockly-claude-wrapper/main.go:2843-2918 | --session-id x with any token x, --resume x and -r x with one that is no flag, likewise |
| `ArgvLocking.ForkWins` | daemon/cmd/pockly-claude-wrapper/main.go:2843-2918 | --fork-session leaves the session open whatever follows |
| `ArgvLocking.IdWinsOverContinue` | daemon/cmd/pockly-claude-wrapper/main.go:2843-2918 | a session that is named wins over --continue |
| `ArgvLocking.StripFlags` | daemon/cmd/pockly-claude-wrapper/main.go:3023-3052 | exactly the tokens that are neither a named flag nor its value survive, in order |
| `ArgvLocking.ResolveLockedSessionID` | daemon/cmd/pockly-claude-wrapper/main.go:2939-2981 | the argv and decision for a bare, a pinned and a --continue invocation |
| `ArgvLocking.LeftAlone` | daemon/cmd/pockly-claude-wrapper/main.go:2939-2981 | a fork, a named session and a project without sessions leave the command line as it is |
| `ArgvLocking.PinnedContinue` | daemon/cmd/pockly-claude-wrapper/main.go:3023-3052 | pinning --continue keeps every other token in order, except that a token right behind it that is no flag, such as a prompt, is dropped with it |
| `ArgvLocking.TrimTakesBlanks` | daemon/cmd/pockly-claude-wrapper/main.go:2850 | trimming takes off white space, and all of it at either end |
| `ArgvLocking.InjectedReadsBack` | daemon/cmd/pockly-claude-wrapper/main.go:2939-2981 | an injected id is read back exactly when the user's argv has no session flag of its own |
| `ArgvLocking.PinnedReadsBack` | daemon/cmd/pockly-claude-wrapper/main.go:2939-2981 | a pinned --resume is read back exactly when no fork flag is left and no --session-id dangles |
| `ArgvLocking.LockingIsFixedPointIff` | daemon/cmd/pockly-claude-wrapper/main.go:2939-2981 | for every lockable argv, parsing the result gives the same id and no injection exactly under a stated condition |
| `ArgvLocking.EverydayArgvReadsBack` | daemon/cmd/pockly-claude-wrapper/main.go:2939-2981 | argv without padded tokens and without blank or dangling session values meets the condition |
| `ArgvLocking.BlankSessionIdUnlocks` | daemon/cmd/pockly-claude-wrapper/main.go:2939-2981 | `--session-id=` on its own is reported locked and is not when parsed again |
| `ControlHub.OnlineIffLastSocketOpen` | nexus/src/control.js:166-204 | over all runs a device is online exactly when the last socket registered for it has not closed |
| `ControlHub.RequestsSettleOnce` | nexus/src/control.js:525-544 | over all runs each accepted request settles at most once and only by a reply of the awaited type |
| `ControlHub.AcceptsIffTaken` | nexus/src/control.js:525-536 | over all runs a request is accepted exactly if it has an id, no accepted request under it is unanswered, and its device's last socket is open |
| `ControlHub.PendingIffWaits` | nexus/src/control.js:525-544 | over all runs a request is pending exactly if it was accepted and sent and neither its reply nor its timeout has come |
| `ControlHub.RequestOutcome` | nexus/src/control.js:525-544 | an accepted request is settled at once by a failed send, else by the first reply of its type with that payload, or its timeout, and waits until then |
| `ControlHub.NothingElseSettles` | nexus/src/control.js:899-905 | no other event accepts or settles anything |
| `ControlHub.StreamReceivesExpected` | nexus/src/control.js:562-601 | a live stream receives its own events in order up to the first closing one, its timeout or its daemon's close |
| `ControlHub.StreamFromStart` | nexus/src/control.js:562-601 | the same from the start of a stream in any run, after the initial event |
| `ControlHub.StreamEndsAsExpected` | nexus/src/control.js:1015-1027 | a stream is open, registered and timed until its first ending event; after it the timer is off, and the browser's end closed unless the browser left |
| `ControlHub.FailedStartIsOver` | nexus/src/control.js:586-590 | a stream whose send fails gets its initial event and the error and is closed |
| `ControlHub.ClosedControllerStops` | nexus/src/control.js:1352-1355 | a write to a closed controller throws, and the handler goes no further |
| `ControlHub.NothingAfterwards` | nexus/src/control.js:1015-1027 | after its end nothing is written to a stream |
| `ControlHub.StepKeepsTidyIff` | nexus/src/control.js:562-593 | an event leaves every timer with a stream of its own exactly when it is not an accepted start under an id in flight |
| `ControlHub.ServesAllIffNoReuse` | nexus/src/control.js:562-601 | whatever fresh events follow, every open stream gets its events if and only if this event does not reuse an id |
| `ControlHub.AlwaysServesIffFresh` | nexus/src/control.js:562-601 | over whole runs all streams are served throughout exactly when no accepted start reuses an id in flight |
| `ControlHub.ReusedIdCutsStream` | nexus/src/control.js:562-593 | an id reused in flight lets the first stream's timer end the second stream |
| `ControlHub.StaleCloseEndsNewStreams` | nexus/src/control.js:191-204 | the close of a replaced socket changes no device and yet fails every open stream of the device |
| `ControlHub.InMemoryControlHub.RegisterDaemonConnection` | nexus/src/control.js:166-190 | the new socket replaces the old one |
| `ControlHub.InMemoryControlHub.OnDaemonConnectionClosed` | nexus/src/control.js:191-204 | only the current socket's close takes the device offline; the device's streams fail |
| `ControlHub.InMemoryControlHub.FailStreamsForDaemon` | nexus/src/control.js:1002-1013 | every stream of the device gets the failure and closes, others are untouched |
| `ControlHub.InMemoryControlHub.RequestResponse` | nexus/src/control.js:525-544 | refused without id, with an id in flight, offline or when the send fails |
| `ControlHub.InMemoryControlHub.DeliverPending` | nexus/src/control.js:899-905 | a reply settles its request only with the awaited type |
| `ControlHub.InMemoryControlHub.StreamRequest` | nexus/src/control.js:562-601 | a stream is registered with a running timer and its initial event |
| `ControlHub.InMemoryControlHub.DeliverStream` | nexus/src/control.js:918-934 | an event is written to its stream and closes it when asked to |
| `ControlHub.InMemoryControlHub.OnStreamTimeout` | nexus/src/control.js:562-601 | a timer writes the timeout and closes the stream registered under its id |
| `TabLeader.RenewsTwiceALease` | web/src/workspace-tab-leader.ts:49-50 | whatever the options, 250 <= renewMs <= leaseMs / 2 |
| `TabLeader.OptionsAreClamped` | web/src/workspace-tab-leader.ts:49-50 | options are taken within their bounds, with the defaults of 8 and 2.5 seconds |
| `TabLeader.WorkspaceTabLeader.constructor` | web/src/workspace-tab-leader.ts:30-66 | a tab opens with a first heartbeat, or leads alone without storage |
| `TabLeader.WorkspaceTabLeader.Heartbeat` | web/src/workspace-tab-leader.ts:67-83 | the lease is taken or renewed exactly when it is free, expired or own |
| `TabLeader.WorkspaceTabLeader.OnChannelMessage` | web/src/workspace-tab-leader.ts:85-91 | a live lease of another tab makes a leader step down, nothing else does |
| `TabLeader.WorkspaceTabLeader.Close` | web/src/workspace-tab-leader.ts:115-128 | an open leader that owns the lease removes it |
| `TabLeader.BeatKeepsInv` | web/src/workspace-tab-leader.ts:67-83 | every open leader keeps owning a live lease through any heartbeat |
| `TabLeader.BeatLeadsIff` | web/src/workspace-tab-leader.ts:67-83 | a heartbeat leads exactly if no lease is stored, it has run out or it is its own, and then stores one for the full time |
| `TabLeader.LeaderRenews` | web/src/workspace-tab-leader.ts:74-81 | the heartbeat of an open leader leaves it leader with the lease renewed |
| `TabLeader.LeadsUntilUnseated` | web/src/workspace-tab-leader.ts:67-128 | over runs a leader leads on exactly until it closes or a live lease of another tab is delivered to it |
| `TabLeader.EventsThatCanHappen` | web/src/workspace-tab-leader.ts:67-128 | the runs meant: only waiting past a leader's lease, and tabs that are not there or closed, are ruled out |
| `TabLeader.CloseKeepsOthersLease` | web/src/workspace-tab-leader.ts:115-128 | a closing tab never removes another tab's lease |
| `TabLeader.NeverTwoLeaders` | web/src/workspace-tab-leader.ts:67-128 | with the leader's heartbeats in time, however late the others, no reachable state has two open leaders, under any delay or order of messages and any closes |
| `TabLeader.OneLeaderIffInTime` | web/src/workspace-tab-leader.ts:67-83 | after any wait a heartbeat of a new or open tab leaves at most one leader exactly when no other leader's lease has run out |
| `TabLeader.LateLeaderSplits` | web/src/workspace-tab-leader.ts:67-83 | an input on which it has |
| `TabLeader.NextBeatTakesOver` | web/src/workspace-tab-leader.ts:115-128 | after a leader closes, the next open tab to beat leads |

## Abstractions

- Session and device ids of the catalog are integers under one total order. The source sorts with `localeCompare` and
  tests cursors with `<`; the paging theorems take both to be the same order. The browser's string key joins device and
  session with `:`; the model keys by the pair.
- Change ids grow strictly, every catalog change is logged, and the log is only cut where the browser has read.
- Store calls, heartbeats and hub callbacks are atomic steps with given timestamps. Library sorts are `SortAscending`
  and insertion sorts on the same comparator; compressed data and JSON are inverse pairs and SHA-256 is injective, by
  using free constructors.
- Turn numbers are integers, positive where the source assigns them.
- SQL tables are maps, a statement is one set operation; `Tables` is a value there, an object's fields in memory.
- Bindings are keyed by user as well: a daemon device has one user.
- The listing of a machine's devices names each device once, as device ids are primary keys.

## Left out

- TurnStats.SummarizeUpload: models `turnStatsBySession` for one session; the grouping by session is not repeated.
- HotWindow.InMemoryNexusStore.PruneHotTurnCache: the TTL and the per-user retention by timestamp are not modelled; they add parameters to the per-session argument.
- HotWindow.InMemoryNexusStore.UpsertChangedTurns: the second selection per user and the global prune are not modelled, nor in `UploadSession` and `WindowIsNewestK`: the law is for the window per session.
- HotWindow.UploadSession: as above, without the cut per user.
- HotWindow.WindowIsNewestK: as above, without the cut per user.
- HotWindow.InMemoryNexusStore.FilterChangedTurnRecords: payload equality is equality of texts; equivalence of a stored pointer with the payload it stands for is not modelled.
- CatalogLog.SessionCatalogChanges.AppendSessionCatalogChangeRows: of several rows in one call, which older changes of their keys survive is left open; replay does not depend on it.
- CatalogPaging.CursorAgreesWithSort: takes one total order where the source sorts with `localeCompare` and compares cursors with `<`.
- CatalogSync.RunConverges: one user and one browser; several browsers do not interact. The reset by an expired cursor (a fresh first page) is not a step of its own.
- AnsiStrip.StripANSICore: the trimming in `stripANSI` around it is not modelled.
- PayloadArchive.ExternalizeTurnPayloadBatch: the compression available to one call is the same for all its batches; the policy for placeholders of hot payloads, cost metrics and blob deletion are not modelled.
- JsonlTailer.Tailer.Tail: read errors in the middle of a file are one failure outcome; a record is a line and whether it parses; blank means ASCII white space.
- RetryQueue.DaemonBridge.EmitOne: events that re-registration itself emits are not modelled.
- ArgvLocking.ParseClaudeInvocation: `splitWrapperArgs`, which runs before it, is not modelled.
- ControlHub.InMemoryControlHub.RequestResponse: the send and its failure happen within the step.
- ControlHub.InMemoryControlHub.StreamRequest: the send and its failure happen within the step; terminals and push are not modelled.
- ControlHub.InMemoryControlHub.FailStreamsForDaemon: browser command streams are not modelled.
- ControlHub.InMemoryControlHub.DeliverStream: browser command streams and the capture of transient events are not modelled.
- AnsiChunks.DoubleEscChangesIff: asks for a good stream from the second ESC on, so of several offending ESC it judges the last; `AllCuttingsAgreeIff` covers the other streams. The same holds for `EscInBodyChangesIff`.
- TabLeader.NeverTwoLeaders: storage that throws or is cleared by the user is not modelled.
- HTTP routing, authentication, grants, JSON response shapes, environment flags, telemetry and user interface.
- PTY handling, signals, file watching and process scanning in the wrapper.
- Push encryption, key derivation and signatures.
