# Plumtree verification

Plumtree runs guest programs behind an SSH gateway: it renders their frames into the
viewer's terminal, filters their output, keeps their key/value data, deploys and serves
their artifacts, and survives crashes while doing so. This project models the parts of
it whose correctness is hard to see by reading, and proves them for every input, every
interleaving or every crash point.

`dafny verify dfyconfig.toml` checks the whole project. There is one module per
component:

- `Terminal`, `Screen`, `TtySink`, `FrameRate`, `Dedup`, `Abi`: the diff renderer, run byte by byte
  through a terminal that understands cursor positioning and graphic rendition
  (sections 8.3.21 and 8.3.117 of ECMA-48), its throttling sink with a clock for the
  frame-rate cap, and duplicate suppression. A known cell is one the terminal is believed to show; a cell with rune 0
  stands for unknown screen content. A non-ASCII glyph paints one cell and leaves the
  cursor unknown.
- `Utf8`, `ControlFilter`: the byte-sequence grammar of section 4 of RFC 3629 and the
  streaming filter built on it.
- `Restore`: the restore journal over a file system with atomic renames. A budget of
  mutations says where the process is interrupted; "for every budget" is "for every
  crash point".
- `Timers`, `TokenBucket`, `Suspension`: three concurrent or timed state machines. Lock
  regions and channel operations are atomic steps that interleave freely.
- `Framing`, `Codecs`, `Wire`, `ProcBoundary`, `WorkerRpc`: the worker protocol, from
  bytes on a pipe with short writes up to the parity of a guest call made in process and
  through the boundary.
- `KvStore`, `KvOrder`: the in-memory, file-backed and SQLite stores against one
  reference store, and what listing keys in order must give.
- `Repository`, `Outcomes`: deployments, artifacts, blobs, sessions and garbage collection
  as maps changed by atomic transactions under the schema's own constraints, and exactly
  when each transaction goes through.
- `Layout`, `LayoutLaws`: layout, drawing and hit regions of the declarative UI, and where
  children, runes, borders and canvas calls end up in coordinates.
- `EditDistance`: the "did you mean" table and choice.
- `Bytes`, `Runes`, `Results`: little-endian integers, strings as runes, and option and
  result types.

Objects the source updates in place are classes whose methods are proved against
specification functions; the laws are lemmas about those functions. Clocks, write
outcomes, commit outcomes, crash points and random identifiers are inputs. SHA-256 is an
arbitrary function: nothing proved depends on which one, collisions included.

Where the code does less than its documentation or its shape suggests, the code is
modelled, an input shows the failure, and the exact condition is proved:

- A failed flush heals only when the same grid is flushed again: another grid is right if
  and only if no cell visibly goes back to its old value (`Screen.SwitchHealsIff`,
  `Screen.RevertStaysWrong`). The sink reports itself healthy all the same, so the wrong
  cell stays while that frame is repeated (`TtySink.AnotherFrameHealsIff`,
  `TtySink.AnotherFrameHealthyIff`, `Dedup.WrongCellStays`).
- `Present` does not know about `Close`: a throttled frame presented afterwards arms a
  callback that paints (`TtySink.LatePresentPaints`, `TtySink.PresentAfterClosePaints`);
  without a present nothing does (`TtySink.NothingPaintsAfterClose`).
- Flushes keep to the frame rate in every run in which no callback overtaken by a present
  and no close flushes (`FrameRate.RateCap`); the first flush too soon is always one of
  these two (`FrameRate.EarlyIff`). A flush too soon does not move the throttle, so a
  present after it can be too soon as well (`FrameRate.StaleCallbackIsEarly`, `FrameRate.CloseIsEarly`).
- Duplicate suppression accepts an empty payload before any frame was presented
  (`Dedup.ReplyExact`, `Dedup.EmptyPayloadAccepted`).
- A cancelled timer is still delivered, once, if and only if the dispatcher held its event
  at that moment (`Timers.CancelIff`, `Timers.CancelMayBeTooLate`).
- The queue of undelivered suspensions keeps its bound of 64 throughout a run if and only
  if no pass ends with failures that do not fit in front of later arrivals, and is free of
  duplicates if and only if no pass ends with a failure that waits again by then
  (`Suspension.BoundRun`, `Suspension.DistinctRun`); runs from a new backend break each
  (`Suspension.BoundCanBreak`, `Suspension.RepeatCanWait`).
- A backup left by an earlier restore is not replaced. A file is then swapped and its
  original lost; a directory, such as the KV root, cannot be swapped at all, so a second
  restore replaces the database, stops there, and no recovery finishes it. Restore is
  all-or-nothing if and only if no component is a link or has a directory on either side
  together with a leftover backup (`Restore.OriginalKeptIff`, `Restore.AllOrNothingIff`,
  `Restore.SecondRestoreStuck`, `Restore.SecondRestoreExample`).
- A listed key that is empty or longer than the cap is refused by the proxy although the
  direct path returns it, and a reply too long for a frame ends the session
  (`ProcBoundary.KvParity`, `ProcBoundary.ParsesIff`, `ProcBoundary.ParityFails`); a
  guest's own writes lead to neither (`WorkerRpc.OwnKeysParse`, `ProcBoundary.OwnRepliesFit`).
- A deployment replaced while a session runs it is never collected after that session
  ends, contrary to the comment on `DeployApplication`; nothing deletes its row unless it
  is activated again (`Repository.StepEffect`, `Repository.ReplacedWhileOpenStays`,
  `Repository.ReplacedRowLeftOver`).
- One garbage collection leaves no loose blob, in whatever order Go's map gives its
  deletes, if and only if no blob in use loses its last artifact to it; a second one never
  leaves any (`Repository.OneCollectionTidyIff`, `Repository.OneSweepMayLeaveBlob`,
  `Repository.CollectTwice`).
- The session limit is an author's but admission counts one app's sessions
  (`Repository.AuthorLimitIff`, `Repository.LimitIsPerApp`).
- The edit-distance table is indexed by byte offset. A first string is measured right
  against every single-byte string if and only if its runes before the last are single
  bytes, a second string if and only if all of its runes are (`EditDistance.LeftExactIff`,
  `EditDistance.RightExactIff`, `EditDistance.AccentMeasuredWrong`).

## Model

| member | source | states |
|---|---|---|
| `Utf8.FullRuneMeaning` | internal/runner/cli.go:170-175 | a prefix counts as incomplete if and only if some continuation completes it to one RFC 3629 character |
| `Utf8.CharLenExtends` | internal/runner/cli.go:165-182 | later bytes neither create nor destroy the character in front, unless it was truncated |
| `ControlFilter.FilterSplits` | internal/runner/cli.go:157-188 | filtering two pieces with the tail carried across equals filtering their concatenation |
| `ControlFilter.SplitInvariance` | internal/runner/cli.go:157-188 | however a stream is cut into writes, output and final tail are those of one write of the whole stream |
| `ControlFilter.FilterTail` | internal/runner/cli.go:152-176 | the carried tail is an incomplete character shorter than four bytes |
| `ControlFilter.OutputIsSafe` | internal/runner/cli.go:165-203 | for every input the output is a sequence of whole characters none of which is a dropped control |
| `ControlFilter.SafeTextIsText` | internal/runner/cli.go:190-203 | such output is valid UTF-8 with no C0 byte except tab and newline and no DEL byte |
| `ControlFilter.OutputHasNoC1` | internal/runner/cli.go:165-203 | in no output is 0xC2 followed by a byte from 0x80 to 0x9F: no C1 control, the 8-bit CSI included, reaches the viewer |
| `ControlFilter.FilterKeepsSafeText` | internal/runner/cli.go:165-182 | text without dropped controls passes through unchanged and leaves no tail |
| `ControlFilter.FilterOfRune` | internal/runner/cli.go:165-203 | one scalar value passes whole if it is tab, newline, 0x20 to 0x7E or at least 0xA0, and otherwise leaves nothing |
| `ControlFilter.FilterOfText` | internal/runner/cli.go:165-203 | of any text exactly those scalar values are forwarded, in order |
| `ControlFilter.FilterOfStray` | internal/runner/cli.go:165-182 | a byte that begins and continues nothing is dropped alone |
| `ControlFilter.Writer.Write` | internal/runner/cli.go:157-188 | one call forwards the filtered bytes and keeps the tail; a refused write reports 0 bytes and an error |
| `Abi.SanitizeRune` | internal/runner/render.go:21-35 | every result is a printable scalar value, and printable runes are unchanged |
| `Terminal.CsiRun` | internal/terminal/screen.go:149-172 | a whole control sequence takes effect from any parser state and paints no cell on the way |
| `Terminal.GlyphRun` | internal/terminal/screen.go:175-185 | an encoded rune paints exactly the cell under the cursor |
| `Screen.FlushPaints` | internal/terminal/screen.go:120-199 | from any cursor, style and parser state the emitted bytes repaint precisely the changed cells, and every prefix has painted only wanted cells |
| `Screen.FlushShows` | internal/terminal/screen.go:120-199 | if the terminal shows every known old cell, a complete flush makes it show exactly the wanted grid, whatever moves, colours and rows were elided |
| `Screen.FlushCompletes` | internal/terminal/screen.go:120-199 | it is enough that the cells which do not change are shown |
| `Screen.TornFlushKeeps` | internal/terminal/screen.go:188-196 | a flush cut after any byte leaves the cells that did not change right |
| `Screen.RetryHeals` | internal/terminal/screen.go:188-199 | any number of torn flushes of one grid followed by a complete one shows every cell right |
| `Screen.SwitchHealsIff` | internal/terminal/screen.go:120-199 | after a torn flush, flushing another grid is right for every cut if and only if no cell visibly reverts to its old value |
| `Screen.RevertStaysWrong` | internal/terminal/screen.go:188-199 | a one-cell screen on which the reverted cell stays wrong |
| `Screen.EmptyFlush` | internal/terminal/screen.go:128-196 | nothing is written if and only if nothing changed |
| `Screen.StyleRun` | internal/terminal/screen.go:156-173 | from whatever style is believed in force, the emitted style bytes leave exactly the wanted style |
| `Screen.SegmentRun` | internal/terminal/screen.go:142-185 | one run of cells is painted exactly, with moves and colours elided where they are already in force |
| `Screen.Resized` | internal/terminal/screen.go:67-93 | after a resize every cell is unknown, so every wanted cell will be repainted, and sizes are clamped to the limits |
| `Screen.ClampSize` | internal/terminal/screen.go:67-83 | the size checks keep width, height and their product within the limits and leave a size within them alone |
| `Screen.RowSetCells` | internal/terminal/screen.go:103-113 | setting a row changes that row alone, and of it only the columns the new cells reach |
| `Screen.EmitRows` | internal/terminal/screen.go:128-187 | the row loop emits the specified bytes and reports every row that differs |
| `Screen.EmitRow` | internal/terminal/screen.go:137-186 | the cell loop emits the specified bytes and tracks cursor and style |
| `Screen.FindRunEnd` | internal/terminal/screen.go:142-148 | a run ends at the first unchanged or differently styled cell, or after a non-ASCII glyph |
| `Screen.EmitStyle` | internal/terminal/screen.go:156-172 | style changes as specified, decorations first because they reset colours |
| `Screen.EmitGlyphs` | internal/terminal/screen.go:175-185 | the glyphs of a run, and whether the cursor became unreliable |
| `Screen.ScreenBuffer.Resize` | internal/terminal/screen.go:67-93 | the size is clamped and both grids are allocated row by row: every cell of the terminal is unknown and every wanted cell blank, so the next flush paints in full |
| `Screen.ScreenBuffer.SetRow` | internal/terminal/screen.go:103-113 | one row of the wanted grid is replaced, clipped to the width; rows outside are ignored |
| `Screen.ScreenBuffer.Flush` | internal/terminal/screen.go:120-199 | the specified bytes go out; old becomes current exactly when the write was complete, and health is updated |
| `TtySink.InvStep` | internal/runner/render.go:106-170 | every present, timer firing, late callback and close, in any order, keeps: unflushed content has a callback outstanding |
| `TtySink.SyncedStep` | internal/runner/render.go:106-170 | with complete writes every step keeps the terminal showing what the sink believes |
| `TtySink.TraceInv` | internal/runner/render.go:106-170 | both hold in every interleaving |
| `TtySink.QuiescentShowsLast` | internal/runner/render.go:106-170 | in every interleaving with complete writes, once nothing is outstanding the terminal shows the last valid frame presented |
| `TtySink.GridIsFrame` | internal/runner/render.go:120-128 | a terminal that shows a frame's grid shows the frame's cell y * w + x in column x of row y: printable runes as they are, controls as spaces, non-scalars as question marks, colours and decorations by their bits |
| `TtySink.QuiescentShowsCells` | internal/runner/render.go:106-170 | so at rest, in every interleaving with complete writes, every cell of the last frame stands in its own place |
| `TtySink.NothingPaintsAfterClose` | internal/runner/render.go:142-170 | after close, until a frame is presented again, no late callback and no further close changes the terminal |
| `TtySink.LatePresentPaints` | internal/runner/render.go:106-154 | a throttled present after close arms a timer whose callback flushes the frame, and paints if and only if it differs from what is known to be shown |
| `TtySink.PresentAfterClosePaints` | internal/runner/render.go:106-170 | a run of a new sink that is closed, presents a throttled frame afterwards and paints it |
| `TtySink.FailureStartsRecovery` | internal/runner/render.go:97-154 | a write cut short from a synchronized state leaves a state the same frame can recover from |
| `TtySink.RecoveringStep` | internal/runner/render.go:97-154 | presenting that frame again keeps recovery possible, however its writes fail |
| `TtySink.HealthyMeansHealed` | internal/runner/render.go:97-154 | whenever the sink reports itself healthy again, every cell of the terminal is right |
| `TtySink.AnotherFrameHealsIff` | internal/runner/render.go:97-154 | after a failed write of one frame, presenting another shows it for every cut if and only if no cell visibly goes back |
| `TtySink.AnotherFrameHealthyIff` | internal/runner/render.go:97-154 | the sink then reports itself healthy if and only if that frame differs from the grid before the failure, right or wrong |
| `TtySink.LoadRows` | internal/runner/render.go:120-128 | the wanted grid becomes the sanitized frame |
| `TtySink.TtySink.PresentFrame` | internal/runner/render.go:106-154 | one present changes sink and output as the state machine's step does; an invalid frame changes nothing |
| `TtySink.TtySink.RunCallback` | internal/runner/render.go:142-152 | the delayed callback flushes only content that is still dirty |
| `TtySink.TtySink.CloseSink` | internal/runner/render.go:159-170 | close flushes the last coalesced frame and stops the timer |
| `FrameRate.ControlStep` | internal/runner/render.go:106-222 | throttle, dirty flag and timers evolve the same way whatever is painted or however writes end |
| `FrameRate.OutputIsFlushed` | internal/runner/render.go:129-170 | every byte the sink writes belongs to a flush the clock records, a close included |
| `FrameRate.CappedStep` | internal/runner/render.go:129-222 | every step other than a flush by a stale callback or a close keeps: flushes are an interval apart, the last one is the throttle's, and the current timer is due an interval after it |
| `FrameRate.EarlyIff` | internal/runner/render.go:129-222 | after such a run one more flush comes too soon if and only if it is by a stale callback or a close within an interval of the last flush |
| `FrameRate.RateCap` | internal/runner/render.go:129-222 | in every timed run of a new sink in which no stale callback and no close flushes, any two consecutive flushes are at least the frame interval apart |
| `FrameRate.StaleCallbackIsEarly` | internal/runner/render.go:129-153 | a run with flushes at 0, 10, 12 and 20 under an interval of ten: a stale callback, then a present that is allowed |
| `FrameRate.CloseIsEarly` | internal/runner/render.go:159-170 | a run in which a close flushes two ticks after a present |
| `Dedup.ServedRemembers` | internal/runner/procrunner.go:360-376 | the remembered payload always decodes to the frame held in the wanted grid |
| `Dedup.SuppressedHoldsSameGrid` | internal/runner/render.go:178-190 | skipping a remembered payload leaves the grid presenting it again would give |
| `Dedup.ReplyExact` | internal/runner/procrunner.go:360-376 | the reply differs from the unsuppressed one if and only if the payload is empty, nothing was remembered and the sink is healthy |
| `Dedup.EmptyPayloadAccepted` | internal/runner/procrunner.go:360-376 | a new session accepts an empty payload that decodes to nothing |
| `Dedup.SuppressionInvisible` | internal/runner/procrunner.go:360-376 | fed the same frames, a suppressing and a plain session at rest show the same grid, that of the last frame |
| `Dedup.LastBytesShown` | internal/runner/procrunner.go:360-376 | from guest bytes to screen: at rest, with or without suppression, the cell in column i of row j looks as its eleven bytes in the last payload say |
| `Dedup.UnhealthyNeverSuppresses` | internal/runner/render.go:178-190 | while a write has failed the same frame is painted again |
| `Dedup.WrongCellStays` | internal/runner/render.go:172-190 | after a failed write of one frame and a complete one of another that takes a cell back, the sink is healthy, the cell is wrong, and every repeat of that frame is suppressed |
| `Restore.ReplaceKeeps` | internal/state/state.go:671-706 | one swap stopped anywhere leaves its component recoverable and touches no other path; it fails if and only if the component cannot be swapped, and then changes nothing |
| `Restore.SaveKeeps` | internal/state/state.go:206-224 | rewriting the journal replaces it whole or leaves the old one |
| `Restore.ApplyKeeps` | internal/state/state.go:647-662 | rolling forward stays committed wherever it stops, is complete when it reports success, and can report success only if every component can be swapped |
| `Restore.RecoverKeeps` | internal/state/state.go:710-730 | recovery, interrupted or not, never loses a committed restore, and given enough steps it completes |
| `Restore.RecoverRefuses` | internal/state/state.go:706-729 | a journal that does not parse or has another version is refused and left alone |
| `Restore.RestoreKeeps` | internal/state/state.go:571-645 | a restore stopped anywhere, leftover backups or not, either touched nothing live or is committed |
| `Restore.RecoverManyKeeps` | internal/state/state.go:710-730 | any number of interrupted recoveries keeps that |
| `Restore.CrashesKeep` | internal/state/state.go:601-729 | so does a restore followed by any number of interrupted recoveries |
| `Restore.JournalRefuses` | internal/state/state.go:601-606 | over any journal, whole or partial, a restore of any bundle fails and changes nothing |
| `Restore.CommittedUntilFinished` | internal/state/state.go:568-729 | a committed restore survives every run of further restores and recoveries, each cut anywhere, until one of them finishes it |
| `Restore.TryKeeps` | internal/state/state.go:568-729 | every restore or recovery, cut anywhere, leaves one known generation live in full, or a journal on its way to one |
| `Restore.AllOrNothingMixed` | internal/state/state.go:568-729 | after any run of restores and recoveries the live paths hold in full what was there at first or one of the bundles, or a whole journal is on its way to one |
| `Restore.AllOrNothing` | internal/state/state.go:601-729 | if every component can be swapped: crash a restore anywhere, interrupt any number of recoveries, and either nothing live was ever touched or a recovery allowed to finish replaces all components, keeps in the backups what the swap keeps and removes the journal |
| `Restore.RollsForwardIff` | internal/state/state.go:647-662 | a committed journal can be rolled forward if and only if every component can be swapped |
| `Restore.AllOrNothingIff` | internal/state/state.go:601-729 | restore is all-or-nothing for every crash and every series of recoveries if and only if every component can be swapped |
| `Restore.ReplaceOutcome` | internal/state/state.go:671-706 | the outcome of an uninterrupted swap for every kind of node at target, staging and backup path |
| `Restore.OriginalKeptIff` | internal/state/state.go:671-706 | the original ends up in the backup if and only if the backup path was free, or held it and no directory is involved; the swap fails if and only if there was a leftover and a directory is involved |
| `Restore.RestoreSplits` | internal/state/state.go:601-662 | past a component that cannot be swapped an uninterrupted restore leaves those before it new and the rest as they were |
| `Restore.StuckForGood` | internal/state/state.go:710-730 | and no recovery, however long, ever finishes it |
| `Restore.SecondRestoreStuck` | internal/state/state.go:632-645 | whatever a finished restore left makes a directory component that had a predecessor unswappable for the next one |
| `Restore.SecondRestoreExample` | internal/state/state.go:632-645 | a second restore over three live components: database new, KV root and identity old, recovery never succeeds |
| `Restore.Machine.ReplaceOperation` | internal/state/state.go:671-706 | the swap as specified, stoppable before each rename |
| `Restore.Machine.WriteJournal` | internal/state/state.go:663-670 | the journal write as specified, through a temporary file |
| `Restore.Machine.ApplyJournal` | internal/state/state.go:647-662 | the loop over operations, skipping those already done, then the removal of the journal |
| `Restore.Machine.RecoverState` | internal/state/state.go:710-730 | recovery as specified; without a journal it does nothing |
| `Restore.Machine.RestoreState` | internal/state/state.go:601-645 | stage, commit the journal, roll forward, as specified |
| `Timers.FindId` | internal/runner/timer.go:66-77 | the search ends within the number of active timers plus two iterations, across wrap-around, at the first free identifier in 1..2^31-1 |
| `Timers.FirstFreeUnique` | internal/runner/timer.go:66-77 | the first free identifier is determined by the counter and the active set |
| `Timers.QueueStep` | internal/runner/timer.go:112-181 | every step keeps: the queued set is the pending list, without duplicates and without 0, and at most 64 timers active |
| `Timers.WakeupStep` | internal/runner/timer.go:112-163 | every step keeps: a dispatcher waiting while work is pending has a signal buffered or about to be sent |
| `Timers.DeliveryStep` | internal/runner/timer.go:132-163 | every step keeps deliveries of each identifier within its enqueues |
| `Timers.EveryRun` | internal/runner/timer.go:52-195 | all of these hold in every run from a new manager |
| `Timers.CancelIff` | internal/runner/timer.go:132-181 | a cancelled timer that is not started again is delivered in some continuation if and only if the dispatcher held its event, and then at most once |
| `Timers.CancelMayBeTooLate` | internal/runner/timer.go:132-181 | a run in which that happens |
| `Timers.FirstInFirstOut` | internal/runner/timer.go:112-163 | as long as nothing is cancelled or closed, the events handed over followed by those queued are the events enqueued, in order |
| `Timers.LedgerStep` | internal/runner/timer.go:112-195 | across every step the books of an identifier balance: enqueued, delivered, owed, and taken back by cancel, close or stop |
| `Timers.EventsConserved` | internal/runner/timer.go:112-195 | in every run each event enqueued was delivered, is still owed, was taken back by cancel, close or stop, or was taken for a cancelled one of the same identifier |
| `Timers.AbsorbedOnlyOnReuse` | internal/runner/timer.go:132-163 | the last happens only if an identifier is handed out again while an event of its former holder is in hand |
| `Timers.ActiveIff` | internal/runner/timer.go:52-195 | a timer is active after a run if and only if it was, or was started, and since then no cancel, close or one-shot firing of its own ended it |
| `Timers.FiringQueues` | internal/runner/timer.go:112-125 | whenever an active timer fires, every tick of a recurring one included, its event is waiting afterwards |
| `Timers.OneShotOnce` | internal/runner/timer.go:86-125 | between two starts a one-shot is enqueued at most once, and not again once it has fired |
| `Timers.WakesOncePerFiring` | internal/runner/timer.go:126-163 | in every run the dispatcher wakes at most once for each firing |
| `Timers.ReuseTakesLong` | internal/runner/timer.go:66-79 | an identifier is not handed out again within 2^25 starts, however timers end meanwhile |
| `Timers.OwedIsDelivered` | internal/runner/timer.go:132-163 | from every reachable state the dispatcher's own steps deliver every event still owed |
| `Timers.DropFirst` | internal/runner/timer.go:165-181 | cancel removes the identifier from the pending list and keeps the order of the rest |
| `Timers.TimerManager.Start` | internal/runner/timer.go:52-84 | the error for a bad delay, then the limit error, else a fresh identifier and an active timer; errors change nothing |
| `Timers.TimerManager.Fired` | internal/runner/timer.go:112-130 | enqueues a timer that is still active and not already queued; a one-shot stops being active |
| `Timers.TimerManager.PopDelivered` | internal/runner/timer.go:151-158 | after a hand-over the head leaves the queue if it is still the one delivered |
| `Timers.TimerManager.Cancel` | internal/runner/timer.go:165-181 | reports whether the timer was active and removes it from active, queued and pending |
| `Timers.TimerManager.Close` | internal/runner/timer.go:185-195 | no timer stays active |
| `TokenBucket.TakeKeeps` | internal/runner/ratelimit.go:38-50 | tokens stay within 0 and the burst; a grant costs exactly one token and a denial none |
| `TokenBucket.LevelBelow` | internal/runner/ratelimit.go:93-104 | the tokens an attempt finds never exceed what any earlier window leaves over |
| `TokenBucket.LevelReached` | internal/runner/ratelimit.go:93-104 | and some window is used up to exactly that level |
| `TokenBucket.GrantedIff` | internal/runner/ratelimit.go:38-50 | an attempt is granted if and only if granting it keeps every window ending with it within burst + rate x elapsed |
| `TokenBucket.WindowBound` | internal/runner/ratelimit.go:27-104 | in any window [t1, t2] of any run at most burst + rate x (t2 - t1) attempts are granted |
| `TokenBucket.WaitConsumesOne` | internal/runner/ratelimit.go:62-91 | a wait that returns true consumed exactly one token, at its last attempt; one that returns false consumed none |
| `TokenBucket.OneSleepSuffices` | internal/runner/ratelimit.go:76-90 | a lone waiter finds its token if and only if it slept the computed delay |
| `TokenBucket.Unlimited` | internal/runner/ratelimit.go:36-66 | without a positive rate every attempt and every wait goes through and nothing changes |
| `TokenBucket.Limiter.Allow` | internal/runner/ratelimit.go:36-50 | one attempt; a bucket with no positive rate always allows |
| `TokenBucket.Limiter.WaitFor` | internal/runner/ratelimit.go:62-91 | attempts at each wake-up until one is granted or the wait is abandoned |
| `TokenBucket.Limiter.RefillLocked` | internal/runner/ratelimit.go:93-104 | refills by elapsed time up to the burst; a clock that stands still or goes back changes nothing |
| `Suspension.EnqueueConserves` | internal/gateway/sqlitebackend.go:116-130 | every commit enqueued is still queued or dropped, and only a full queue facing a new suspension drops |
| `Suspension.CountStep` | internal/gateway/sqlitebackend.go:50-175 | no step changes how often a commit is counted among acknowledged, in flight, pending and dropped |
| `Suspension.TimersStep` | internal/gateway/sqlitebackend.go:132-175 | every step keeps: pending work behind a registered kill switch has a retry outstanding, and timers exist only once one is registered |
| `Suspension.LabelledStep` | internal/gateway/sqlitebackend.go:116-130 | every step keeps: an entry stands only for commits of the suspension it delivers, merged ones included |
| `Suspension.EveryRun` | internal/gateway/sqlitebackend.go:50-175 | in every interleaving each committed suspension is in exactly one of those places exactly once, with a retry outstanding for pending work |
| `Suspension.RestMeansDelivered` | internal/gateway/sqlitebackend.go:50-175 | when a registered backend is at rest, each commit was acknowledged once or dropped once |
| `Suspension.DropsOnlyOnOverflow` | internal/gateway/sqlitebackend.go:124-128 | nothing is dropped in any run unless 64 entries were waiting |
| `Suspension.AcknowledgesOwn` | internal/gateway/sqlitebackend.go:97-105 | an acknowledgement settles only commits of the suspension that was handed over |
| `Suspension.BoundIff` | internal/gateway/sqlitebackend.go:116-175 | a step takes the queue past 64 entries if and only if it ends a pass whose failures do not fit in front of later arrivals |
| `Suspension.BoundRun` | internal/gateway/sqlitebackend.go:50-175 | a run keeps at most 64 entries queued throughout if and only if none of its steps ends such a pass |
| `Suspension.DistinctStep` | internal/gateway/sqlitebackend.go:50-175 | from a state in which no suspension waits twice, in the queue or in any pass, a step leads to one in which one does if and only if it ends a pass that failed to deliver a suspension queued again meanwhile |
| `Suspension.DistinctRun` | internal/gateway/sqlitebackend.go:50-175 | so a run is free of repeats throughout if and only if it has no such step |
| `Suspension.PassKeepsOrder` | internal/gateway/sqlitebackend.go:148-175 | whatever happens during a pass, what it failed to deliver keeps the order of the queue it took and goes back in front of everything that arrived since |
| `Suspension.EnqueueAtEnd` | internal/gateway/sqlitebackend.go:116-130 | a new suspension goes last, past 64 the oldest goes, one that waits already keeps its place |
| `Suspension.RetriesAreEarned` | internal/gateway/sqlitebackend.go:107-175 | in every run retry timers fire at most as often as deliveries failed |
| `Suspension.AttemptsStep` | internal/gateway/sqlitebackend.go:132-175 | the backoff counts the retries scheduled since the last registration or clean pass |
| `Suspension.BoundCanBreak` | internal/gateway/sqlitebackend.go:116-175 | a run from a new backend after which 65 suspensions are queued |
| `Suspension.RepeatCanWait` | internal/gateway/sqlitebackend.go:116-175 | a run from a new backend after which one suspension is queued twice |
| `Suspension.RegionsErase` | internal/gateway/sqlitebackend.go:50-175 | forgetting which commits an entry stands for, the lock regions of the state machine are the methods of the object |
| `Suspension.SuspensionBackend.EnqueueLocked` | internal/gateway/sqlitebackend.go:116-130 | an equal entry is not queued twice; a full queue loses its oldest entry |
| `Suspension.SuspensionBackend.RequeueEvent` | internal/gateway/sqlitebackend.go:107-114 | a failed delivery is queued and a retry armed |
| `Suspension.SuspensionBackend.Committed` | internal/gateway/sqlitebackend.go:73-93 | before registration a commit is held; afterwards it is to be delivered |
| `Suspension.SuspensionBackend.StartWatcher` | internal/gateway/sqlitebackend.go:50-62 | registration takes the whole queue and the retry timer |
| `Suspension.SuspensionBackend.FlushTake` | internal/gateway/sqlitebackend.go:148-156 | a pass takes the whole queue |
| `Suspension.SuspensionBackend.FlushFinish` | internal/gateway/sqlitebackend.go:163-175 | failures go back in front of later arrivals and a retry is armed; a clean pass resets the backoff |
| `Framing.ReadEncoded` | internal/protocol/protocol.go:102-123 | a framed message is read back if and only if it respects the bound, and nothing after it is consumed |
| `Framing.StreamRoundTrip` | internal/protocol/protocol.go:102-123 | reading back the encodings of any sequence of messages within bounds gives that sequence and leaves what follows |
| `Framing.WriteAll` | internal/protocol/protocol.go:125-139 | success means every byte arrived in order, however short the writes; failure leaves a prefix |
| `Framing.WriteMessage` | internal/protocol/protocol.go:59-80 | an over-long payload writes nothing; success means exactly one framed message was appended |
| `Framing.Reader.Next` | internal/protocol/protocol.go:102-123 | the payload read into the reused buffer does not depend on what the buffer held |
| `Framing.SendAll` | internal/protocol/protocol.go:59-80 | sending messages in turn appends their encodings, whatever is cut short, or stops |
| `Framing.ReceiveAll` | internal/protocol/protocol.go:102-123 | reading through one reused buffer gives what the stream holds, message by message |
| `Framing.Transfer` | internal/protocol/protocol.go:59-139 | any sequence of messages within bounds, written with any short writes that all go through, is received through one reused buffer as the same sequence |
| `Codecs.StartRoundTrip` | internal/runner/procproto.go:121-174 | the worker decodes exactly the limits, mode, capabilities, arguments and program the parent encoded |
| `Codecs.DoneRoundTrip` | internal/runner/procproto.go:229-259 | error, goodbye and logs survive |
| `Codecs.KeyValueRoundTrip` | internal/runner/procproto.go:177-194 | key and value survive |
| `Codecs.ListRequestRoundTrip` | internal/runner/procproto.go:196-206 | prefix and limit survive |
| `Codecs.CasRoundTrip` | internal/runner/procproto.go:208-227 | key, expected hash and value survive |
| `Codecs.KeyListRoundTrip` | sdk/abi/kv.go:39-64 | a list comes back whole if and only if every key and the count respect the caps; otherwise it is refused |
| `Codecs.KeyListReencodes` | sdk/abi/kv.go:49-64 | a list the decoder accepts is the encoding of what it decodes to |
| `Codecs.IdentityRoundTrip` | sdk/abi/auth.go:40-76 | an identity survives up to the user-length cap and the two-bit kind |
| `Codecs.IdentityAcceptedIff` | sdk/abi/auth.go:58-76 | an identity is three bytes and exactly as many more as they announce |
| `Wire.EventRoundTrip` | sdk/abi/event.go:24-125 | every in-range event arrives as exactly the fields its kind carries |
| `Wire.EventBytes` | sdk/abi/event.go:24-125 | which of the thirteen bytes say which field, by kind of event |
| `Wire.MessageBytes` | sdk/abi/event.go:24-125 | a message's topic and data follow behind a two-byte and a four-byte length |
| `Wire.EventAcceptedIff` | sdk/abi/event.go:70-125 | a payload is an event if and only if tag and version are right and exactly the bytes of its kind follow |
| `Wire.FrameRoundTrip` | sdk/abi/frame.go:30-107 | every acceptable frame survives unchanged |
| `Wire.FrameAcceptedIff` | sdk/abi/frame.go:69-107 | a payload is a frame if and only if its tag, version and size fields are right and eleven bytes a cell follow, no more and no less |
| `Wire.FrameBytes` | sdk/abi/frame.go:30-107 | which bytes say the size, the quit bit and each cell's character, colours and decoration |
| `Wire.AppendEvent` | sdk/abi/event.go:24-67 | the encoding in a reused buffer does not depend on its old contents |
| `Wire.AppendFrame` | sdk/abi/frame.go:30-57 | the same for frames |
| `Wire.AppendDecodeFrame` | sdk/abi/frame.go:69-107 | decoding into a reused cell array gives the decoded frame, or an error, whatever the array held |
| `ProcBoundary.RequestFits` | internal/runner/procrunner.go:192-229 | every request the guest-side caps allow fits the parent's bound for its operation |
| `ProcBoundary.OpsTellApart` | internal/runner/procproto.go:28-50 | no two kinds of request share an operation, standard output and error included |
| `ProcBoundary.InvStep` | internal/runner/procworker.go:104-117 | every step of the lock-step protocol keeps the single turn |
| `ProcBoundary.NeverDeadlocks` | internal/runner/procrunner.go:129-229 | until the session ends one side holds the turn or one message is in flight, some step is possible, and each request gets exactly one reply |
| `ProcBoundary.CallCompletes` | internal/runner/procrunner.go:129-229 | a request that is sent is read and served as sent, and its reply gives the worker the turn again |
| `ProcBoundary.EndsOnPurpose` | internal/runner/procrunner.go:129-229 | in every run a session ends only because the worker finished or the parent refused, never over the size of a request or a stray message |
| `ProcBoundary.CallSurvives` | internal/runner/procrunner.go:378-443 | the parent decodes the very store call the worker meant |
| `ProcBoundary.DecodedInRange` | internal/runner/procrunner.go:378-443 | whatever a worker sends, the store is only asked for keys, values, prefixes and limits in range |
| `ProcBoundary.AnswerSurvives` | internal/runner/procworker.go:218-285 | the proxy's answer looks to the guest like the store's, if and only if a listed result parses |
| `ProcBoundary.KvParity` | internal/runner/kv.go:89-243 | a guest call through the boundary makes the same store call and returns the same code and bytes as a direct one, for every store, if and only if the reply fits a frame and a listed result parses |
| `ProcBoundary.CodeTells` | internal/runner/kv.go:101-243 | in numbers: which code each store answer gives each call, no two outcomes sharing one, and which bytes are written |
| `ProcBoundary.RefusedBefore` | internal/runner/kv.go:89-243 | -4 without a store and -2 past the caps, and no store is reached |
| `ProcBoundary.ParsesIff` | sdk/abi/kv.go:39-64 | for keys whose length the encoding can carry, a listed result parses if and only if no key is empty or over the cap |
| `ProcBoundary.OwnRepliesFit` | internal/runner/kv.go:89-243 | replies with values and keys within the guest's own caps fit a frame |
| `ProcBoundary.ParityFails` | internal/runner/kv.go:89-243 | a store that lists an empty key and one that holds a value of 64 MiB, for which the two paths return different codes |
| `ProcBoundary.AuthParity` | internal/runner/procworker.go:287-299 | with or without the capability, for every identity and buffer size, the guest sees the same code and bytes |
| `ProcBoundary.WhoamiTells` | internal/runner/procworker.go:287-299 | in numbers, through the boundary: -1 without the capability, else the flag and kind bits, the length and at most 256 bytes of user |
| `ProcBoundary.EnvParity` | internal/runner/procworker.go:301-307 | for every environment or none, every key and buffer size, the guest sees the same code and bytes |
| `ProcBoundary.EnvTells` | internal/runner/procworker.go:301-307 | in numbers, through the boundary: -3, -2 and -1 for no environment, a bad key and an unset one, else the length and the value if it fits |
| `ProcBoundary.TimerParity` | internal/runner/procworker.go:139-153 | delay, kind and result code survive, negative values included |
| `ProcBoundary.CancelParity` | internal/runner/procworker.go:155-158 | the identifier reaches the timer service and its answer comes back as the guest's 0 or 1 |
| `ProcBoundary.PublishParity` | internal/runner/procworker.go:363-375 | topic, data and subscriber count survive |
| `WorkerRpc.ServeOne` | internal/runner/procrunner.go:378-443 | one parent turn over any of the five key/value operations changes the store and answers exactly as specified, or refuses and changes nothing |
| `WorkerRpc.Session.Call` | internal/runner/procworker.go:104-117 | over byte pipes with short and failing writes, a completed call returned the reply to exactly that request and left nothing in flight; a failed one happened once or not at all |
| `WorkerRpc.Session.GuestKv` | internal/runner/procworker.go:216-285 | a completed key/value call changes the stored map and returns, in numbers, what the map says: -1 for an absent key, else the length and the value if it fits; 0, -3 or -5 for writes; it equals the call made directly if and only if a listed result parses, as it always does in a store guests wrote; a broken pipe gives -4 and the call happened once or not at all |
| `WorkerRpc.AnswerUnique` | internal/runner/kv.go:261-347 | the store and the call determine the answer, listings included |
| `WorkerRpc.OwnKeysParse` | internal/runner/kv.go:89-243 | a store of guest-writable keys stays one under guest calls, and its listings always parse |
| `WorkerRpc.SeesAnswer` | internal/runner/kv.go:101-243 | the code and bytes of every answer of the in-memory store, over its map, its quotas and the stored hash |
| `WorkerRpc.SeesRejected` | internal/runner/kv.go:89-243 | -2 if and only if a key, value, prefix or limit is out of range, and nothing changes |
| `WorkerRpc.SetThenGet` | internal/runner/kv.go:101-155 | a set that returned 0 and then a get give the value back |
| `WorkerRpc.DeleteThenGet` | internal/runner/kv.go:131-170 | a deleted key reads as absent |
| `WorkerRpc.RefusalIsError` | internal/runner/procrunner.go:378-443 | a refused payload looks like a store error to the worker, never like a verdict |
| `KvStore.SizeRemove` | internal/runner/kv.go:290-298 | the byte total does not depend on the order of summation |
| `KvStore.SizeUpdate` | internal/runner/kv.go:271-288 | the incremental byte and key counts of a write are the recomputed ones |
| `KvStore.MemRefines` | internal/runner/kv.go:271-347 | the in-memory store accepts, refuses and changes exactly as the reference does, and its counter stays exact |
| `KvStore.FileRefines` | internal/runner/kv.go:396-493 | memory equals file after every return; only a failed write departs from the reference, and it changes nothing |
| `KvStore.FileDeleteAbsent` | internal/runner/kv.go:428-447 | deleting a key that is not there does not touch the file, so it cannot fail |
| `KvStore.SqlWriteRefines` | internal/sqlite/repository_kv.go:74-143 | a write transaction is the reference's, its usage row stays exact and no other app changes |
| `KvStore.SqlDeleteRefines` | internal/sqlite/repository_kv.go:145-172 | the same for deletes |
| `KvStore.SqlRefines` | internal/sqlite/repository_kv.go:74-172 | for every existing app and valid key the SQLite store is the reference store |
| `KvStore.SqlRefuses` | internal/sqlite/repository_kv.go:31-175 | keys out of range and writes of unknown apps are refused, deleting what is not there is not, and nothing changes |
| `KvStore.SqlRevision` | internal/sqlite/repository_kv.go:74-143 | a row counts its writes from 1 |
| `KvStore.StoresAgree` | internal/sqlite/repository_kv.go:61-172 | driven by the same writes, swaps and deletes from equal contents, the three stores give the same verdicts and end alike |
| `KvStore.ListsAgree` | internal/sqlite/repository_kv.go:174-199 | and after any such run they list alike |
| `KvOrder.ListingUnique` | internal/runner/kv.go:300-317 | there is only one ordered listing of the first keys with a prefix |
| `KvOrder.LessIff` | internal/runner/kv.go:300-317 | the order is decided by the first byte that differs, a prefix coming first |
| `KvOrder.ListsAll` | internal/runner/kv.go:300-317 | a listing with room to spare holds exactly the keys that begin with the prefix |
| `KvOrder.SortKeys` | internal/runner/kv.go:300-317 | sorting distinct keys gives the same keys in ascending byte order |
| `KvOrder.CollectSortCut` | internal/runner/kv.go:300-317 | collecting in map order, sorting and cutting gives that listing |
| `KvOrder.OrderedRows` | internal/sqlite/repository_kv.go:184-198 | so do rows in key order up to a limit |
| `KvStore.CountBytes` | internal/runner/kv.go:374-394 | loading counts every stored byte |
| `KvStore.MemStore.Set` | internal/runner/kv.go:271-288 | the specified step |
| `KvStore.MemStore.CompareAndSwap` | internal/runner/kv.go:319-347 | the specified step; an absent key has the all-zero hash |
| `KvStore.MemStore.Delete` | internal/runner/kv.go:290-298 | the specified step |
| `KvStore.MemStore.List` | internal/runner/kv.go:300-317 | the listing, or an error exactly for a limit out of range |
| `KvStore.FileStore.StoreEntry` | internal/runner/kv.go:414-425 | a failed write restores the exact previous entry and count |
| `KvStore.FileStore.Set` | internal/runner/kv.go:396-426 | the specified step |
| `KvStore.FileStore.Delete` | internal/runner/kv.go:428-447 | the specified step, restoring the entry when the file cannot be written |
| `KvStore.FileStore.CompareAndSwap` | internal/runner/kv.go:449-474 | the specified step |
| `KvStore.FileStore.List` | internal/runner/kv.go:300-317 | the same, inherited |
| `KvStore.FileStore.Persist` | internal/runner/kv.go:476-493 | the file becomes the map if every step works and keeps what it held otherwise; no temporary file stays |
| `KvStore.SqliteKv.Write` | internal/sqlite/repository_kv.go:74-143 | one transaction: the specified change to rows and usage, or none |
| `KvStore.SqliteKv.Delete` | internal/sqlite/repository_kv.go:145-172 | one transaction: the row and its share of the usage go together, and nothing of another app changes |
| `KvStore.SqliteKv.List` | internal/sqlite/repository_kv.go:177-199 | the listing of one app's keys, or an error exactly for a limit out of range or an over-long prefix |
| `Repository.AddArtifactKeeps` | internal/sqlite/repository.go:654-692 | an upload links artifact and blob with matching size and digest, and never replaces stored bytes |
| `Repository.RetireKeeps` | internal/sqlite/deployment_api.go:249-284 | retiring a replaced deployment never trips a foreign key and keeps every link |
| `Repository.RetireExact` | internal/sqlite/deployment_api.go:249-284 | it deletes the deployment unless a session runs it, the artifact unless shared, the blob unless another artifact uses it, and nothing else |
| `Repository.InstallEffect` | internal/sqlite/deployment_api.go:205-248 | a deployment points the app at a new, unsuspended row for exactly the uploaded artifact and bytes |
| `Repository.InstallStable` | internal/sqlite/deployment_api.go:205-284 | it rewrites no deployment, artifact or blob that stays |
| `Repository.InstallDeletes` | internal/sqlite/deployment_api.go:249-284 | it deletes one deployment row if and only if the replaced one had no open session |
| `Repository.InstallTidy` | internal/sqlite/deployment_api.go:215-284 | it leaves no blob without an artifact |
| `Repository.DeployEffect` | internal/sqlite/deployment_api.go:118-295 | all of this from the app lookup on, existing, renamed-from or newly created |
| `Repository.DeployResolves` | internal/sqlite/deployment_api.go:118-295 | deploying and then resolving returns the uploaded bytes, unless the app is suspended |
| `Repository.StepEffect` | internal/sqlite/repository_operations.go:352-449 | every committed transaction keeps every link, rewrites no row, leaves open sessions alone, and deletes a deployment if and only if it replaces it as the active one while no open session runs it |
| `Repository.NewRowsAuthorized` | internal/sqlite/deployment_api.go:142-150 | every deployment that is new after a transaction came from a device of the app's author that was not revoked |
| `Repository.EveryRun` | internal/sqlite/repository_operations.go:352-424 | every run, with any transaction rolled back, keeps active pointer, deployment, artifact and blob linked with matching size and digest |
| `Repository.EveryRunFromEmpty` | internal/sqlite/repository_operations.go:352-424 | so no run from an empty database reaches tables that are not linked |
| `Repository.ResolveExact` | internal/sqlite/repository.go:740-780 | on such tables the resolver never reports an integrity failure or a missing blob: it fails only for an app with no active deployment or a suspended one, and otherwise returns bytes with the artifact's digest |
| `Repository.OpenSessionIsPinned` | internal/sqlite/repository_operations.go:725-849 | through every later run that does not end it, a session keeps its row, deployment, artifact and the very same bytes |
| `Repository.OpenSessionHasBytes` | internal/sqlite/repository_operations.go:725-787 | an open session's digest has a blob that hashes to it |
| `Repository.SurvivorIsNeverCollected` | internal/sqlite/repository_operations.go:1363-1378 | an inactive deployment stays in every later run unless it is activated |
| `Repository.ReplacedWhileOpenStays` | internal/sqlite/deployment_api.go:114-117 | a deployment replaced while in use is never collected, however sessions end and collections run |
| `Repository.ReplacedRowLeftOver` | internal/sqlite/deployment_api.go:114-117 | a database, a deployment over an open session, its end and a collection, after which nobody uses the replaced row and it is still there |
| `Repository.CollectKeeps` | internal/sqlite/repository_operations.go:1363-1378 | the deletes of a collection, in any order and number, keep every link, every deployment and every open session |
| `Repository.CollectTwice` | internal/sqlite/repository_operations.go:1363-1378 | two collections, each in any order, leave exactly the wanted artifacts and no loose blob |
| `Repository.CollectExact` | internal/sqlite/repository_operations.go:1363-1378 | in any order the deletes remove exactly the audit rows and ended sessions from before the cutoff and the older artifacts no deployment uses |
| `Repository.OneCollectionTidyIff` | internal/sqlite/repository_operations.go:1363-1378 | one collection leaves no loose blob, whatever order its deletes take, if and only if no blob in use loses its last artifact to it |
| `Repository.OneSweepMayLeaveBlob` | internal/sqlite/repository_operations.go:1367-1373 | a database on which one collection leaves a blob and a second does not |
| `Repository.StartMatchesResolve` | internal/sqlite/repository_operations.go:725-787 | with a fresh identifier and room under the limit, a session is admitted if and only if the resolver would serve that app with that deployment and digest |
| `Repository.SessionsWithinLimit` | internal/sqlite/repository_operations.go:762-783 | no committed transaction takes the open sessions of an app past a positive limit; the limit is the author's but counts one app's sessions |
| `Repository.AuthorLimitIff` | internal/sqlite/repository_operations.go:762-783 | a committed start keeps the author's open sessions within the limit if and only if they were below it, which the check guarantees only when all of them run that app |
| `Repository.LimitIsPerApp` | internal/sqlite/repository_operations.go:762-783 | two apps of one author under a limit of one, each admitted a session |
| `Repository.EndingTwice` | internal/sqlite/repository_operations.go:813-849 | replaying the end of a session changes nothing: the first end time stands |
| `Outcomes.PutIff` | internal/sqlite/repository.go:654-692 | an upload goes through if and only if it is in order, its identifier is new and its digest is new or stored with the same bytes; then exactly its rows are added |
| `Outcomes.DeployIff` | internal/sqlite/deployment_api.go:118-295 | a deployment goes through if and only if the request is in order, the device is the author's and not revoked, the app can be told, the artifact can be stored and the identifier is new; the app then carries what the request says |
| `Outcomes.CreateIff` | internal/sqlite/repository_operations.go:352-400 | a deployment row is created if and only if its parts exist, the device may deploy and the author's limit per app is not reached |
| `Outcomes.ActivateIff` | internal/sqlite/repository_operations.go:402-424 | a deployment is activated if and only if it is one of the app's |
| `Outcomes.SuspendIff` | internal/sqlite/repository_operations.go:426-449 | suspending changes the one deployment named, which must exist |
| `Outcomes.StartIff` | internal/sqlite/repository_operations.go:725-787 | a session starts if and only if it names the active deployment and its digest, neither is suspended, the app is below its author's limit and the identifier is new |
| `Outcomes.StartErrors` | internal/sqlite/repository_operations.go:725-787 | which error a refused session start reports, in the order of the checks |
| `Outcomes.EndIff` | internal/sqlite/repository_operations.go:813-849 | a known session ends, at the first end time |
| `Outcomes.ResolveRefuses` | internal/sqlite/repository.go:740-780 | an author that is no identifier is refused, a name without an app is not found |
| `Outcomes.TombstonesIff` | internal/sqlite/repository_operations.go:1363-1378 | a handle reservation goes exactly when its time has come |
| `Outcomes.ReportsTruth` | internal/sqlite/repository.go:654-692 | no error is reported if and only if the transaction's rows are in place; otherwise none of them is |
| `Repository.Repo.StartSession` | internal/sqlite/repository_operations.go:725-787 | the transaction check by check: all of it or none, the same error in every case, and the links kept |
| `Repository.Repo.EndSession` | internal/sqlite/repository_operations.go:813-849 | reports the recorded end time, which is the first one |
| `Repository.Repo.PutArtifact` | internal/sqlite/repository.go:654-692 | the upload transaction: all of it or none, and the links kept |
| `Repository.Repo.DeployApplication` | internal/sqlite/deployment_api.go:118-295 | the deploy transaction statement by statement: all of it or none, and the links kept |
| `Repository.Repo.GarbageCollect` | internal/sqlite/repository_operations.go:1363-1378 | the loop over deletes and the removal of expired handle reservations: all of it or none, the links kept, and the rows each delete removed reported |
| `Repository.Repo.ResolveRunnable` | internal/sqlite/repository.go:740-780 | succeeds if and only if the named app has an active deployment and neither is suspended; never an integrity failure |
| `Layout.ChildInside` | sdk/ui/render.go:130-223 | every child rectangle lies in its parent's |
| `Layout.SiblingsApart` | sdk/ui/render.go:130-223 | sibling rectangles share no cell, whatever gaps, fills, alignment and justification |
| `Layout.NaturalLayout` | sdk/ui/render.go:146-221 | when nothing fills and everything fits, each child gets the size it asks for and starts where the sizes and gaps before it end |
| `Layout.Justified` | sdk/ui/render.go:179-186 | then the leftover goes in front, behind, or half and half to within one cell |
| `Layout.FilledLayout` | sdk/ui/render.go:146-221 | when the fixed sizes and gaps fit, each child starts where the sizes, shares and gaps before it end; fixed children get what they ask for, filling ones an equal share, and a last one that fills reaches exactly to the end |
| `Layout.FillsShare` | sdk/ui/render.go:159-178 | the shares use up what the fixed sizes and gaps leave, but for less than one cell a filling child |
| `Layout.PaintsInside` | sdk/ui/render.go:86-343 | a node paints only inside its own rectangle and never a control rune |
| `Layout.ChildShowsThrough` | sdk/ui/render.go:130-223 | inside a child's rectangle the parent shows just what the child shows; no sibling paints over it |
| `Layout.HitsInside` | sdk/ui/render.go:86-94 | a node records only buttons, only inside its own rectangle |
| `Layout.HitsApart` | sdk/ui/render.go:86-223 | no two recorded regions share a point |
| `Layout.AtMostOneButton` | sdk/ui/input.go:132-144 | at most one button's region contains any point |
| `Layout.RenderNode` | sdk/ui/render.go:86-123 | drawing a node changes exactly the cells it owns and records exactly its regions; no cell access leaves the frame |
| `Layout.RenderChildren` | sdk/ui/render.go:130-223 | the same for a container's children, one after the other |
| `Layout.Measure` | sdk/ui/render.go:131-186 | the measuring passes give each child's intrinsic size, the fill size and the start position |
| `Layout.PlaceChild` | sdk/ui/render.go:187-222 | one child's rectangle from its position, size and alignment |
| `Layout.DrawText` | sdk/ui/render.go:274-310 | line by line and clipped, with control runes replaced |
| `Layout.DrawBorder` | sdk/ui/render.go:316-336 | exactly the edge cells, although the writes are unchecked; nothing when there is no room |
| `Layout.DrawCanvas` | sdk/ui/render.go:338-343 | any sequence of calls of a canvas callback stays inside its clipped surface |
| `Layout.CanvasSurface.Set` | sdk/ui/canvas.go:20-29 | writes one cell if and only if it is on the surface and the rune is not a control |
| `Layout.CanvasSurface.SetText` | sdk/ui/canvas.go:31-56 | the visible part of the text, control runes leaving a hole; the count is of the runes written |
| `Layout.CanvasSurface.Fill` | sdk/ui/canvas.go:58-74 | the visible part of the rectangle; the count is its area |
| `Layout.Frame.Put` | sdk/ui/renderer.go:36-39 | a write changes one cell of one row although all rows share one buffer |
| `Layout.Renderer.Blank` | sdk/ui/renderer.go:21-29 | the reused storage is long enough and blank where it will be used |
| `Layout.Renderer.Render` | sdk/ui/renderer.go:16-49 | a frame in reused storage holds exactly what the root paints over blanks, only safe runes, and the root's regions, whatever was rendered there before |
| `Layout.Focus.Click` | sdk/ui/input.go:132-144 | a click reaches the button under the pointer, independent of scan order for rendered regions, and only then moves the focus |
| `LayoutLaws.InnerSides` | sdk/ui/render.go:95-108 | border and padding take exactly their own cells on each side |
| `LayoutLaws.AlignedAcross` | sdk/ui/render.go:200-212 | across the main axis a child is stretched, at the start, at the end, or centred to within one cell |
| `LayoutLaws.FollowsAfterGap` | sdk/ui/render.go:187-222 | along it each child follows the one before after exactly the gap, downwards or to the right |
| `LayoutLaws.LineHolds` | sdk/ui/render.go:274-290 | splitting into lines puts every rune at the row of the newlines before it and the column of the runes since |
| `LayoutLaws.TextShows` | sdk/ui/render.go:274-310 | drawn text shows each rune at that row and column, controls as U+FFFD |
| `LayoutLaws.TextShowsOnly` | sdk/ui/render.go:274-310 | and nothing else |
| `LayoutLaws.LabelShows` | sdk/ui/render.go:86-123 | a label shows its text inside its border and padding in its resolved style |
| `LayoutLaws.ButtonShows` | sdk/ui/render.go:111-118 | a button shows its text between "[ " and " ]" |
| `LayoutLaws.LabelFits` | sdk/ui/render.go:232-272 | a label asks for room for its whole text |
| `LayoutLaws.LabelTight` | sdk/ui/render.go:244-272 | and for no more columns than its widest line |
| `LayoutLaws.OthersAskFor` | sdk/ui/render.go:232-256 | what buttons, canvases and containers ask for |
| `LayoutLaws.BorderPicture` | sdk/ui/render.go:316-336 | four corners, level and upright strokes, nothing inside |
| `LayoutLaws.CallCovers` | sdk/ui/canvas.go:20-74 | a canvas call paints a cell of the surface if and only if it covers it with a printable rune |
| `LayoutLaws.LastCallWins` | sdk/ui/canvas.go:20-74 | the last call that paints a cell decides it |
| `LayoutLaws.VisibleCounts` | sdk/ui/canvas.go:31-56 | the count reported for text is of the runes on the surface |
| `LayoutLaws.ClippedCounts` | sdk/ui/canvas.go:58-74 | the sides of a clipped rectangle count its columns and rows on the surface |
| `LayoutLaws.StyleResolved` | sdk/ui/render.go:345-358 | explicit colours win over the role's, decorations add up |
| `LayoutLaws.ButtonsRecorded` | sdk/ui/render.go:86-223 | every button reached through containers with room inside is recorded with its own rectangle |
| `LayoutLaws.LeafShows` | sdk/ui/render.go:86-223 | in its own rectangle a node shows through all containers above it |
| `LayoutLaws.PointerIsOnButton` | sdk/ui/input.go:132-144 | the only recorded region under a point of a button's rectangle is that button's |
| `EditDistance.DistanceIsLeast` | sdk/cli/cli.go:865-883 | no edit script is cheaper than the distance |
| `EditDistance.DistanceIsReached` | sdk/cli/cli.go:865-883 | some edit script costs exactly the distance |
| `EditDistance.ComputedIsDistance` | sdk/cli/cli.go:865-883 | for a first string whose runes before the last are single bytes and a second string of single bytes, all of ASCII included, the two-row table ends with the distance |
| `EditDistance.LeftExactIff` | sdk/cli/cli.go:865-883 | a first string is measured right against every single-byte string if and only if its runes before the last are single bytes |
| `EditDistance.RightExactIff` | sdk/cli/cli.go:865-883 | a second string is measured right against every single-byte string if and only if it is one itself |
| `EditDistance.AccentMeasuredWrong` | sdk/cli/cli.go:865-883 | an accented letter before "a" is measured as 3 from nothing and is 2; alone against "a" it is measured as 0 and is 1 |
| `EditDistance.ComputedStaysSmall` | sdk/cli/cli.go:865-883 | against a string with a multi-byte rune no non-empty string is measured farther than that string has runes |
| `EditDistance.MultiByteEndIsZero` | sdk/cli/cli.go:865-883 | if the second string ends in a multi-byte rune the result is 0 for every non-empty first string |
| `EditDistance.Measure` | sdk/cli/cli.go:865-883 | the two-row loops compute that table |
| `EditDistance.TrimmedIs` | sdk/cli/cli.go:852-863 | candidates are measured from their first rune that is no dash |
| `EditDistance.Suggest` | sdk/cli/cli.go:852-863 | a candidate is suggested if and only if it alone is closest, closer than three, and not empty |

## Left out

- Screen.FlushShows: glyph widths and wide cells, and terminals that paint a replacement character for an incomplete UTF-8 sequence; every rune is one cell and makes the cursor unknown when it is not ASCII, and an incomplete sequence cut off by ESC paints nothing.
- Screen padding bytes of a packed row comparison, and `Screen.Set` for a single cell.
- `TextSink` and the headless renderer.
- Restore.AllOrNothing: assumes the paths of the components and of the journal are distinct; leftover backups are covered.
- Restore: bundle verification, staging directory clean-up, the Windows branch of `replaceOperation`, file permissions, and JSON, which is assumed to be injective.
- Timers: the goroutine and wall clock of a single timer; a firing is a step that may happen at any time.
- KvStore: file-store keys that are not valid UTF-8, which JSON would alter.
- ProcBoundary.RequestFits: the closing message of the worker, whose size the guest-side caps do not bound.
- ProcBoundary: fetch and exec, presenting frames in process, bus subscriptions, and guest memory that cannot be read.
- WorkerRpc.Session.GuestKv: stores other than the in-memory one; they agree with it by KvStore.StoresAgree and KvStore.ListsAgree.
- Wire and Codecs: the fetch and exec codecs.
- Repository: author retirement, which deletes deployments of open sessions; app creation outside a deployment; build-metadata rows; session logs; identifier syntax, which is a parameter; SQL and the SQLite engine.
- Repository: handle reservations, enrollment tokens and pairing, which would add easier members of the same kind.
- Suspension: the length of backoff delays, logging, and registering a nil kill switch.
- TokenBucket: floating-point rounding and the cut of delays to nanoseconds; arithmetic is over real numbers.
- Layout: 64-bit overflow of sizes near the integer limits, the storage of hit regions, keyboard focus, and the structural hit fallback; text is a sequence of decoded runes.
- EditDistance.ComputedIsDistance: pairs in which both strings have multi-byte runes before their ends; what is exact is stated per string, against all single-byte strings.
- SSH, TLS, HTTP, process spawning, the WebAssembly runtime, cryptography, configuration and the command-line interface.
