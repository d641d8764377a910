# KSO player runtime and portal cores, modelled in Dafny

The KSO player decides from changing local files whether an advertisement may be shown, rotates the
items of a playlist, and appends proof-of-play (PoP) records to a log that it shares with other
processes. This project models that runtime, together with three smaller cores of the portal and the
sidecar, and proves properties of the models. `dafny verify dfyconfig.toml` verifies all of it.

## What is modelled

**The PoP log and its lock file** (`PopRecord`, `PopLog`, `PopLock`, `PopRuns`, with `Json`,
`JsonLookup`, `RecordFields` and `Utf8`). A call of `write_pop_event` is a sequence of file
operations, each of which may fail in its own way, and any number of calls interleave at these
operations; a call may crash between any two. Bytes of a line reach the log in arbitrary pieces.
Records are encoded and decoded in full: JSON with the escaping of section 7 of RFC 8259, then UTF-8.

**The runtime loops** (`Runtime`, `Daemon`, `DaemonRuns`, `Loop`, `LoopRuns`, `Rotation`,
`Attribution`, `LoopLog`, `Cycle`). The loops are classes with the fields of the result objects that
the source updates. What a cycle reads (playlist, gate before, gate after, the playlist of the PoP
attempt), the stop check, whether the sleep raises, and how writing the snapshot goes (installed,
truncated, silently lost, or no directory, which raises) are arbitrary inputs per cycle. A ghost trace
records gate readings, snapshot writes, sleeps and PoP attempts, and what is on the screen is a
function of it. `LoopLog` and `LogFinds` put the loops' attempts together with the protocol on the
log, `LoopScreen` their snapshots together with the protocol on the file. `Undisturbed` has the runs
in which nothing goes wrong. The daemon may run for ever, so its inputs are a finite list, and the end
of the list stands for a process that is still running or was killed.

**The decision pipeline** (`Parsed`, `Playlist`, `Extraction`, `WordLists`, `Timestamp`,
`ParseFields`, `NegativeRule`, `Calendar`, `Gate`, `Session`, `SessionReasons`, `Events`, `Pipeline`).
Every stage re-reads the files, so every read is an input of its own; one snapshot build makes two
gate reads and four playlist reads.

**When an attempt has a record** (`Recordable`, `RecordWords`, `ForbiddenWords`, `FalseClaims`,
`LegacyItems`): which attempts of the player yield a line for the log, how long that line can be, and
when it claims a playback that the gate did not allow.

**Printers and file writers** (`MediaReference`, `SnapshotWriters`, `SnapshotFields`, `AtomicWrite`,
`FixedTemp`): the slot alias, the two snapshot writers and their bytes, and the tmp-then-replace
writers as interleaved steps with failures and crashes. `EndToEnd` follows manifests of slot aliases
from the files, through every validator, the gate and the pipeline, to the bytes of the snapshot.

**Portal** (`SessionStore`, `SessionThreads`, `Tables`, `Stores`): the session store with a time to
live, as a class and under interleaved threads; search and pagination; the store and device count.

`Text` holds the string functions and small list helpers that the other modules share.

## What the proofs found

Some statements that the documentation or the naming suggests do not hold of the code. The model
follows the code; each of these has an exact condition or a general counterexample.

- A torn append swallows the record behind it, although that record's call returns `written`
  (`PopRuns.TornAppendSwallowsNext`). Reading the log back gives exactly the completed appends if and
  only if no torn append precedes a complete one (`PopRuns.LogIsTheAppendedRecords`).
- A lock file is left behind not only by a crash, but also when closing it fails, when its marker
  raises something other than an `OSError`, or when its unlink fails; from then on nothing is ever
  appended (`PopRuns.OrphanedExactly`, `PopRuns.OrphanedForever`).
- A PoP attempt does not mean that its item was on the screen. Both loops swallow a failed snapshot
  write, so at an attempt the item is there exactly if the snapshot of its turn was installed, or was
  lost while the same item was there already (`DaemonRuns.AttemptScreenExactly`,
  `LoopRuns.LoopAttemptScreenExactly`). Likewise a hold takes the advertisement off the screen exactly
  if its snapshot took effect (`DaemonRuns.HoldClearsExactly`). The counters do not notice
  (`DaemonRuns.LossIsNotCounted`), and if every write is lost the screen never changes
  (`DaemonRuns.LostRunShowsNothing`).
- The count of written PoPs counts attempts. It is the number of records that a reader of the log finds
  exactly if every attempt had a record and every one of these calls completed its append behind no
  unfinished line (`LoopLog.DaemonCountsExactly`, `LoopLog.LoopCountsExactly`); a torn append of any
  process hides at most the next complete record behind it (`LogFinds.FoundExactly`).
- An attempt may have no record at all: over a ready playlist it has one exactly if the end of the
  interval can be printed, the first item's content type and the times contain no forbidden word, and
  the line fits (`Recordable.AttemptIsRecordedExactly`). So a legacy manifest whose first item has a type
  with such a word gives any number of counted displays and no record
  (`LegacyItems.UncleanIsCountedNotRecorded`); `image/x-panasonic-raw`, which contains `pan`, is one
  (`LegacyItems.RawPictureIsNeverRecorded`).
- Both loops attribute every PoP record to the item of lowest order: while n items rotate, exactly one
  record in n names the item that was shown (`DaemonRuns.OneRecordInNIsRight`,
  `LoopRuns.LoopOneRecordInNIsRight`; from the files on, `EndToEnd.SlotsAreMisattributed`).
- Cycles that hold, fail or lose their snapshot use up a turn of the rotation. A position gets all its
  turns exactly if none of them is lost, and is never shown exactly if all are
  (`DaemonRuns.RotationIsFairExactly`, `LoopRuns.LoopRotationIsFairExactly`); all positions get all
  their turns exactly if every cycle displays (`DaemonRuns.AllPositionsServedExactly`). With two items
  and a gate that holds every other time, the second item is never shown
  (`DaemonRuns.AlternatingHoldsStarve`).
- The display cycle takes only the state from its second gate reading, not the verdict. A record claims
  playback against that verdict exactly if the state file names the idle state and the time is not in
  the window of its timestamp: because it is stale, lies in the future, cannot be read or is missing
  (`FalseClaims.FalseClaimExactly`, `Gate.IdleHoldsExactly`; from the files on,
  `EndToEnd.IdleSlotsAreRecorded`).
- "Atomic" writes ignore the count that `os.write` returns, so a short write installs a truncated
  file and reports success (`AtomicWrite.ShortWriteIsInstalled`).
- The fixed temporary name of the sidecar is safe for one writer; two overlapping writers can install an
  empty file (`FixedTemp.OverlapInstallsNothing`). Overlapping does no harm exactly as long as nobody
  reopens the file behind another writer's first byte, changes its bytes, or takes it away
  (`FixedTemp.OtherStepKeepsExactly`, `FixedTemp.UnharmedCallInstalls`).
- The two plans of one snapshot build can come from different files. The payload then describes neither
  item exactly if their orders differ and their types or duration buckets do
  (`Pipeline.PayloadDescribesExactly`; a short image that refers to a long video,
  `EndToEnd.SlotsAreMixed`).
- For a media type that is neither image nor video the pipeline writes a hold, and the loop an image
  (`SnapshotWriters.FrozenWritersAgreeExactly`).
- `run_kso_runtime_loop` is documented never to raise, but the directory of the snapshot is made
  outside its `try` blocks; the model has an `Escapes` exit for this. `build_playlist` raises for a
  medium that cannot be examined (`Playlist.RaisesExactly`).
- The rule against negative UTC offsets in `parse_iso_utc` can fire (`NegativeRule.RuleCanFire`), but
  for no text does it change the result (`NegativeRule.RuleChangesNothing`): where it fires, neither
  what it is given nor what it leaves can be read. A `+` offset is dropped, unlike section 5.6 of
  RFC 3339.
- The `$` of the whitelists also matches before a final newline: behind a reference one newline is
  accepted exactly where the reference is and has none yet (`Playlist.FinalNewlineExactly`). With such
  a newline behind a slot alias the two snapshot writers disagree (`EndToEnd.NewlineAliasDisagrees`).

## Model

| member | source | states |
|---|---|---|
| `PopLock.StepKeepsInv` | apps/kso_player/kso_player/pop_writer.py:328-373 | Every step of any call keeps mutual exclusion, the order of turns and the log as the concatenation of the calls' chunks; only the call that holds the lock extends the log. |
| `PopRuns.OneWriterAtATime` | apps/kso_player/kso_player/pop_writer.py:344-373 | In every state of every run at most one call is between lock creation and unlink, the lock file exists while one is, and a step that changes the log is that call's. |
| `PopRuns.LogOnlyGrows` | apps/kso_player/kso_player/pop_writer.py:488-491 | Every earlier log is a prefix of every later one. |
| `PopRuns.ResultsMean` | apps/kso_player/kso_player/pop_writer.py:470-512 | A written call has its whole line in the log exactly once, a skipped call nothing (and its reason is lock_unavailable), a failed call at most one prefix of its line. |
| `PopRuns.OrphanedExactly` | apps/kso_player/kso_player/pop_writer.py:349-373 | A step of the lock holder leaves a lock that nobody will remove exactly if it is a crash, a failed close, a marker that raises another exception, or a failed unlink. |
| `PopRuns.OrphanedForever` | apps/kso_player/kso_player/pop_writer.py:345-348 | From then on the lock stays, the log never changes, and a call that tries the lock returns lock_unavailable. |
| `PopRuns.UndisturbedCall` | apps/kso_player/kso_player/pop_writer.py:469-512 | A call that finds no lock file and is left alone extends the log by its bytes, frees the lock, and reports written exactly if the append went well. |
| `PopLock.ReturnsExactly` | apps/kso_player/kso_player/pop_writer.py:470-512 | A call is skipped exactly if the lock could not be had, an error exactly for the other failures, and written exactly if its append was finished and the release followed. |
| `PopRuns.LogIsTheAppendedRecords` | apps/kso_player/kso_player/pop_writer.py:445-491 | In every state of every run, splitting the log at newlines gives the earlier lines and then the completed appends in the order of their turns, if and only if no torn append precedes one; their lines then decode to the calls' records. |
| `PopRuns.WrittenIsAppended` | apps/kso_player/kso_player/pop_writer.py:505-512 | Every call that returned written is among these completed appends. |
| `PopRuns.TornAppendSwallowsNext` | apps/kso_player/kso_player/pop_writer.py:488-494 | For any two records and any torn prefix of the first, the second call reports written, but the log has one line and it is not that record's. |
| `PopLog.LinesAreRecoveredExactly` | apps/kso_player/kso_player/pop_writer.py:456-491 | For every earlier log and every list of lines and fragments behind it, a reader recovers exactly the lines if and only if no fragment precedes one. |
| `PopRecord.LineRoundTrip` | apps/kso_player/kso_player/pop_writer.py:257-285 | Decoding the line of a record gives the record back, for arbitrary field contents. |
| `PopRecord.LineShape` | apps/kso_player/kso_player/pop_writer.py:445-457 | The line of a record has exactly one newline byte, its last. |
| `RecordFields.LineIsSorted` | apps/kso_player/kso_player/pop_writer.py:445-446 | Read back as JSON, a line is an object of fourteen members with strictly sorted keys. |
| `RecordFields.LineSaysWhen` | apps/kso_player/kso_player/pop_writer.py:257-271 | Under created_at, started_at, ended_at and duration_ms a reader finds these fields of the record, null where there is none. |
| `RecordFields.LineSaysWhat` | apps/kso_player/kso_player/pop_writer.py:257-271 | Under event_type, event_status, result, playback_allowed and schema_version it finds the event, and version 1. |
| `RecordFields.LineSaysWhich` | apps/kso_player/kso_player/pop_writer.py:257-271 | Under selected_order, selected_content_type, safety_state, session_action and session_reason it finds the choice. |
| `RecordFields.PlayLineSays` | apps/kso_player/kso_player/pop_writer.py:257-285 | The line of the idle chain over a ready playlist says, key by key, the first item's order, type and duration, its start and its end, and a completed or draft would_play. |
| `RecordFields.BlockedLineSays` | apps/kso_player/kso_player/pop_writer.py:257-285 | The line over a playlist that is not ready says, key by key, a blocked event without item and times. |
| `PopRecord.RejectedExactly` | apps/kso_player/kso_player/pop_writer.py:420-465 | An event gets to the lock exactly if it has a record of at most 4096 bytes; it is an error exactly if it has none for a known state, and skipped otherwise. |
| `PopRecord.BuildRecordExactly` | apps/kso_player/kso_player/pop_writer.py:192-271 | A record carries the fields of its event; it exists only for the nine states, the four event types, the two statuses, the three actions and the five reasons. |
| `WordLists.UncleanInRecordExactly` | apps/kso_player/kso_player/pop_writer.py:92-105 | A text is refused in a record exactly if it contains one of the thirty words, in any case. |
| `Recordable.PlayIsRecordedExactly` | apps/kso_player/kso_player/pop_writer.py:180-285 | Over a ready playlist an event of the idle chain gets to the lock exactly if the end of its interval can be printed, the first item's content type and the three times contain no forbidden word, and the line is at most 4096 bytes; the record is then the one given. |
| `Recordable.BlockedIsRecordedExactly` | apps/kso_player/kso_player/pop_writer.py:180-285 | Over any other playlist the idle chain has a blocked record exactly if the creation time contains no forbidden word and the line fits. |
| `Recordable.AttemptIsRecordedExactly` | apps/kso_player/kso_player/runtime_daemon.py:399-414 | So a PoP attempt of a loop has a record exactly then; every other attempt fails silently. |
| `Recordable.SafeHeadIsRecorded` | apps/kso_player/kso_player/pop_writer.py:180-285 | The condition is met: a first item of the KSO format whose order and duration have at most 200 digits, displayed at a printed time and before the year 10000, is recorded as played. |
| `Recordable.LineLength` | apps/kso_player/kso_player/pop_writer.py:445-457 | A record of plain strings and numbers of at most m characters has a line of at most 14(m+29)+3 bytes. |
| `Recordable.UncleanTypeIsNeverRecorded` | apps/kso_player/kso_player/pop_writer.py:180-187 | If the content type of the first item contains a forbidden word, no attempt ever has a record. |
| `LegacyItems.EntryExtracts` | apps/kso_player/kso_player/playlist.py:312-377 | A legacy entry is extracted as it is written, whatever its content type contains, as long as that is not blank. |
| `LegacyItems.LegacyManifestIsReady` | apps/kso_player/kso_player/playlist.py:505-646 | A manifest of any number of valid legacy entries whose media verify gives a ready playlist of exactly these items. |
| `LegacyItems.UncleanRunRecordsNothing` | apps/kso_player/kso_player/runtime_daemon.py:399-414 | A daemon run whose attempts all find such a first item yields no record, whatever it shows and counts. |
| `LegacyItems.UncleanIsCountedNotRecorded` | apps/kso_player/kso_player/runtime_daemon.py:342-414 | From the files on: with a legacy manifest whose first entry in order has such a type, and an idle file, n rounds display n items, count n PoPs and have no record, for every n. |
| `LegacyItems.RawPictureIsNeverRecorded` | apps/kso_player/kso_player/pop_writer.py:92-105 | One picture of type image/x-panasonic-raw is such a manifest. |
| `PopRecord.ChainRecord` | apps/kso_player/kso_player/display_cycle.py:365-396 | Every record of the player's own chain is would_play or blocked; would_play, playback_allowed, action play and a selected order come together, exactly for the idle state and a ready playlist, and the order is the playlist's minimum. |
| `Json.StringRoundTrip` | apps/kso_player/kso_player/pop_writer.py:446-446 | Reading an escaped string gives the string back, whatever characters it has and whatever follows. |
| `Json.ValueRoundTrip` | apps/kso_player/kso_player/pop_writer.py:446-446 | Reading the text of a value gives the value back and leaves what follows. |
| `Json.EncodeNoControl` | apps/kso_player/kso_player/pop_writer.py:446-456 | No encoded value contains a raw control character, hence no newline. |
| `Json.EncodeInjective` | apps/kso_player/kso_player/shell_snapshot.py:275-283 | Different values have different texts. |
| `Json.CompactIsAscii` | apps/kso_player/kso_player/shell_snapshot.py:275-283 | Text for the shell is ASCII only. |
| `Json.LineKeepsText` | apps/kso_player/kso_player/pop_writer.py:446-446 | Text for the log keeps every character that RFC 8259 does not want escaped. |
| `Utf8.RoundTrip` | apps/kso_player/kso_player/pop_writer.py:457-489 | Decoding the UTF-8 bytes of a string gives the string back. |
| `Utf8.NoNewline` | apps/kso_player/kso_player/pop_writer.py:457-489 | Text without a newline has no newline byte. |
| `Daemon.Runner.RunOneCycle` | apps/kso_player/kso_player/runtime_daemon.py:342-368 | The imperative cycle returns the status, and has the effects, that its specification gives, for each outcome of each snapshot write. |
| `Daemon.Runner.ShowItem` | apps/kso_player/kso_player/runtime_daemon.py:374-393 | The same for the turn of an item, from the attempt to install its snapshot on: a write that was lost or truncated is passed over like one that was installed. |
| `Daemon.Runner.PassThrough` | apps/kso_player/kso_player/runtime_daemon.py:250-331 | One pass through the loop keeps the counters, the trace and the number of consecutive errors, or ends the run for the reason it reports. |
| `Daemon.Runner.Run` | apps/kso_player/kso_player/runtime_daemon.py:185-335 | The run ends with max_errors exactly if the last max_consecutive_errors attempts all raised and never earlier; with max_cycles it makes at most that many attempts and ends; the counters and the trace are those of the attempts made. |
| `Daemon.RunningStep` | apps/kso_player/kso_player/runtime_daemon.py:277-317 | The counter of consecutive errors is the length of the last streak of raising attempts, and the breaker trips exactly when that reaches the limit. |
| `Runtime.Accounting` | apps/kso_player/kso_player/runtime_daemon.py:297-317 | The counters are the numbers of attempts of each kind; attempts are completed cycles and errors; completed cycles are rendered, held and empty ones. |
| `DaemonRuns.RunAccounting` | apps/kso_player/kso_player/runtime_daemon.py:246-331 | That accounting holds for every number of attempts over arbitrary readings. |
| `DaemonRuns.EveryPopIsJustified` | apps/kso_player/kso_player/runtime_daemon.py:364-414 | In every run over arbitrary readings each PoP attempt directly follows a play reading, a snapshot write for an item in an existing directory, a sleep of the item's duration clamped to 1000..60000 ms and another play reading, with confirmation set, and its record is an admissible completed one for the idle state. |
| `DaemonRuns.EverySleepIsTimed` | apps/kso_player/kso_player/runtime_daemon.py:377-380 | In every run each sleep follows the snapshot of an item and lasts 1000 to 60000 ms: the item's duration exactly if that is in the range, 1000 exactly for at most 1000, 60000 exactly for at least 60000. |
| `DaemonRuns.AttemptScreenExactly` | apps/kso_player/kso_player/runtime_loop.py:369-390 | In every run, at each PoP attempt the item of the turn is on the screen exactly if the turn's snapshot was installed, or was lost while the same item was on the screen already. |
| `Runtime.ScreenIsLastInstalled` | apps/kso_player/kso_player/runtime_loop.py:369-390 | The screen holds the snapshot that was installed last, whatever was lost since, or a torn one. |
| `DaemonRuns.CycleScreen` | apps/kso_player/kso_player/runtime_daemon.py:355-375 | What each cycle makes of the screen: nothing if it raises before its snapshot or the write is lost, otherwise the hold or the item of the turn, or a torn file. |
| `DaemonRuns.HoldClearsExactly` | apps/kso_player/kso_player/runtime_daemon.py:355-368 | A held cycle, or one without items, replaces an advertisement by the hold screen exactly if its snapshot was installed, and leaves it up exactly if the write was lost. |
| `DaemonRuns.LossIsNotCounted` | apps/kso_player/kso_player/runtime_daemon.py:297-317 | The status of a cycle, and so every counter, and its PoP attempts are the same whether its snapshot was installed, torn or lost. |
| `DaemonRuns.LostRunShowsNothing` | apps/kso_player/kso_player/runtime_loop.py:369-390 | If every snapshot of a run is lost, the screen never changes, whatever the run counts. |
| `DaemonRuns.PopsAreAttempts` | apps/kso_player/kso_player/runtime_daemon.py:301-307 | The PoPs counted are the PoP attempts made, at most the cycles counted as rendered. |
| `LogFinds.FoundExactly` | apps/kso_player/kso_player/pop_writer.py:445-491 | In every reachable state a reader finds the record of a call (the lines in front of its turn, its line, the lines behind) exactly if its append is complete and the nearest append in front of it that left any bytes, or else the earlier log, ended its line. |
| `LogFinds.FoundDecodes` | apps/kso_player/kso_player/pop_writer.py:445-491 | What is found decodes to the record of the call. |
| `LogFinds.FoundApart` | apps/kso_player/kso_player/pop_writer.py:470-512 | Records of different calls are found at different lines, in the order of their turns. |
| `LogFinds.SwallowedIsNotFound` | apps/kso_player/kso_player/pop_writer.py:488-494 | For any two records and any torn prefix of the first, the second append is complete and its record is not found. |
| `LoopLog.FoundAtMostAttempts` | apps/kso_player/kso_player/pop_writer.py:470-512 | In every state of every run of the log protocol, with any other calls in between, the records of a loop's calls that a reader finds are at most its complete appends, which are at most its PoP attempts; they are as many as the attempts exactly if every attempt had a record and each of its calls is found. |
| `LoopLog.DaemonCountsExactly` | apps/kso_player/kso_player/runtime_daemon.py:301-307 | So the daemon's count of written PoPs is at least the number of its records that a reader of the log finds, and equal exactly then. |
| `LoopLog.LoopCountsExactly` | apps/kso_player/kso_player/runtime_loop.py:305-316 | The same for the loop. |
| `DaemonRuns.ShowsAtIsShown` | apps/kso_player/kso_player/runtime_daemon.py:370-375 | If cycle j displays, the item at position j mod n in manifest order is on the screen from its snapshot to the end of the cycle. |
| `DaemonRuns.RotationIsFairExactly` | apps/kso_player/kso_player/runtime_daemon.py:364-375 | In any window a position is shown at most as often as it has turns; it gets all of them exactly if all of them display, and is never shown exactly if none of them does. |
| `DaemonRuns.FairShareExactly` | apps/kso_player/kso_player/runtime_daemon.py:364-375 | In k cycles it is shown floor(k/n) or ceil(k/n) times exactly if it loses no turn, or only the one beyond floor(k/n). |
| `DaemonRuns.AllPositionsServedExactly` | apps/kso_player/kso_player/runtime_daemon.py:364-375 | All positions get all their turns exactly if every cycle of the window displays. |
| `Rotation.AllServedExactly` | apps/kso_player/kso_player/runtime_loop.py:283-285 | The same for any round robin that loses some of its turns. |
| `DaemonRuns.AlternatingHoldsStarve` | apps/kso_player/kso_player/runtime_daemon.py:364-371 | A consequence: with two items and a gate that holds in every odd cycle, the second item is never shown, however long the run. |
| `DaemonRuns.RotationsCoincideExactly` | apps/kso_player/kso_player/session.py:198-207 | The loops' rotation and that of select_next_item agree at every turn exactly if the manifest lists the items in order. |
| `Attribution.NamesItemExactly` | apps/kso_player/kso_player/runtime_daemon.py:400-414 | A record names the order of an item exactly if that is the minimum of the playlist rebuilt when the record is written. |
| `Attribution.RightRecordsAreTurns` | apps/kso_player/kso_player/runtime_daemon.py:400-414 | Over an unchanged playlist, the records that name the item in turn are as many as the turns of the item of lowest order. |
| `DaemonRuns.OneRecordInNIsRight` | apps/kso_player/kso_player/runtime_daemon.py:388-412 | While nothing changes and every cycle displays and records its item, each of the n items is on the screen once in n cycles, and exactly one of the n records names the item shown. |
| `Runtime.RecordIsFromChain` | apps/kso_player/kso_player/runtime_daemon.py:404-412 | The record of an attempt is completed, would_play exactly for the idle state and a playlist with items, and then names the first item in slot order. |
| `Runtime.ReadingsAreReal` | apps/kso_player/kso_player/runtime_daemon.py:355-366 | What the theorems over arbitrary readings ask of a reading, every reading of the files satisfies. |
| `Loop.LoopRunner.OneCycle` | apps/kso_player/kso_player/runtime_loop.py:267-316 | The loop body has the specified effects and counts for each outcome of its snapshot write, and tells a returned error from the exception that escapes. |
| `Loop.LoopRunner.Run` | apps/kso_player/kso_player/runtime_loop.py:182-320 | The run makes max_cycles attempts and completes exactly if no cycle ended it; otherwise it stops at the first one that did. |
| `LoopRuns.EveryLoopPopIsJustified` | apps/kso_player/kso_player/runtime_loop.py:267-316 | Each PoP attempt of a loop run ends a confirmed, timed turn of an item whose snapshot was tried in an existing directory, with play readings before and after. |
| `LoopRuns.EveryLoopSleepIsTimed` | apps/kso_player/kso_player/runtime_loop.py:290-294 | The same for every sleep of a loop run. |
| `LoopRuns.LoopAttemptScreenExactly` | apps/kso_player/kso_player/runtime_loop.py:369-390 | At each of them the item is on the screen exactly if its snapshot was installed, or was lost while the same item was there already. |
| `LoopRuns.LoopCycleScreen` | apps/kso_player/kso_player/runtime_loop.py:276-290 | What each cycle makes of the screen. |
| `LoopRuns.LoopHoldClearsExactly` | apps/kso_player/kso_player/runtime_loop.py:276-281 | A held cycle clears an advertisement exactly if its hold snapshot was installed, and leaves it up exactly if the write was lost. |
| `LoopRuns.LoopShowsAtIsShown` | apps/kso_player/kso_player/runtime_loop.py:283-290 | If cycle j displays, the item at position j mod n is on the screen at every moment from its snapshot to the end of the cycle. |
| `LoopScreen.ScreenIsDestination` | apps/kso_player/kso_player/runtime_loop.py:327-390 | In every state of every run of the snapshot writes of a loop, with every failure of their steps and with short writes, the destination file holds the text of what the loop's screen shows, if each write counts as installed, truncated or lost as it has gone. |
| `LoopScreen.FileShowsOne` | apps/kso_player/kso_player/runtime_loop.py:327-366 | A file shows one text, to which it decodes, and a hold is never taken for an item. |
| `LoopScreen.AttemptFileShowsItem` | apps/kso_player/kso_player/runtime_daemon.py:374-393 | At a PoP attempt of a daemon run whose turn's write was installed, the file holds the item's snapshot. |
| `LoopScreen.LoopAttemptFileShowsItem` | apps/kso_player/kso_player/runtime_loop.py:287-307 | The same for the loop. |
| `LoopRuns.LoopAccounting` | apps/kso_player/kso_player/runtime_loop.py:276-316 | Completed cycles rendered or held; the PoPs counted are the attempts made, at most the cycles counted as rendered. |
| `LoopRuns.LoopRotationIsFairExactly` | apps/kso_player/kso_player/runtime_loop.py:283-285 | In any window a position is shown at most as often as it has turns, gets all of them exactly if all display, and is never shown exactly if none does. |
| `Rotation.FloorOrCeilExactly` | apps/kso_player/kso_player/runtime_loop.py:283-285 | For any round robin that loses some of its turns, a position is shown floor(k/n) or ceil(k/n) times in k turns exactly if it loses no turn, or only the one beyond floor(k/n). |
| `LoopRuns.LoopNamesShownItemExactly` | apps/kso_player/kso_player/runtime_loop.py:393-409 | A record of the loop names the item of its cycle exactly if its order is the minimum of the playlist rebuilt for the record. |
| `LoopRuns.LoopOneRecordInNIsRight` | apps/kso_player/kso_player/runtime_loop.py:283-316 | While the manifest does not change and every cycle displays and records its item, each of the n items is shown once in n cycles, and exactly one of the n records is right. |
| `Cycle.Display.Run` | apps/kso_player/kso_player/runtime_cycle.py:194-333 | A PoP is reported written exactly if the start-up rendered, the caller confirmed, the wait succeeded, the gate still says play and the line was appended; stale and changed states get their own reasons; every sleep lasts 1000 to 60000 ms, as the plan's item says. |
| `Cycle.Display.WritePop` | apps/kso_player/kso_player/runtime_cycle.py:307-333 | Only a written result sets completed_pop_written; every other outcome has its reason. |
| `Cycle.ExtractDuration` | apps/kso_player/kso_player/runtime_cycle.py:340-366 | The wait is between 1000 and 60000 ms: the duration of the plan's item exactly if that is in the range, the nearer bound exactly if it is at or beyond it, and 1000 without an item. |
| `Cycle.DisplayRecordExactly` | apps/kso_player/kso_player/display_cycle.py:311-425 | A record is written only behind a render plan and a confirmation, and claims playback exactly if the second gate reading has the idle state and the playlist is ready. |
| `Cycle.DisplaySays` | apps/kso_player/kso_player/display_cycle.py:311-425 | Each reason and each status of a display has its exact condition. |
| `FalseClaims.ClaimsExactly` | apps/kso_player/kso_player/display_cycle.py:311-425 | A display appends a record that claims playback exactly behind a render plan, a confirmation and a successful append, if the second state file names idle and the playlist is ready with a first item whose record fits; the verdict on that file does not matter. |
| `FalseClaims.FalseClaimExactly` | apps/kso_player/kso_player/display_cycle.py:352-396 | It does so against the verdict exactly if in addition the file has no readable timestamp whose window contains the time. |
| `Gate.IdleHoldsExactly` | apps/kso_player/kso_player/runtime_gate.py:261-377 | A file that names the idle state plays in its window, and otherwise holds, still with state idle, each of the reasons missing, unreadable, future and stale timestamp having its exact condition. |
| `Gate.StateIsIdleExactly` | apps/kso_player/kso_player/runtime_gate.py:225-377 | The state in a gate result is idle exactly if the file names it. |
| `Pipeline.RenderExactly` | apps/kso_player/kso_player/shell_snapshot.py:179-250 | With files changing arbitrarily between the six reads, render mode holds exactly if both gate reads say play, all four playlist reads are ready and both selected items are images or videos; the payload describes the items of the third and the sixth read. |
| `Pipeline.FrozenRenderExactly` | apps/kso_player/kso_player/shell_snapshot.py:179-250 | With files and clock frozen, render mode holds exactly if stale_seconds is positive, the gate says play, and the first item in stable order of a ready playlist is an image or a video; the whole payload then describes that item. |
| `Pipeline.PayloadDescribesExactly` | apps/kso_player/kso_player/shell_snapshot.py:204-238 | With files changing arbitrarily, a rendered payload describes the item of the last read exactly if media type and bucket agree with those of read 2, the item of read 2 exactly if the orders agree, and neither exactly if both differ. |
| `Pipeline.MixedPayloadExactly` | apps/kso_player/kso_player/shell_snapshot.py:204-238 | Between two file states that each render, the build renders, with type and duration of the first item and the reference of the second, and describes neither exactly if both differ. |
| `Pipeline.PlanExactly` | apps/kso_player/kso_player/render_plan.py:178-254 | A plan renders exactly if the gate read says play, the first playlist read is ready, and the second one is ready and starts with an image or a video. |
| `Pipeline.DecideExactly` | apps/kso_player/kso_player/runtime_decision.py:141-243 | A decision allows playback exactly if the gate read says play and the playlist read is ready. |
| `Pipeline.DecisionSays` | apps/kso_player/kso_player/runtime_decision.py:130-235 | Each reason of a decision has its exact condition; it passes on state, action and, from a hold, the status of the gate. |
| `Pipeline.PlanSays` | apps/kso_player/kso_player/render_plan.py:178-254 | Each reason and status of a plan has its exact condition. |
| `Pipeline.SnapshotSays` | apps/kso_player/kso_player/shell_snapshot.py:179-250 | Each reason and status of a snapshot has its exact condition; it announces a PoP exactly behind a render command. |
| `Session.PickIsRoundRobin` | apps/kso_player/kso_player/session.py:198-251 | Threaded from no state over a ready playlist of n items, the k-th pick (from 0) is sorted item k mod n with cycle count k div n, as long as the remembered ids are acceptable. |
| `Session.PickStopsOnBadNote` | apps/kso_player/kso_player/session.py:81-118 | One unacceptable remembered id makes the next pick a hold for an invalid state. |
| `Session.RotationIsFair` | apps/kso_player/kso_player/session.py:207-251 | Among k consecutive turns every position comes up floor(k/n) or ceil(k/n) times. |
| `Session.SortIsStable` | apps/kso_player/kso_player/session.py:200-200 | The sorted list is ordered and keeps, for every order value, the items as listed. |
| `Session.HeadIsFirstMinimum` | apps/kso_player/kso_player/session.py:200-204 | The head of the sorted list is the first listed item of minimal order. |
| `SessionReasons.SafetySays` | apps/kso_player/kso_player/safety.py:140-249 | Each reason of the safety gate has its exact condition; unknown and a playlist that is not ready hold, everything else but idle stops. |
| `WordLists.BadNoteExactly` | apps/kso_player/kso_player/session.py:60-118 | A remembered id is refused exactly for one of the eighteen words, in any case, or a path separator. |
| `Gate.PlayWindow` | apps/kso_player/kso_player/runtime_gate.py:311-377 | The gate says play exactly for an idle file with a readable timestamp u and positive stale_seconds s, and exactly while u <= now < u + (s+1) seconds. |
| `Gate.UnknownStateExactly` | apps/kso_player/kso_player/runtime_gate.py:177-285 | A file that cannot be read or names none of the nine states holds, with each reason and status for its own cause. |
| `Gate.KnownStateExactly` | apps/kso_player/kso_player/runtime_gate.py:261-377 | For a known state, each reason, status and freshness has its exact condition. |
| `Gate.IdleFilePlays` | apps/kso_player/kso_player/runtime_gate.py:311-377 | A file that names the idle state and is stamped with a printed time plays at that time: printer, parser and gate fit together. |
| `Gate.StaleStaysOnHold` | apps/kso_player/kso_player/runtime_gate.py:323-377 | An unchanged file that played and then held never plays again. |
| `Playlist.BuildPlaylist` | apps/kso_player/kso_player/playlist.py:505-646 | The two loops compute the specified playlist, error paths and exceptions included. |
| `Playlist.VerifyItems` | apps/kso_player/kso_player/playlist.py:594-617 | The verification loop raises exactly if some look does; otherwise it keeps the verified items in order and counts missing and failed ones. |
| `Playlist.RaisesExactly` | apps/kso_player/kso_player/playlist.py:505-617 | build_playlist raises exactly if the manifest cannot be read, or extraction is reached and the look at some extracted item raises. |
| `Playlist.ExtractItems` | apps/kso_player/kso_player/playlist.py:566-583 | The extraction loop keeps the items that extract, in order, and skips the others. |
| `Playlist.BuildConserves` | apps/kso_player/kso_player/playlist.py:566-646 | Past extraction, ready + missing + failed is the number of extracted items, at most items_total, and items are exactly the verified ones, with non-negative orders and durations. |
| `Playlist.ItemsAreTheOrderedPart` | apps/kso_player/kso_player/playlist.py:566-617 | The items are the order-preserving subsequence of the manifest that extracts and verifies, with nothing else dropped. |
| `Playlist.ReadyExactly` | apps/kso_player/kso_player/playlist.py:577-646 | A playlist is ready exactly if the manifest is accepted, at least one item extracts and all extracted items verify. |
| `LegacyItems.LegacyPlaylistExactly` | apps/kso_player/kso_player/playlist.py:453-483 | From a legacy manifest on: ready exactly if every medium is a regular file, no link, with the digest of its entry and with its size if one is given and positive; corrupted exactly if one that is there is not so; incomplete exactly if none is corrupted and one is gone. |
| `LegacyItems.LegacyCounts` | apps/kso_player/kso_player/playlist.py:594-646 | The counts are the numbers of sound, missing and corrupted media. |
| `LegacyItems.OtherDigestIsCorrupted` | apps/kso_player/kso_player/playlist.py:468-474 | One regular file with another digest is enough for status error, media_corrupted and a failed item. |
| `EndToEnd.SlotPlaylistExactly` | apps/kso_player/kso_player/playlist.py:486-498 | From a manifest of slots on: ready exactly if at every path there is a file, or a directory behind a link; otherwise incomplete, and never corrupted. |
| `Playlist.NoPlaylistExactly` | apps/kso_player/kso_player/playlist.py:528-589 | Each reason and status of a manifest that gives no playlist has its exact condition. |
| `Playlist.FormatExactly` | apps/kso_player/kso_player/playlist.py:231-266 | The format follows the members of the first item, and the channel if these do not tell. |
| `Extraction.ExtractLegacyExactly` | apps/kso_player/kso_player/playlist.py:312-377 | A legacy entry is extracted exactly if its id and type are not blank, its filename is a plain name without a forbidden word, its digest has 64 hexadecimal digits, and its numbers are not negative. |
| `Extraction.ExtractKsoExactly` | apps/kso_player/kso_player/playlist.py:384-446 | A KSO entry is extracted exactly if its slot is there and not negative, its duration not negative, its type one of three, its reference accepted and its creative code free of forbidden words. |
| `Extraction.ExtractKsoSays` | apps/kso_player/kso_player/playlist.py:384-446 | Each field of what is extracted is named in terms of the entry: the slot is the order, a missing duration is 0, no digest and no size. |
| `Extraction.RefIsAcceptedExactly` | apps/kso_player/kso_player/playlist.py:180-202 | A reference is accepted exactly if it is made of the whitelisted characters, does not begin with a slash and contains no forbidden word; the list of unsafe patterns refuses nothing more. |
| `WordLists.ForbiddenInManifestExactly` | apps/kso_player/kso_player/playlist.py:51-58 | A text is refused in a manifest exactly if it contains one of the nineteen words, in any case. |
| `Playlist.FinalNewlineExactly` | apps/kso_player/kso_player/playlist.py:180-202 | A reference with one more newline behind it is accepted exactly if the reference is accepted and does not end with one. |
| `Timestamp.ParseUndoesPrint` | apps/kso_player/kso_player/timestamp_utils.py:21-56 | For every datetime, with or without microseconds, parsing what isoformat prints gives it back, bare, with Z, and with any + offset. |
| `ParseFields.ShortFieldsParse` | apps/kso_player/kso_player/timestamp_utils.py:46-56 | Months, days, hours, minutes and seconds of one digit parse, too, and so does a small t. |
| `Timestamp.NegativeOffsetRefused` | apps/kso_player/kso_player/timestamp_utils.py:33-56 | A directly appended negative offset is never parsed. |
| `NegativeRule.RuleChangesNothing` | apps/kso_player/kso_player/timestamp_utils.py:28-56 | For every text the parser returns what it would return without the rule for negative offsets. |
| `NegativeRule.RuleCanFire` | apps/kso_player/kso_player/timestamp_utils.py:37-43 | The rule does cut a text that is a date, an hour and an offset. |
| `Events.IsoAddMsIsExact` | apps/kso_player/kso_player/simulator.py:67-76 | Adding milliseconds to a printed UTC timestamp and parsing the result adds exactly that time; only past year 9999 it raises. |
| `Calendar.MonthLengths` | apps/kso_player/kso_player/simulator.py:67-76 | The lengths of the months, and the leap rule. |
| `Calendar.KnownDays` | apps/kso_player/kso_player/simulator.py:67-76 | Day numbers of known dates around leap days, centuries and the ends of the calendar. |
| `Events.IntervalIsDuration` | apps/kso_player/kso_player/simulator.py:106-156 | In a play event, parsed would_end_at minus parsed started_at is the item's duration. |
| `Events.EventAgrees` | apps/kso_player/kso_player/events.py:98-169 | Event type, permission, action, selected fields and timestamps agree with each other and with idle state and ready playlist. |
| `MediaReference.SlotAliasRoundTrip` | apps/kso_player/kso_player/media_reference.py:94-117 | For every order the slot alias passes the whitelist and decodes back to the order. |
| `MediaReference.SlotAliasInjective` | apps/kso_player/kso_player/media_reference.py:112-117 | Different orders have different aliases, also past 999. |
| `MediaReference.ReferencePresentExactly` | apps/kso_player/kso_player/media_reference.py:165-190 | An item has a safe reference exactly if it is an image or a video with a non-negative order, and it is its slot alias. |
| `SnapshotWriters.RenderIsNeverWithheld` | apps/kso_player/kso_player/shell_snapshot.py:253-299 | The serialised render snapshot of any media type, bucket and order contains no forbidden substring, so it is never replaced by the hold fallback. |
| `SnapshotWriters.PipelineOutputIsClean` | apps/kso_player/kso_player/shell_snapshot.py:265-299 | Whatever the files do, the pipeline's snapshot is serialised as it is and contains no forbidden substring. |
| `SnapshotWriters.KsoWritersAgreeExactly` | apps/kso_player/kso_player/runtime_loop.py:338-366 | For every item that the KSO extractor accepts, the loop's writer and the pipeline's produce the same JavaScript exactly if mediaRef is the slot alias of the order. |
| `SnapshotWriters.WritersAgreeExactly` | apps/kso_player/kso_player/runtime_loop.py:410-426 | For any image or video, they agree exactly if reference and media type do; the duration buckets always agree. |
| `SnapshotWriters.FrozenWritersAgreeExactly` | apps/kso_player/kso_player/runtime_loop.py:338-426 | For the first item of any ready playlist at a time when the gate plays, whatever its media type, the pipeline's file and the loop's are the same exactly if the item is an image or a video that both classify alike and its reference is the slot alias; for another type one is a hold and the other an image. |
| `SnapshotFields.LoopFileSays` | apps/kso_player/kso_player/runtime_loop.py:338-366 | Read back, the loop's file for an item is one assignment of a render command, version 1, whose durationBucket is short exactly below 10000, long exactly above 60000 and medium otherwise, whose mediaType is video exactly for a video MIME type and image otherwise, and whose mediaRef is the item's own, its file in the media directory, or absent. |
| `SnapshotFields.PipelineFileSays` | apps/kso_player/kso_player/shell_snapshot.py:204-283 | The same for the pipeline's file of an image or a video; its mediaRef is the fixed directory and the decimal order, of at least three digits. |
| `SnapshotFields.HoldFileSays` | apps/kso_player/kso_player/shell_snapshot.py:179-203 | Any snapshot that does not render is written as a hold command with the reason hold. |
| `SnapshotFields.LoopHoldSays` | apps/kso_player/kso_player/runtime_loop.py:327-335 | The loop's own hold file says the same. |
| `SnapshotFields.FileRendersExactly` | apps/kso_player/kso_player/shell_snapshot.py:162-240 | Over files that do not change, the written file read back says render exactly if the gate plays, the playlist is ready and its first item is an image or a video. |
| `EndToEnd.AliasIsAccepted` | apps/kso_player/kso_player/playlist.py:180-202 | The slot alias of every order passes the manifest validator too, whose forbidden words are not those of the alias whitelist. |
| `EndToEnd.SlotExtracts` | apps/kso_player/kso_player/playlist.py:384-445 | A manifest entry with an allowed type and the slot alias of its order is extracted as it is written. |
| `EndToEnd.SlotManifestIsReady` | apps/kso_player/kso_player/playlist.py:505-646 | A manifest of any number of such entries whose media are present gives a ready playlist of exactly these items, in the listed order. |
| `EndToEnd.SlotsReachTheScreen` | apps/kso_player/kso_player/shell_snapshot.py:151-299 | With such a manifest and a fresh idle state the pipeline renders the first entry of minimal order, and the loop's writer produces the same bytes for it. |
| `EndToEnd.NewlineAliasDisagrees` | apps/kso_player/kso_player/media_reference.py:165-190 | For every slot alias, a newline behind it is accepted by the extractor, and then the two snapshot writers produce different JavaScript. |
| `EndToEnd.SlotsAreMixed` | apps/kso_player/kso_player/shell_snapshot.py:204-238 | A manifest of one short image replaced, in the middle of one build, by one of one long video gives a payload that says short image and refers to the video. |
| `EndToEnd.IdleSlotsAreRecorded` | apps/kso_player/kso_player/display_cycle.py:311-425 | For every manifest of slots with short numbers whose media are present, a fresh file at the plan, and any file that names idle at the second gate reading, a record that claims playback is written; the verdict is hold exactly out of that file's window. |
| `EndToEnd.StaleSlotsAreRecorded` | apps/kso_player/kso_player/display_cycle.py:311-425 | In particular with a file that has gone stale in between. |
| `EndToEnd.UnstampedSlotsAreRecorded` | apps/kso_player/kso_player/runtime_gate.py:261-272 | And, at any time, with a file that has no timestamp. |
| `EndToEnd.GoodRoundsAreSteady` | apps/kso_player/kso_player/runtime_daemon.py:342-414 | Rounds in which nothing changes and nothing goes wrong meet what the theorem about the records asks for. |
| `EndToEnd.SlotsAreMisattributed` | apps/kso_player/kso_player/runtime_daemon.py:370-412 | With a manifest of n slots of distinct orders and a fresh idle file, n rounds show each slot once, and exactly one of their n records is right. |
| `AtomicWrite.StepKeepsInv` | apps/kso_player/kso_player/runtime_snapshot_writer.py:109-142 | Every step of any call keeps the temporary files apart and whole, and the destination changes only at once, by a replacement. |
| `AtomicWrite.DestinationIsOneCallsContent` | apps/kso_player/kso_player/runtime_loop.py:369-390 | At every moment of every run with failures, crashes and concurrent writers, the destination holds what was there at first or what one call's os.write took; it is that call's whole content exactly if the write was not short. |
| `AtomicWrite.SuccessIsInstalled` | apps/kso_player/kso_player/runtime_snapshot_writer.py:131-142 | A call that reports success did replace the destination, by its whole content if the write was not short; none that reports failure did. |
| `AtomicWrite.ShortWriteIsInstalled` | apps/kso_player/kso_player/runtime_snapshot_writer.py:117-140 | For every content and every proper prefix, a write that takes only the prefix installs it and reports success. |
| `AtomicWrite.FailureEndsExactly` | apps/kso_player/kso_player/runtime_snapshot_writer.py:109-142 | Every failing step ends its call without success, and each phase is reached by exactly one kind of step. |
| `FixedTemp.OneWriterIsAtomic` | apps/kso_sidecar_agent/kso_sidecar_agent/atomic_io.py:34-45 | In every run in which calls never overlap, crashes and left-over temporary files included, the target holds what was there at first or the whole content of one successful call. |
| `FixedTemp.OneWriterInstalls` | apps/kso_sidecar_agent/kso_sidecar_agent/atomic_io.py:34-45 | A call that succeeds has then installed its whole content, and no other step changes the target. |
| `FixedTemp.OverlapInstallsNothing` | apps/kso_sidecar_agent/kso_sidecar_agent/atomic_io.py:35-40 | For any two contents there is an overlapping run in which the first writer succeeds and the target is empty. |
| `FixedTemp.OtherStepKeepsExactly` | apps/kso_sidecar_agent/kso_sidecar_agent/atomic_io.py:34-45 | While a call's temporary file is intact, a step of another call leaves it so exactly if it is a failed or an early opening, writes elsewhere or bytes that are there already, or is a failed replacement whose clean-up fails, too; closing and crashing never harm. |
| `FixedTemp.UnharmedCallInstalls` | apps/kso_sidecar_agent/kso_sidecar_agent/atomic_io.py:34-45 | In every run, overlapping or not, a call that no other call harms between opening the file and replacing the target installs its whole content. |
| `FixedTemp.FailureEndsExactly` | apps/kso_sidecar_agent/kso_sidecar_agent/atomic_io.py:34-45 | A call succeeds exactly by a replacement that finds its temporary file; every failing step ends it without success. |
| `SessionStore.Store.Create` | apps/portal-web/portal_session.py:78-84 | The session is in the plain timed map from then on. |
| `SessionStore.Store.Get` | apps/portal-web/portal_session.py:86-98 | The fields are returned exactly if the id was created, not deleted, and now - created_at <= max_age; lazy eviction leaves the plain map as it is. |
| `SessionStore.Store.Delete` | apps/portal-web/portal_session.py:100-103 | The id is gone from store and plain map. |
| `SessionStore.Store.CleanupExpired` | apps/portal-web/portal_session.py:105-117 | Exactly the sessions with now - created_at <= max_age stay, unchanged, and the others are counted; the plain map is unchanged. |
| `SessionStore.RefinesReads` | apps/portal-web/portal_session.py:93-98 | A store that lacks only expired sessions answers every later read as the plain map does. |
| `SessionThreads.GetIsLinearised` | apps/portal-web/portal_session.py:86-98 | Under any interleaving of threads, with fresh ids and a clock that does not go back, every get has one moment of its own duration at which the id was in the plain map with clock - created_at <= max_age exactly if the fields are returned. |
| `SessionThreads.EvictionIsInvisible` | apps/portal-web/portal_session.py:94-117 | Looking up, ageing, evicting and cleaning never change what any get can observe from then on. |
| `SessionThreads.SweepSays` | apps/portal-web/portal_session.py:105-117 | A cleanup removes exactly the sessions with now - created_at > max_age at the time it took, and changes no other. |
| `Tables.PageDescribesSlice` | apps/portal-web/table_helpers.py:62-90 | The page is the requested one, clamped; its rows are the items from start_idx to end_idx; has_prev and has_next say what remains; only the last page may be short. |
| `Tables.RowsExactly` | apps/portal-web/table_helpers.py:62-90 | The page size is 20, 50 or 100 as requested, and 20 otherwise; every page but the last has that many rows, and the last what is left. |
| `Tables.PagesMakeTheList` | apps/portal-web/table_helpers.py:62-90 | The pages 1..total_pages, put together, are the list. |
| `Tables.SearchExactly` | apps/portal-web/table_helpers.py:114-131 | A search returns exactly the matching items, each at its place in the given order. |
| `Tables.MatchesExactly` | apps/portal-web/table_helpers.py:114-131 | An item matches exactly if some field contains the query character by character, in any case. |
| `Tables.TableShowsTheSearch` | apps/portal-web/table_helpers.py:177-198 | Paging through a table shows exactly what the search finds, for any query, page and page size. |
| `Stores.BuildStoreRows` | apps/portal-web/hierarchy_projection.py:46-86 | One row per store in the given order, with the last cluster and branch of the id and the number of devices of the store. |
| `Stores.RowSaysStore` | apps/portal-web/hierarchy_projection.py:68-86 | A row has the store's name, code, format and status, and a dash for a missing status and a missing or empty format. |
| `Stores.CountByStore` | apps/portal-web/hierarchy_projection.py:61-66 | The counting loop computes, for every id, the number of devices with it. |
| `Stores.IndexById` | apps/portal-web/hierarchy_projection.py:57-59 | The index maps every id to the last object that has it. |
| `Stores.DevicesAreConserved` | apps/portal-web/hierarchy_projection.py:61-86 | Counts over all rows, devices without a store and devices of unknown stores add up to the number of devices exactly if no device belongs to a store that is listed twice; otherwise to more. |
| `Stores.DistinctStoresConserve` | apps/portal-web/hierarchy_projection.py:68-86 | With distinct store ids they always add up. |

## Left out

- The file system below single operations: durability after a power failure, directories that vanish, and other programs that touch the lock, the log or a temporary file. In particular the pickup of the log by the sidecar and any recovery of a stale lock are not part of this model.
- JSON parsing of arbitrary input: the manifest and the state file are values that have been parsed, or a failure; only the flat records and snapshots that the player writes are parsed back.
- SHA-256 and file sizes are values of a look at a media file; a look is one moment, although the source takes several.
- Case mapping and digits outside ASCII: `lower()` and `\d` are modelled on ASCII letters and digits; strings with lone surrogates, which `encode` refuses, are not modelled.
- Python's bool as int: a JSON `true` where a number is expected counts as a number in the source; the model keeps its numeric value, so a printed duration or order shows the number.
- Rounding of `total_seconds()` and of the sleep's division by 1000: times are whole microseconds and milliseconds. Session times are integers in one unit.
- The age bucket and the echoed stale limit of the gate result, which nothing else reads.
- The seven reasons of the safety decision for the seven stop states, which are one in the model.
- `SessionStore.Store.Create`: asks for an id that has not been used before and a clock that does not go back, because a random token of 32 bytes stands for a fresh one; `SessionThreads` assumes the same.
- Of the daemon: the health file, the pause between cycles (its sleep may raise, which the source ignores) and the argument checks on paths and on the browser name; the branch for an unknown cycle status cannot be reached.
- Of the single cycle: the start-up is one oracle result, and the reason it passes on after an error is one value in the model.
- The loops and the log are composed by `LoopLog` over any assignment of one call to each record; that a loop waits for each call before its next cycle is not used.
- The screen is the snapshot file: when and whether the browser reloads it is not part of this model. A snapshot of another writer is `Other`.
- `FixedTemp.UnharmedCallInstalls`: gives a sufficient condition on whole runs; each single step that harms is characterised exactly, but a file that has been harmed may happen to get the right bytes again.
- In `AtomicWrite` the writer of `runtime_loop.py`, which reports nothing, is not told apart: its calls take the same steps, and leave the temporary file when a step fails. The second close of an already closed descriptor only makes the failure result certain; that the number may belong to another file by then is not modelled.
- Of the tables: parsing of the query parameters, attribute lookup along dotted paths and the echoed template fields; a field's text is given by a function.
- Of the backend objects: values are strings, and a missing key and an explicit null are the same.
- Start-up of the browser, the demo fixture, the `format_*` functions, the result strings, and the screen-state observer: plumbing and text around the cores above.
- HTTP clients, request handlers, templates, login, role tables and the backend's table declarations.
