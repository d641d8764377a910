// display_cycle.py: when a record claims playback although the second gate reading did not say play.

module FalseClaims {
  import opened Cycle
  import opened Gate
  import opened Pipeline
  import opened Playlist
  import opened RecordWords
  import opened Recordable
  import opened Runtime
  import opened Text
  import opened Timestamp
  import Calendar

  /** A display, with its second gate reading made on this file at this time. */
  function DisplayAt(staleSeconds: int, plan: RenderPlan, confirm: bool, file: StateFile, now: int,
                     playlist: Read<PlayerPlaylist>, completed: bool, started: string, created: string,
                     io: IoOutcome): DisplayResult {
    DisplayOnce(staleSeconds, plan, confirm, Evaluate(file, staleSeconds, now), playlist, completed,
                started, created, io)
  }

  /** The display appended a record that says that playback was allowed. */
  predicate Claims(d: DisplayResult) { d.record.Some? && d.record.value.playbackAllowed }

  /** The chain has a record that claims playback, if the state is idle. */
  predicate CanClaim(playlist: Read<PlayerPlaylist>, completed: bool, started: string, created: string)
    requires RealPlaylist(playlist)
  {
    playlist.Got? && playlist.value.ready && PlayFits(playlist.value, completed, started, created)
  }

  lemma ChainClaimsExactly(playlist: PlayerPlaylist, completed: bool, started: string, created: string)
    requires WellBuilt(playlist)
    ensures
      var r := ChainFor(playlist, completed, started, created);
      r.Some? && r.value.playbackAllowed <==> CanClaim(Got(playlist), completed, started, created)
  {
    if playlist.ready {
      PlayIsRecordedExactly(playlist, completed, started, created);
    } else {
      BlockedIsRecordedExactly(playlist, completed, started, created);
    }
  }

  /** When a display claims playback: the verdict of the gate does not matter, only the file's state does. */
  lemma ClaimsExactly(staleSeconds: int, plan: RenderPlan, confirm: bool, file: StateFile, now: int,
                      playlist: Read<PlayerPlaylist>, completed: bool, started: string, created: string, io: IoOutcome)
    requires RealPlaylist(playlist)
    ensures Claims(DisplayAt(staleSeconds, plan, confirm, file, now, playlist, completed, started, created, io)) <==>
      && staleSeconds > 0 && plan.render && confirm && io.IoWritten?
      && NamesIdle(file) && CanClaim(playlist, completed, started, created)
  {
    if staleSeconds > 0 {
      var gate := Evaluate(file, staleSeconds, now);
      StateIsIdleExactly(file, staleSeconds, now);
      DisplayRecordExactly(staleSeconds, plan, confirm, gate, playlist, completed, started, created, io);
      if plan.render && confirm && NamesIdle(file) && playlist.Got? {
        DisplayRecordsTheChain(staleSeconds, plan, gate, playlist.value, completed, started, created, io);
        ChainClaimsExactly(playlist.value, completed, started, created);
      }
    }
  }

  /**
   * So a record claims playback against the verdict of the second gate reading exactly if the file
   * names the idle state and the time is not in the window of its timestamp, or there is none.
   */
  lemma FalseClaimExactly(
    staleSeconds: int, plan: RenderPlan, confirm: bool, file: StateFile, now: int,
    playlist: Read<PlayerPlaylist>, completed: bool, started: string, created: string, io: IoOutcome)
    requires RealPlaylist(playlist)
    ensures
      var d := DisplayAt(staleSeconds, plan, confirm, file, now, playlist, completed, started, created, io);
      Claims(d) && !PlaysAt(file, staleSeconds, now) <==>
        && staleSeconds > 0 && plan.render && confirm && io.IoWritten?
        && NamesIdle(file) && !InWindow(file, staleSeconds, now)
        && CanClaim(playlist, completed, started, created)
  {
    ClaimsExactly(staleSeconds, plan, confirm, file, now, playlist, completed, started, created, io);
    PlayWindow(file, staleSeconds, now);
  }

  /** A ready playlist with a first item of the KSO format can be claimed. */
  lemma SafeHeadCanClaim(playlist: PlayerPlaylist, completed: bool, t: DateTime, created: string, v: DateTime)
    requires WellBuilt(playlist) && playlist.ready && playlist.items != [] && RecordableItem(Head(playlist))
    requires Valid(t) && Calendar.AddMs(t, Head(playlist).durationMs).Some? && Stamp(created, v)
    ensures CanClaim(Got(playlist), completed, Print(t) + "+00:00", created)
  {
    SafeHeadIsRecorded(playlist, completed, t, created, v);
    ChainClaimsExactly(playlist, completed, Print(t) + "+00:00", created);
  }

  /** One way to get there: the file goes stale between the two gate readings. */
  lemma StaleIsOutside(file: StateFile, staleSeconds: int, updated: int, now: int)
    requires IdleSince(file, updated) && now >= updated + (staleSeconds + 1) * 1000000
    ensures NamesIdle(file) && !InWindow(file, staleSeconds, now)
  {
  }

  /** Another: it is stamped in the future, by a clock that was set back. */
  lemma FutureIsOutside(file: StateFile, staleSeconds: int, updated: int, now: int)
    requires IdleSince(file, updated) && now < updated
    ensures NamesIdle(file) && !InWindow(file, staleSeconds, now)
  {
  }

  /** A third: it has no timestamp that can be read. */
  lemma UnstampedIsOutside(file: StateFile, staleSeconds: int, now: int)
    requires NamesIdle(file) && UpdatedAt(file.raw.m).None?
    ensures !InWindow(file, staleSeconds, now)
  {
  }
}
