// simulator.py and events.py: from a session decision to the event that may be recorded.

module Events {
  import opened Calendar
  import opened Gate
  import opened Playlist
  import opened Session
  import opened Text
  import opened Timestamp

  datatype SimStatus = SimWouldPlay | SimBlocked | SimNotReady | SimError

  datatype Simulation = Simulation(
    status: SimStatus,
    action: Action,
    reason: SessionReason,
    selectedOrder: Option<int>,
    selectedContentType: Option<string>,
    selectedDurationMs: Option<int>,
    startedAt: Option<string>,
    wouldEndAt: Option<string>)

  /** PlaybackEventDraft: its enumerations are strings, which a caller may set to anything. */
  datatype Event = Event(
    eventType: string,
    eventStatus: string,
    playbackAllowed: bool,
    sessionAction: string,
    sessionReason: string,
    selectedOrder: Option<int>,
    selectedContentType: Option<string>,
    selectedDurationMs: Option<int>,
    startedAt: Option<string>,
    wouldEndAt: Option<string>,
    createdAt: Option<string>)

  function ActionName(a: Action): string {
    match a
    case Play => "play"
    case Hold => "hold"
    case Stop => "stop"
  }

  function ReasonName(r: SessionReason): string {
    match r
    case SessionReady => "ready"
    case SafetyBlocked => "safety_blocked"
    case SessionPlaylistNotReady => "playlist_not_ready"
    case NoItems => "no_items"
    case InvalidSessionState => "invalid_state"
  }

  function StatusName(s: SimStatus): string {
    match s
    case SimWouldPlay => "would_play"
    case SimBlocked => "blocked"
    case SimNotReady => "not_ready"
    case SimError => "error"
  }

  /** _iso_add_ms: an unreadable timestamp is returned unchanged; past year 9999 the addition raises. */
  function IsoAddMs(iso: string, ms: int): Read<string>
    requires ms >= 0
  {
    match Parse(iso)
    case None => Got(iso)
    case Some(t) =>
      match AddMs(t, ms)
      case None => Raises
      case Some(end) => Got(Print(end))
  }

  /** simulate_playback_step at the timestamp now. */
  function Simulate(playlist: PlayerPlaylist, safety: SafetyDecision, state: Option<SessionState>,
                    now: string): Read<Simulation> {
    var session := SelectNext(playlist, safety, state);
    if session.action == Play && session.selected.Some? then
      var item := session.selected.value;
      var end := if item.durationMs > 0 then IsoAddMs(now, item.durationMs) else Got(now);
      match end
      case Raises => Raises
      case Got(endAt) =>
        Got(Simulation(SimWouldPlay, Play, session.reason, Some(item.order), Some(item.contentType),
                       Some(item.durationMs), Some(now), Some(endAt)))
    else
      var status :=
        if session.reason == SafetyBlocked || session.reason == NoItems || session.reason == InvalidSessionState
        then SimBlocked
        else if session.reason == SessionPlaylistNotReady then SimNotReady
        else SimError;
      Got(Simulation(status, session.action, session.reason, None, None, None, None, None))
  }

  /** build_playback_event_draft and build_playback_event_completed, called without a safety decision. */
  function BuildEvent(sim: Simulation, completed: bool, now: string): Event {
    Event(StatusName(sim.status), if completed then "completed" else "draft", sim.status == SimWouldPlay,
          ActionName(sim.action), ReasonName(sim.reason), sim.selectedOrder, sim.selectedContentType,
          sim.selectedDurationMs, sim.startedAt, sim.wouldEndAt, Some(now))
  }

  /**
   * The player's way to an event: playlist, safety, simulation without session state, event.
   * started and created are the two clock readings it takes on the way.
   */
  function EventFor(playlist: PlayerPlaylist, state: string, completed: bool, started: string,
                    created: string): Read<Event> {
    match Simulate(playlist, DecideSafety(Some(state), Some(playlist)), None, started)
    case Raises => Raises
    case Got(sim) => Got(BuildEvent(sim, completed, created))
  }

  /** The event types and session actions have distinct names. */
  lemma NamesDiffer()
    ensures "would_play" != "blocked" && "play" != "hold" && "play" != "stop"
    ensures StatusName(SimWouldPlay) == "would_play" && ActionName(Play) == "play"
  {
    assert |"would_play"| == 10 && |"blocked"| == 7;
    assert "play"[0] == 'p' && "hold"[0] == 'h' && "stop"[0] == 's';
  }

  /**
   * Every event of the chain is would_play or blocked, and its fields agree: it says would_play
   * exactly when playback is allowed, the action is play and an item is selected; exactly then
   * the state was idle and the playlist ready; and the item is the first of minimal order.
   */
  lemma EventAgrees(playlist: PlayerPlaylist, state: string, completed: bool, started: string, created: string)
    requires WellBuilt(playlist)
    requires EventFor(playlist, state, completed, started, created).Got?
    ensures
      var e := EventFor(playlist, state, completed, started, created).value;
      var plays := Lower(Strip(state)) == "idle" && playlist.ready;
      && (e.eventType == "would_play" || e.eventType == "blocked")
      && (e.eventType == "would_play" <==> plays)
      && (e.playbackAllowed <==> plays)
      && (e.sessionAction == "play" <==> plays)
      && (e.selectedOrder.Some? <==> plays)
      && (e.startedAt.Some? <==> plays) && (e.wouldEndAt.Some? <==> plays)
      && (plays ==>
            && playlist.items != []
            && exists k: nat ::
                 && FirstMinimum(playlist.items, k)
                 && e.selectedOrder == Some(playlist.items[k].order)
                 && e.selectedContentType == Some(playlist.items[k].contentType)
                 && e.selectedDurationMs == Some(playlist.items[k].durationMs))
  {
    NamesDiffer();
    SafetyAllowsExactly(Some(state), Some(playlist));
    if playlist.ready {
      var k := HeadIsFirstMinimum(playlist.items);
    }
  }

  lemma ParseUtc(t: DateTime)
    requires Valid(t)
    ensures Parse(Print(t) + "+00:00") == Some(t) && Parse(Print(t)) == Some(t)
  {
    ParseUndoesPrint(t, "+00:00");
  }

  /** Adding to a printed UTC timestamp and parsing the result adds exactly that many milliseconds. */
  lemma IsoAddMsIsExact(t: DateTime, ms: int)
    requires Valid(t) && ms >= 0
    ensures Parse(Print(t) + "+00:00") == Some(t)
    ensures AddMs(t, ms).None? ==> IsoAddMs(Print(t) + "+00:00", ms) == Raises
    ensures AddMs(t, ms).Some? ==>
      && IsoAddMs(Print(t) + "+00:00", ms).Got?
      && Parse(IsoAddMs(Print(t) + "+00:00", ms).value).Some?
      && Micros(Parse(IsoAddMs(Print(t) + "+00:00", ms).value).value) == Micros(t) + 1000 * ms
  {
    ParseUtc(t);
    if AddMs(t, ms).Some? {
      ParseUtc(AddMs(t, ms).value);
    }
  }

  /** A play event spans the interval from its start to what the addition of the item's duration gives. */
  lemma PlayedInterval(playlist: PlayerPlaylist, state: string, completed: bool, started: string, created: string)
    requires WellBuilt(playlist) && playlist.ready && Lower(Strip(state)) == "idle"
    ensures
      var item := Sort(playlist.items)[0];
      var end := if item.durationMs > 0 then IsoAddMs(started, item.durationMs) else Got(started);
      match EventFor(playlist, state, completed, started, created)
      case Raises => end.Raises?
      case Got(e) =>
        end.Got? && e.startedAt == Some(started) && e.wouldEndAt == Some(end.value)
        && e.selectedDurationMs == Some(item.durationMs)
  {
    SafetyAllowsExactly(Some(state), Some(playlist));
    var k := HeadIsFirstMinimum(playlist.items);
  }

  /**
   * The recorded interval is as long as the item: with a printed UTC start, parsed would_end_at
   * minus parsed started_at is the duration; only an end after year 9999 raises instead.
   */
  lemma IntervalIsDuration(playlist: PlayerPlaylist, state: string, completed: bool, t: DateTime, created: string)
    requires WellBuilt(playlist) && playlist.ready && Lower(Strip(state)) == "idle" && Valid(t)
    ensures
      match EventFor(playlist, state, completed, Print(t) + "+00:00", created)
      case Raises => AddMs(t, Sort(playlist.items)[0].durationMs).None?
      case Got(e) =>
        && e.startedAt.Some? && e.wouldEndAt.Some? && e.selectedDurationMs.Some?
        && Parse(e.startedAt.value) == Some(t)
        && Parse(e.wouldEndAt.value).Some?
        && Micros(Parse(e.wouldEndAt.value).value) - Micros(t) == 1000 * e.selectedDurationMs.value
  {
    var k := HeadIsFirstMinimum(playlist.items);
    var ms := Sort(playlist.items)[0].durationMs;
    IsoAddMsIsExact(t, ms);
    PlayedInterval(playlist, state, completed, Print(t) + "+00:00", created);
  }

  /** The names that appear in records. */
  lemma NamesAre()
    ensures ActionName(Play) == "play" && ActionName(Hold) == "hold" && ActionName(Stop) == "stop"
    ensures ReasonName(SessionReady) == "ready" && ReasonName(SafetyBlocked) == "safety_blocked"
    ensures ReasonName(SessionPlaylistNotReady) == "playlist_not_ready" && ReasonName(NoItems) == "no_items"
    ensures ReasonName(InvalidSessionState) == "invalid_state"
    ensures StatusName(SimWouldPlay) == "would_play" && StatusName(SimBlocked) == "blocked"
    ensures StatusName(SimNotReady) == "not_ready" && StatusName(SimError) == "error"
  {
  }

  /** What a simulation without a played item says, whatever the caller's state was. */
  lemma SimulationSays(playlist: PlayerPlaylist, safety: SafetyDecision, state: Option<SessionState>, now: string)
    requires SelectNext(playlist, safety, state).action != Play
    ensures Simulate(playlist, safety, state, now).Got?
    ensures
      var d, sim := SelectNext(playlist, safety, state), Simulate(playlist, safety, state, now).value;
      && sim.action == d.action && sim.reason == d.reason && sim.selectedOrder.None? && sim.startedAt.None?
      && (sim.status == SimNotReady <==> d.reason == SessionPlaylistNotReady)
      && (sim.status == SimBlocked <==>
            d.reason == SafetyBlocked || d.reason == NoItems || d.reason == InvalidSessionState)
      && sim.status != SimWouldPlay
  {
  }

  /** The end of an interval: the start itself if it cannot be read, and none past year 9999. */
  lemma EndSays(iso: string, ms: int)
    requires ms >= 0
    ensures Parse(iso).None? ==> IsoAddMs(iso, ms) == Got(iso)
    ensures IsoAddMs(iso, ms).Raises? <==> Parse(iso).Some? && AddMs(Parse(iso).value, ms).None?
  {
  }
}
