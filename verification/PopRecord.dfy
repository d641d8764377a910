// pop_writer.py: the record of an event, its line in the log, and the way back.

module PopRecord {
  import opened Events
  import opened Gate
  import opened Json
  import opened Playlist
  import opened Session
  import opened Text
  import Utf8

  datatype Record = Record(
    createdAt: Option<string>,
    durationMs: int,
    endedAt: Option<string>,
    eventStatus: string,
    eventType: string,
    playbackAllowed: bool,
    result: string,
    safetyState: string,
    selectedContentType: Option<string>,
    selectedOrder: Option<int>,
    sessionAction: string,
    sessionReason: string,
    startedAt: Option<string>)

  const SCHEMA_VERSION := 1
  const MAX_LINE_BYTES := 4096

  const EVENT_TYPES: set<string> := {"would_play", "blocked", "not_ready", "error"}
  const EVENT_STATUSES: set<string> := {"draft", "completed"}
  const SESSION_ACTIONS: set<string> := {"play", "hold", "stop"}
  const SESSION_REASONS: set<string> := {"ready", "safety_blocked", "playlist_not_ready", "no_items", "invalid_state"}

  const FORBIDDEN_IN_RECORD: seq<string> := [
    "token", "jwt", "password", "secret", "api_key",
    "private_key", "payment_card", "receipt_data",
    "card_number", "pan", "customer_id", "phone", "email",
    "receipt_number", "fiscal_data",
    "local_path", "file_path",
    "authorization", "bearer",
    "device_secret", "access_token",
    "media_path", "creatives/",
    "backend_base_url", "127.0.0.1", "device_code",
    "filename", "manifest_item_id", "sha256",
    "stacktrace"]

  // ---------------------------------------------------------------- building a record

  predicate CleanText(s: string) { !ContainsAny(Lower(s), FORBIDDEN_IN_RECORD) }

  predicate CleanOption(o: Option<string>) { o.Some? ==> CleanText(o.value) }

  /** The safety scan over all string values of a record. */
  predicate CleanRecord(r: Record) {
    && CleanOption(r.createdAt) && CleanOption(r.endedAt) && CleanOption(r.startedAt)
    && CleanOption(r.selectedContentType)
    && CleanText(r.eventStatus) && CleanText(r.eventType) && CleanText(r.result) && CleanText(r.safetyState)
    && CleanText(r.sessionAction) && CleanText(r.sessionReason)
  }

  /** `x if x else None` on an optional string. */
  function NonEmpty(o: Option<string>): Option<string> {
    if o == Some("") then None else o
  }

  /** build_pop_jsonl_record. */
  function BuildRecord(e: Event, safety: Option<string>): Option<Record> {
    if e.eventType !in EVENT_TYPES || e.eventStatus !in EVENT_STATUSES || safety.None? then None
    else
      var state := Lower(Strip(safety.value));
      if state !in KNOWN_STATES || e.sessionAction !in SESSION_ACTIONS || e.sessionReason !in SESSION_REASONS then None
      else
        var duration :=
          if e.selectedDurationMs.Some? && e.selectedDurationMs.value >= 0 then e.selectedDurationMs.value else 0;
        var r := Record(e.createdAt, duration, NonEmpty(e.wouldEndAt), e.eventStatus, e.eventType, e.playbackAllowed,
                        e.eventType, state, e.selectedContentType, e.selectedOrder,
                        e.sessionAction, e.sessionReason, NonEmpty(e.startedAt));
        if CleanRecord(r) then Some(r) else None
  }

  // ---------------------------------------------------------------- a record as a line

  function OptStr(o: Option<string>): Value { if o.Some? then Str(o.value) else Null }

  function OptInt(o: Option<int>): Value { if o.Some? then Int(o.value) else Null }

  /** The record with its keys sorted. */
  function ToValue(r: Record): Value {
    Obj([Field("created_at", OptStr(r.createdAt)),
         Field("duration_ms", Int(r.durationMs)),
         Field("ended_at", OptStr(r.endedAt)),
         Field("event_status", Str(r.eventStatus)),
         Field("event_type", Str(r.eventType)),
         Field("playback_allowed", Bool(r.playbackAllowed)),
         Field("result", Str(r.result)),
         Field("safety_state", Str(r.safetyState)),
         Field("schema_version", Int(SCHEMA_VERSION)),
         Field("selected_content_type", OptStr(r.selectedContentType)),
         Field("selected_order", OptInt(r.selectedOrder)),
         Field("session_action", Str(r.sessionAction)),
         Field("session_reason", Str(r.sessionReason)),
         Field("started_at", OptStr(r.startedAt))])
  }

  function ReadOptStr(v: Value): Option<string> { if v.Str? then Some(v.s) else None }

  function ReadOptInt(v: Value): Option<int> { if v.Int? then Some(v.n) else None }

  function ReadText(v: Value): string { if v.Str? then v.s else "" }

  /** The record that an object with exactly these members stands for. */
  function FromValue(v: Value): Option<Record> {
    if !v.Obj? || |v.fields| != 14 || !v.fields[1].value.Int? || !v.fields[5].value.Bool? then None
    else
      var f := v.fields;
      var r := Record(ReadOptStr(f[0].value), f[1].value.n, ReadOptStr(f[2].value), ReadText(f[3].value),
                      ReadText(f[4].value), f[5].value.b, ReadText(f[6].value), ReadText(f[7].value),
                      ReadOptStr(f[9].value), ReadOptInt(f[10].value), ReadText(f[11].value),
                      ReadText(f[12].value), ReadOptStr(f[13].value));
      if ToValue(r) == v then Some(r) else None
  }

  /** json.dumps(record, ensure_ascii=False, sort_keys=True). */
  function RecordText(r: Record): string { Encode(ToValue(r), LINE_STYLE) }

  /** The bytes of the line without its newline. */
  function LineBody(r: Record): seq<Utf8.Byte> { Utf8.Encode(RecordText(r)) }

  /** (record_json + "\n").encode("utf-8"). */
  function LineBytes(r: Record): seq<Utf8.Byte> { Utf8.Encode(RecordText(r) + "\n") }

  /** Reading one line of the log. */
  function DecodeLine(bytes: seq<Utf8.Byte>): Option<Record> {
    match Utf8.Decode(bytes)
    case None => None
    case Some(text) =>
      match ReadValue(text)
      case None => None
      case Some((v, rest)) => if SkipBlanks(rest) == "" then FromValue(v) else None
  }

  lemma FromToValue(r: Record)
    ensures FromValue(ToValue(r)) == Some(r)
  {
  }

  /** A line is a body without newline bytes, closed by the one newline. */
  lemma LineShape(r: Record)
    ensures LineBytes(r) == LineBody(r) + [Utf8.NEWLINE]
    ensures Utf8.NEWLINE !in LineBody(r)
  {
    EncodeNoControl(ToValue(r), LINE_STYLE);
    Utf8.NoNewline(RecordText(r));
    Utf8.EncodeConcat(RecordText(r), "\n");
    assert "\n"[1..] == "";
  }

  /** Decoding the line of a record gives the record back, for arbitrary field contents. */
  lemma LineRoundTrip(r: Record)
    ensures DecodeLine(LineBody(r)) == Some(r)
  {
    Utf8.RoundTrip(RecordText(r));
    ValueRoundTrip(ToValue(r), LINE_STYLE, "");
    assert RecordText(r) + "" == RecordText(r);
    FromToValue(r);
  }

  // ---------------------------------------------------------------- write_pop_event, up to the lock

  datatype WriteStatus = WasWritten | WasSkipped | WasError

  datatype WriteReason = ReasonWritten | InvalidEvent | UnsafeRecord | WriteFailed | LockUnavailable

  datatype Preparation = Rejected(status: WriteStatus, reason: WriteReason) | Prepared(record: Record)

  /** The checks of write_pop_event before it touches the file system. */
  function Prepare(e: Event, safety: Option<string>): Preparation {
    match BuildRecord(e, safety)
    case None =>
      if safety.None? || safety.value !in KNOWN_STATES then Rejected(WasSkipped, UnsafeRecord)
      else Rejected(WasError, InvalidEvent)
    case Some(r) =>
      if |LineBytes(r)| > MAX_LINE_BYTES then Rejected(WasSkipped, UnsafeRecord) else Prepared(r)
  }

  /** What every record that reaches the log satisfies. */
  predicate Admissible(r: Record) {
    && |LineBytes(r)| <= MAX_LINE_BYTES && CleanRecord(r)
    && r.eventType in EVENT_TYPES && r.eventStatus in EVENT_STATUSES && r.safetyState in KNOWN_STATES
    && r.sessionAction in SESSION_ACTIONS && r.sessionReason in SESSION_REASONS
    && r.result == r.eventType && r.durationMs >= 0
  }

  lemma PreparedIsAdmissible(e: Event, safety: Option<string>)
    requires Prepare(e, safety).Prepared?
    ensures Admissible(Prepare(e, safety).record)
  {
  }

  /**
   * In every record of the player's chain (playlist, safety, simulation, event, record) the event
   * is would_play or blocked; would_play, playback_allowed, session_action play and a selected
   * order come together, exactly for the idle state and a ready playlist; and the order is the
   * minimum of the playlist built for the record.
   */
  lemma ChainRecord(playlist: PlayerPlaylist, state: string, completed: bool, started: string, created: string)
    requires WellBuilt(playlist) && EventFor(playlist, state, completed, started, created).Got?
    requires Prepare(EventFor(playlist, state, completed, started, created).value, Some(state)).Prepared?
    ensures
      var r := Prepare(EventFor(playlist, state, completed, started, created).value, Some(state)).record;
      var plays := r.safetyState == "idle" && playlist.ready;
      && (r.eventType == "would_play" || r.eventType == "blocked")
      && r.eventStatus == (if completed then "completed" else "draft")
      && (r.eventType == "would_play" <==> plays) && (r.playbackAllowed <==> plays)
      && (r.sessionAction == "play" <==> plays) && (r.selectedOrder.Some? <==> plays)
      && (plays ==>
            && r.selectedOrder == Some(Sort(playlist.items)[0].order)
            && forall i | 0 <= i < |playlist.items| :: r.selectedOrder.value <= playlist.items[i].order)
  {
    EventAgrees(playlist, state, completed, started, created);
    if playlist.ready {
      var k := HeadIsFirstMinimum(playlist.items);
    }
  }

  /** Why an event does not get to the lock. */
  lemma RejectedExactly(e: Event, safety: Option<string>)
    ensures
      var p := Prepare(e, safety);
      var known := safety.Some? && safety.value in KNOWN_STATES;
      && (p.Prepared? <==> BuildRecord(e, safety).Some? && |LineBytes(BuildRecord(e, safety).value)| <= 4096)
      && (p.Prepared? ==> p.record == BuildRecord(e, safety).value)
      && (p == Rejected(WasError, InvalidEvent) <==> BuildRecord(e, safety).None? && known)
      && (p == Rejected(WasSkipped, UnsafeRecord) <==>
            (BuildRecord(e, safety).None? && !known)
            || (BuildRecord(e, safety).Some? && |LineBytes(BuildRecord(e, safety).value)| > 4096))
  {
  }

  /** Which events have a record at all, and the record of each. */
  lemma BuildRecordExactly(e: Event, safety: Option<string>)
    ensures BuildRecord(e, safety).Some? ==>
      var r := BuildRecord(e, safety).value;
      && r.eventType == e.eventType && r.result == e.eventType && r.eventStatus == e.eventStatus
      && r.safetyState == Lower(Strip(safety.value)) && r.playbackAllowed == e.playbackAllowed
      && r.sessionAction == e.sessionAction && r.sessionReason == e.sessionReason
      && r.createdAt == e.createdAt && r.selectedOrder == e.selectedOrder
      && r.selectedContentType == e.selectedContentType
      && (r.startedAt.Some? ==> r.startedAt == e.startedAt && r.startedAt.value != "")
      && (r.startedAt.None? ==> e.startedAt.None? || e.startedAt.value == "")
      && (r.endedAt.Some? ==> r.endedAt == e.wouldEndAt && r.endedAt.value != "")
      && (r.endedAt.None? ==> e.wouldEndAt.None? || e.wouldEndAt.value == "")
      && (e.selectedDurationMs.Some? && e.selectedDurationMs.value >= 0 ==> r.durationMs == e.selectedDurationMs.value)
      && (e.selectedDurationMs.None? || e.selectedDurationMs.value < 0 ==> r.durationMs == 0)
    ensures BuildRecord(e, safety).Some? ==>
      && safety.Some? && IsKnown(Lower(Strip(safety.value)))
      && e.eventType in {"would_play", "blocked", "not_ready", "error"} && e.eventStatus in {"draft", "completed"}
      && e.sessionAction in {"play", "hold", "stop"}
      && e.sessionReason in {"ready", "safety_blocked", "playlist_not_ready", "no_items", "invalid_state"}
  {
    if safety.Some? {
      KnownExactly(Lower(Strip(safety.value)));
    }
  }
}
