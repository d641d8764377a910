// What a reader of a line finds under each key.

module RecordFields {
  import opened Json
  import opened JsonLookup
  import opened Playlist
  import opened PopRecord
  import opened Recordable
  import opened Text
  import Utf8

  /** The object of one line of the log. */
  function ReadLine(bytes: seq<Utf8.Byte>): Option<Value> {
    match Utf8.Decode(bytes)
    case None => None
    case Some(text) => ReadObject(text)
  }

  /** The line is an object that has this text, number or truth value under the key. */
  predicate SaysText(line: seq<Utf8.Byte>, key: string, s: string) {
    ReadLine(line).Some? && Lookup(ReadLine(line).value, key) == Some(Str(s))
  }

  predicate SaysNumber(line: seq<Utf8.Byte>, key: string, n: int) {
    ReadLine(line).Some? && Lookup(ReadLine(line).value, key) == Some(Int(n))
  }

  predicate SaysTruth(line: seq<Utf8.Byte>, key: string, b: bool) {
    ReadLine(line).Some? && Lookup(ReadLine(line).value, key) == Some(Bool(b))
  }

  predicate SaysNull(line: seq<Utf8.Byte>, key: string) {
    ReadLine(line).Some? && Lookup(ReadLine(line).value, key) == Some(Null)
  }

  predicate SaysTextOrNull(line: seq<Utf8.Byte>, key: string, o: Option<string>) {
    if o.Some? then SaysText(line, key, o.value) else SaysNull(line, key)
  }

  predicate SaysNumberOrNull(line: seq<Utf8.Byte>, key: string, o: Option<int>) {
    if o.Some? then SaysNumber(line, key, o.value) else SaysNull(line, key)
  }

  lemma EarlyKeys()
    ensures Less("created_at", "duration_ms")
    ensures Less("duration_ms", "ended_at")
    ensures Less("ended_at", "event_status")
  {
    LessAt("created_at", "duration_ms", 0);
    LessAt("duration_ms", "ended_at", 0);
    assert "ended_at"[..1] == "event_status"[..1];
    LessAt("ended_at", "event_status", 1);
  }

  lemma EventKeys()
    ensures Less("event_status", "event_type")
  {
    assert "event_status"[..6] == "event_type"[..6];
    LessAt("event_status", "event_type", 6);
  }

  lemma MiddleKeys()
    ensures Less("event_type", "playback_allowed")
    ensures Less("playback_allowed", "result")
    ensures Less("result", "safety_state")
  {
    LessAt("event_type", "playback_allowed", 0);
    LessAt("playback_allowed", "result", 0);
    LessAt("result", "safety_state", 0);
  }

  lemma StateKeys()
    ensures Less("safety_state", "schema_version")
    ensures Less("schema_version", "selected_content_type")
  {
    assert "safety_state"[..1] == "schema_version"[..1];
    LessAt("safety_state", "schema_version", 1);
    assert "schema_version"[..1] == "selected_content_type"[..1];
    LessAt("schema_version", "selected_content_type", 1);
  }

  lemma SelectedKeys()
    ensures Less("selected_content_type", "selected_order")
  {
    assert "selected_content_type"[..9] == "selected_order"[..9];
    LessAt("selected_content_type", "selected_order", 9);
  }

  lemma ActionKeys()
    ensures Less("selected_order", "session_action")
  {
    assert "selected_order"[..2] == "session_action"[..2];
    LessAt("selected_order", "session_action", 2);
  }

  lemma SessionKeys()
    ensures Less("session_action", "session_reason")
    ensures Less("session_reason", "started_at")
  {
    assert "session_action"[..8] == "session_reason"[..8];
    LessAt("session_action", "session_reason", 8);
    assert "session_reason"[..1] == "started_at"[..1];
    LessAt("session_reason", "started_at", 1);
  }

  lemma KeyAt(before: (string, string) -> bool, r: Record, i: nat)
    requires i < 13
    requires before("created_at", "duration_ms") && before("duration_ms", "ended_at")
    requires before("ended_at", "event_status") && before("event_status", "event_type")
    requires before("event_type", "playback_allowed") && before("playback_allowed", "result")
    requires before("result", "safety_state") && before("safety_state", "schema_version")
    requires before("schema_version", "selected_content_type") && before("selected_content_type", "selected_order")
    requires before("selected_order", "session_action") && before("session_action", "session_reason")
    requires before("session_reason", "started_at")
    ensures before(ToValue(r).fields[i].key, ToValue(r).fields[i + 1].key)
  {
  }

  lemma KeysAreSorted(r: Record)
    ensures KeysSorted(ToValue(r))
  {
    EarlyKeys();
    EventKeys();
    MiddleKeys();
    StateKeys();
    SelectedKeys();
    ActionKeys();
    SessionKeys();
    forall i | 0 <= i < 13 ensures Less(ToValue(r).fields[i].key, ToValue(r).fields[i + 1].key) {
      KeyAt(Less, r, i);
    }
  }

  lemma LineIsRead(r: Record)
    ensures ReadLine(LineBody(r)) == Some(ToValue(r))
  {
    Utf8.RoundTrip(RecordText(r));
    ReadsPrinted(ToValue(r), LINE_STYLE);
  }

  /** A line is an object of fourteen members with strictly sorted keys. */
  lemma LineIsSorted(r: Record)
    ensures ReadLine(LineBody(r)).Some? && KeysSorted(ReadLine(LineBody(r)).value)
    ensures |ReadLine(LineBody(r)).value.fields| == 14
  {
    LineIsRead(r);
    KeysAreSorted(r);
  }

  /** The times and the duration of a line. */
  lemma LineSaysWhen(r: Record)
    ensures SaysTextOrNull(LineBody(r), "created_at", r.createdAt)
    ensures SaysTextOrNull(LineBody(r), "started_at", r.startedAt)
    ensures SaysTextOrNull(LineBody(r), "ended_at", r.endedAt)
    ensures SaysNumber(LineBody(r), "duration_ms", r.durationMs)
  {
    LineIsRead(r);
    KeysAreSorted(r);
    FoundAt(ToValue(r), 0);
    FoundAt(ToValue(r), 1);
    FoundAt(ToValue(r), 2);
    FoundAt(ToValue(r), 13);
  }

  /** The event of a line. */
  lemma LineSaysWhat(r: Record)
    ensures SaysText(LineBody(r), "event_status", r.eventStatus) && SaysText(LineBody(r), "event_type", r.eventType)
    ensures SaysText(LineBody(r), "result", r.result)
    ensures SaysTruth(LineBody(r), "playback_allowed", r.playbackAllowed)
    ensures SaysNumber(LineBody(r), "schema_version", 1)
  {
    LineIsRead(r);
    KeysAreSorted(r);
    FoundAt(ToValue(r), 3);
    FoundAt(ToValue(r), 4);
    FoundAt(ToValue(r), 5);
    FoundAt(ToValue(r), 6);
    FoundAt(ToValue(r), 8);
  }

  /** The item of a line, and why it was chosen. */
  lemma LineSaysWhich(r: Record)
    ensures SaysTextOrNull(LineBody(r), "selected_content_type", r.selectedContentType)
    ensures SaysNumberOrNull(LineBody(r), "selected_order", r.selectedOrder)
    ensures SaysText(LineBody(r), "safety_state", r.safetyState)
    ensures SaysText(LineBody(r), "session_action", r.sessionAction)
    ensures SaysText(LineBody(r), "session_reason", r.sessionReason)
  {
    LineIsRead(r);
    KeysAreSorted(r);
    FoundAt(ToValue(r), 7);
    FoundAt(ToValue(r), 9);
    FoundAt(ToValue(r), 10);
    FoundAt(ToValue(r), 11);
    FoundAt(ToValue(r), 12);
  }

  predicate SaysTime(line: seq<Utf8.Byte>, key: string, time: string) {
    if time == "" then SaysNull(line, key) else SaysText(line, key, time)
  }

  /**
   * The line that the chain appends for the idle state and a ready playlist, key by key: it tells
   * the first item, its duration, when its display started and ends, and that playback was allowed.
   */
  lemma PlayLineSays(playlist: PlayerPlaylist, completed: bool, started: string, created: string)
    requires WellBuilt(playlist) && playlist.ready && ChainFor(playlist, completed, started, created).Some?
    ensures playlist.items != [] && Head(playlist).durationMs >= 0 && EndOf(Head(playlist), started).Got?
    ensures
      var line, item := LineBody(ChainFor(playlist, completed, started, created).value), Head(playlist);
      && SaysText(line, "created_at", created) && SaysTime(line, "started_at", started)
      && SaysTime(line, "ended_at", EndOf(item, started).value) && SaysNumber(line, "duration_ms", item.durationMs)
      && SaysNumber(line, "selected_order", item.order) && SaysText(line, "selected_content_type", item.contentType)
    ensures
      var line := LineBody(ChainFor(playlist, completed, started, created).value);
      && SaysText(line, "event_type", "would_play") && SaysText(line, "result", "would_play")
      && SaysText(line, "event_status", if completed then "completed" else "draft")
      && SaysTruth(line, "playback_allowed", true) && SaysText(line, "safety_state", "idle")
      && SaysText(line, "session_action", "play") && SaysText(line, "session_reason", "ready")
      && SaysNumber(line, "schema_version", 1)
  {
    PlayIsRecordedExactly(playlist, completed, started, created);
    RecordOfPlaySays(Head(playlist), completed, started, EndOf(Head(playlist), started).value, created);
  }

  lemma RecordOfPlaySays(item: Item, completed: bool, started: string, end: string, created: string)
    ensures
      var line := LineBody(PlayRecord(item, completed, started, end, created));
      && SaysText(line, "created_at", created) && SaysTime(line, "started_at", started)
      && SaysTime(line, "ended_at", end) && SaysNumber(line, "duration_ms", item.durationMs)
      && SaysNumber(line, "selected_order", item.order) && SaysText(line, "selected_content_type", item.contentType)
    ensures
      var line := LineBody(PlayRecord(item, completed, started, end, created));
      && SaysText(line, "event_type", "would_play") && SaysText(line, "result", "would_play")
      && SaysText(line, "event_status", if completed then "completed" else "draft")
      && SaysTruth(line, "playback_allowed", true) && SaysText(line, "safety_state", "idle")
      && SaysText(line, "session_action", "play") && SaysText(line, "session_reason", "ready")
      && SaysNumber(line, "schema_version", 1)
  {
    var r := PlayRecord(item, completed, started, end, created);
    LineSaysWhen(r);
    LineSaysWhat(r);
    LineSaysWhich(r);
  }

  /** And the line for a playlist that is not ready: it tells no item, and that playback was not allowed. */
  lemma BlockedLineSays(playlist: PlayerPlaylist, completed: bool, started: string, created: string)
    requires !playlist.ready && ChainFor(playlist, completed, started, created).Some?
    ensures
      var line := LineBody(ChainFor(playlist, completed, started, created).value);
      && SaysText(line, "created_at", created) && SaysNull(line, "started_at") && SaysNull(line, "ended_at")
      && SaysNumber(line, "duration_ms", 0) && SaysNull(line, "selected_order")
      && SaysNull(line, "selected_content_type")
    ensures
      var line := LineBody(ChainFor(playlist, completed, started, created).value);
      && SaysText(line, "event_type", "blocked") && SaysText(line, "result", "blocked")
      && SaysText(line, "event_status", if completed then "completed" else "draft")
      && SaysTruth(line, "playback_allowed", false) && SaysText(line, "safety_state", "idle")
      && SaysText(line, "session_action", "stop") && SaysText(line, "session_reason", "safety_blocked")
      && SaysNumber(line, "schema_version", 1)
  {
    BlockedIsRecordedExactly(playlist, completed, started, created);
    var r := BlockedRecord(completed, created);
    LineSaysWhen(r);
    LineSaysWhat(r);
    LineSaysWhich(r);
  }
}
