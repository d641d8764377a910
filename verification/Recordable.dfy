// When the player's chain yields a record, and how long its line is.

module Recordable {
  import opened Calendar
  import opened Events
  import opened Gate
  import opened Parsed
  import opened Playlist
  import opened PopRecord
  import opened RecordWords
  import opened Runtime
  import opened Session
  import opened Text
  import opened Timestamp
  import J = Json
  import Utf8

  // ---------------------------------------------------------------- exactly when

  /** The item that the record of an attempt is about. */
  function Head(playlist: PlayerPlaylist): Item
    requires playlist.items != []
  {
    Sort(playlist.items)[0]
  }

  /** would_end_at; past year 9999 there is none. */
  function EndOf(item: Item, started: string): Read<string>
    requires item.durationMs >= 0
  {
    if item.durationMs > 0 then IsoAddMs(started, item.durationMs) else Got(started)
  }

  function StatusText(completed: bool): string { if completed then "completed" else "draft" }

  /** The record of a display of the item. */
  function PlayRecord(item: Item, completed: bool, started: string, end: string, created: string): Record {
    Record(Some(created), item.durationMs, NonEmpty(Some(end)), StatusText(completed), "would_play", true, "would_play",
           "idle", Some(item.contentType), Some(item.order), "play", "ready", NonEmpty(Some(started)))
  }

  /** The record of an attempt with a playlist that is not ready. */
  function BlockedRecord(completed: bool, created: string): Record {
    Record(Some(created), 0, None, StatusText(completed), "blocked", false, "blocked",
           "idle", None, None, "stop", "safety_blocked", None)
  }

  /** Nothing that comes from outside contains a forbidden word, and the line is not too long. */
  predicate Fits(r: Record) {
    && CleanOption(r.createdAt) && CleanOption(r.startedAt) && CleanOption(r.endedAt)
    && CleanOption(r.selectedContentType) && |LineBytes(r)| <= MAX_LINE_BYTES
  }

  function IfFits(r: Record): Option<Record> { if Fits(r) then Some(r) else None }

  /** The record that a chain for the idle state appends, if it gets to the lock. */
  function ChainFor(playlist: PlayerPlaylist, completed: bool, started: string, created: string): Option<Record> {
    match EventFor(playlist, "idle", completed, started, created)
    case Raises => None
    case Got(event) =>
      match Prepare(event, Some("idle"))
      case Rejected(_, _) => None
      case Prepared(record) => Some(record)
  }

  lemma HeadIsSane(playlist: PlayerPlaylist)
    requires WellBuilt(playlist) && playlist.items != []
    ensures Head(playlist).order >= 0 && Head(playlist).durationMs >= 0
  {
    var k := HeadIsFirstMinimum(playlist.items);
  }

  lemma PlayEvent(playlist: PlayerPlaylist, completed: bool, started: string, created: string)
    requires WellBuilt(playlist) && playlist.ready
    ensures playlist.items != [] && Head(playlist).durationMs >= 0
    ensures EventFor(playlist, "idle", completed, started, created) ==
      match EndOf(Head(playlist), started)
      case Raises => Raises
      case Got(end) =>
        Got(Event("would_play", StatusText(completed), true, "play", "ready", Some(Head(playlist).order),
                  Some(Head(playlist).contentType), Some(Head(playlist).durationMs),
                  Some(started), Some(end), Some(created)))
  {
    IdleIsNormal();
    SafetyAllowsExactly(Some("idle"), Some(playlist));
    HeadIsSane(playlist);
  }

  lemma BlockedEvent(playlist: PlayerPlaylist, completed: bool, started: string, created: string)
    requires !playlist.ready
    ensures EventFor(playlist, "idle", completed, started, created) ==
      Got(Event("blocked", StatusText(completed), false, "stop", "safety_blocked", None, None, None, None, None,
                Some(created)))
  {
    IdleIsNormal();
    SafetyAllowsExactly(Some("idle"), Some(playlist));
  }

  lemma PlayRecordIsBuilt(e: Event, item: Item, completed: bool, started: string, end: string, created: string)
    requires item.durationMs >= 0
    requires e == Event("would_play", StatusText(completed), true, "play", "ready", Some(item.order),
                        Some(item.contentType), Some(item.durationMs), Some(started), Some(end), Some(created))
    ensures
      var r := PlayRecord(item, completed, started, end, created);
      BuildRecord(e, Some("idle")) == if CleanRecord(r) then Some(r) else None
  {
    IdleIsNormal();
  }

  lemma PlayIsClean(item: Item, completed: bool, started: string, end: string, created: string)
    ensures
      var r := PlayRecord(item, completed, started, end, created);
      CleanRecord(r) && |LineBytes(r)| <= MAX_LINE_BYTES <==> Fits(r)
  {
    PlayWordsAreClean();
  }

  /**
   * Over a ready playlist an attempt has a record exactly if the end of the interval can be printed,
   * the first item's content type and the three times contain no forbidden word, and the line fits.
   */
  lemma PlayIsRecordedExactly(playlist: PlayerPlaylist, completed: bool, started: string, created: string)
    requires WellBuilt(playlist) && playlist.ready
    ensures playlist.items != [] && Head(playlist).durationMs >= 0
    ensures ChainFor(playlist, completed, started, created) ==
      match EndOf(Head(playlist), started)
      case Raises => None
      case Got(end) => IfFits(PlayRecord(Head(playlist), completed, started, end, created))
  {
    PlayEvent(playlist, completed, started, created);
    match EndOf(Head(playlist), started)
    case Raises =>
    case Got(end) =>
      var e := EventFor(playlist, "idle", completed, started, created).value;
      PlayRecordIsBuilt(e, Head(playlist), completed, started, end, created);
      PlayIsClean(Head(playlist), completed, started, end, created);
  }

  /** The end of the interval can be printed, and the record of the first item fits. */
  predicate PlayFits(playlist: PlayerPlaylist, completed: bool, started: string, created: string)
    requires WellBuilt(playlist) && playlist.ready
  {
    HeadIsSane(playlist);
    var end := EndOf(Head(playlist), started);
    end.Got? && Fits(PlayRecord(Head(playlist), completed, started, end.value, created))
  }

  lemma BlockedRecordIsBuilt(e: Event, completed: bool, created: string)
    requires e == Event("blocked", StatusText(completed), false, "stop", "safety_blocked", None, None, None, None,
                        None, Some(created))
    ensures
      var r := BlockedRecord(completed, created);
      BuildRecord(e, Some("idle")) == if CleanRecord(r) then Some(r) else None
  {
    IdleIsNormal();
  }

  lemma BlockedIsClean(completed: bool, created: string)
    ensures
      var r := BlockedRecord(completed, created);
      CleanRecord(r) && |LineBytes(r)| <= MAX_LINE_BYTES <==> Fits(r)
  {
    PlayWordsAreClean();
    BlockedWordsAreClean();
  }

  /** Over a playlist that is not ready it has a blocked record exactly if its one time contains no forbidden word. */
  lemma BlockedIsRecordedExactly(playlist: PlayerPlaylist, completed: bool, started: string, created: string)
    requires !playlist.ready
    ensures ChainFor(playlist, completed, started, created) == IfFits(BlockedRecord(completed, created))
  {
    BlockedEvent(playlist, completed, started, created);
    BlockedRecordIsBuilt(EventFor(playlist, "idle", completed, started, created).value, completed, created);
    BlockedIsClean(completed, created);
  }

  /** So an attempt of a loop has a record exactly then. */
  lemma AttemptIsRecordedExactly(p: PopInput)
    requires RealPlaylist(p.playlist)
    ensures HasItems(p.playlist) ==> Head(p.playlist.value).durationMs >= 0
    ensures RecordFor("idle", p) ==
      if p.playlist.Raises? then None
      else if !HasItems(p.playlist) then IfFits(BlockedRecord(true, p.created))
      else
        match EndOf(Head(p.playlist.value), p.started)
        case Raises => None
        case Got(end) => IfFits(PlayRecord(Head(p.playlist.value), true, p.started, end, p.created))
  {
    if p.playlist.Got? {
      assert RecordFor("idle", p) == ChainFor(p.playlist.value, true, p.started, p.created);
      if HasItems(p.playlist) {
        PlayIsRecordedExactly(p.playlist.value, true, p.started, p.created);
      } else {
        BlockedIsRecordedExactly(p.playlist.value, true, p.started, p.created);
      }
    }
  }

  /**
   * A first item whose content type contains a forbidden word is never recorded, however often it is
   * shown and counted.
   */
  lemma UncleanTypeIsNeverRecorded(p: PopInput)
    requires RealPlaylist(p.playlist) && HasItems(p.playlist)
    requires !CleanText(Head(p.playlist.value).contentType)
    ensures RecordFor("idle", p) == None
  {
    AttemptIsRecordedExactly(p);
  }

  /** A camera's raw format is such a content type. */
  lemma PanasonicIsUnclean()
    ensures !CleanText("image/x-panasonic-raw")
  {
    var s := "image/x-panasonic-raw";
    assert Lower(s)[8..11] == "pan";
    assert OccursAt(Lower(s), "pan", 8);
    assert FORBIDDEN_IN_RECORD[PAN] == "pan";
  }

  // ---------------------------------------------------------------- how long

  /** Printable ASCII that JSON does not escape. */
  predicate Plain(s: string) { forall i | 0 <= i < |s| :: ' ' <= s[i] <= '~' && s[i] != '"' && s[i] != '\\' }

  predicate Ascii(s: string) { forall i | 0 <= i < |s| :: s[i] as int < 0x80 }

  lemma {:induction false} EscapePlain(s: string, ascii: bool)
    requires Plain(s)
    ensures J.Escape(s, ascii) == s
  {
    if s != "" {
      EscapePlain(s[1..], ascii);
      assert s == [s[0]] + s[1..];
    }
  }

  lemma {:induction false} AsciiBytes(s: string)
    requires Ascii(s)
    ensures |Utf8.Encode(s)| == |s|
  {
    if s != "" {
      AsciiBytes(s[1..]);
    }
  }

  /** A member of an object with a plain key of at most 21 characters and a value that prints in at most m + 2. */
  predicate Small(f: J.Field, m: nat) {
    && Plain(f.key) && |f.key| <= 21 && !f.value.Obj? && m >= 5
    && (f.value.Str? ==> Plain(f.value.s) && |f.value.s| <= m)
    && (f.value.Int? ==> f.value.n >= 0 && |NatText(f.value.n)| <= m)
  }

  lemma PlainString(s: string)
    requires Plain(s)
    ensures Ascii(J.EncodeString(s, false)) && |J.EncodeString(s, false)| == |s| + 2
  {
    EscapePlain(s, false);
  }

  lemma SmallValue(f: J.Field, m: nat)
    requires Small(f, m)
    ensures Ascii(J.Encode(f.value, J.LINE_STYLE)) && |J.Encode(f.value, J.LINE_STYLE)| <= m + 2
  {
    if f.value.Str? {
      PlainString(f.value.s);
    }
  }

  lemma SmallField(f: J.Field, m: nat)
    requires Small(f, m)
    ensures Ascii(J.EncodeField(f, J.LINE_STYLE)) && |J.EncodeField(f, J.LINE_STYLE)| <= m + 27
  {
    PlainString(f.key);
    SmallValue(f, m);
  }

  predicate AllSmall(fs: seq<J.Field>, m: nat) { forall i | 0 <= i < |fs| :: Small(fs[i], m) }

  lemma {:induction false} SmallFields(fs: seq<J.Field>, m: nat)
    requires AllSmall(fs, m)
    ensures Ascii(J.EncodeFields(fs, J.LINE_STYLE)) && |J.EncodeFields(fs, J.LINE_STYLE)| <= |fs| * (m + 29)
    decreases |fs|
  {
    if fs != [] {
      SmallField(fs[0], m);
      SmallFields(fs[1..], m);
      assert |fs| * (m + 29) == (|fs| - 1) * (m + 29) + (m + 29);
    }
  }

  /** The record has only short, plain strings and short numbers. */
  predicate ShortRecord(r: Record, m: nat) {
    && m >= 14 && ShortOption(r.createdAt, m) && ShortOption(r.startedAt, m) && ShortOption(r.endedAt, m)
    && ShortOption(r.selectedContentType, m) && ShortText(r.eventStatus, m) && ShortText(r.eventType, m)
    && ShortText(r.result, m) && ShortText(r.safetyState, m)
    && ShortText(r.sessionAction, m) && ShortText(r.sessionReason, m)
    && 0 <= r.durationMs && |NatText(r.durationMs)| <= m
    && (r.selectedOrder.Some? ==> 0 <= r.selectedOrder.value && |NatText(r.selectedOrder.value)| <= m)
  }

  predicate ShortText(s: string, m: nat) { Plain(s) && |s| <= m }

  predicate ShortOption(o: Option<string>, m: nat) { o.Some? ==> ShortText(o.value, m) }

  lemma KeysArePlain()
    ensures Plain("created_at") && Plain("duration_ms") && Plain("ended_at") && Plain("event_status")
    ensures Plain("event_type")
  {
  }

  lemma MoreKeysArePlain()
    ensures Plain("playback_allowed") && Plain("result") && Plain("safety_state") && Plain("schema_version")
  {
  }

  lemma LastKeysArePlain()
    ensures Plain("selected_content_type") && Plain("selected_order") && Plain("session_action")
    ensures Plain("session_reason") && Plain("started_at")
  {
  }

  lemma ShortRecordIsSmall(r: Record, m: nat)
    requires ShortRecord(r, m)
    ensures ToValue(r).Obj? && |ToValue(r).fields| == 14 && AllSmall(ToValue(r).fields, m)
  {
    KeysArePlain();
    MoreKeysArePlain();
    LastKeysArePlain();
    assert NatText(1) == "1";
  }

  lemma BracesAndNewline(inner: string)
    requires Ascii(inner)
    ensures |Utf8.Encode("{" + inner + "}" + "\n")| == |inner| + 3
  {
    AsciiBytes("{" + inner + "}" + "\n");
  }

  /** A bound for the bytes of a line. */
  lemma LineLength(r: Record, m: nat)
    requires ShortRecord(r, m)
    ensures |LineBytes(r)| <= 14 * (m + 29) + 3
  {
    ShortRecordIsSmall(r, m);
    SmallFields(ToValue(r).fields, m);
    BracesAndNewline(J.EncodeFields(ToValue(r).fields, J.LINE_STYLE));
  }

  // ---------------------------------------------------------------- a record that gets through

  lemma StampIsShort(s: string, t: DateTime)
    requires Stamp(s, t)
    ensures ShortText(s, 200) && s != ""
  {
    StampChars(s, t);
    StampLength(t);
  }

  lemma StampLength(t: DateTime)
    requires Valid(t)
    ensures 19 <= |Print(t)| <= 26
  {
    PrintedShape(t);
    NatTextWidth(t.micro, 6);
  }

  lemma TypeIsShort(ct: string)
    requires ct in KSO_CONTENT_TYPES
    ensures ShortText(ct, 200)
  {
    TypeLetters(ct);
  }

  lemma PlayWordsAreShort(completed: bool)
    ensures ShortText(StatusText(completed), 200) && ShortText("would_play", 200) && ShortText("idle", 200)
    ensures ShortText("play", 200) && ShortText("ready", 200)
  {
  }

  /** An item of the KSO format whose order and duration have at most 200 digits. */
  predicate RecordableItem(item: Item) {
    && item.contentType in KSO_CONTENT_TYPES && item.order >= 0 && item.durationMs >= 0
    && |NatText(item.order)| <= 200 && |NatText(item.durationMs)| <= 200
  }

  /** The record of such an item with printed times fits. */
  lemma PlayRecordFits(item: Item, completed: bool, started: string, end: string, created: string, t: DateTime,
                       u: DateTime, v: DateTime)
    requires RecordableItem(item) && Stamp(started, t) && Stamp(end, u) && Stamp(created, v)
    ensures Fits(PlayRecord(item, completed, started, end, created))
  {
    StampIsClean(started, t);
    StampIsClean(end, u);
    StampIsClean(created, v);
    TypeIsClean(item.contentType);
    StampIsShort(started, t);
    StampIsShort(end, u);
    StampIsShort(created, v);
    TypeIsShort(item.contentType);
    PlayWordsAreShort(completed);
    LineLength(PlayRecord(item, completed, started, end, created), 200);
  }

  lemma EndIsStamp(item: Item, t: DateTime) returns (u: DateTime)
    requires Valid(t) && item.durationMs >= 0 && AddMs(t, item.durationMs).Some?
    ensures EndOf(item, Print(t) + "+00:00").Got? && Stamp(EndOf(item, Print(t) + "+00:00").value, u)
  {
    ParseUtc(t);
    u := if item.durationMs > 0 then AddMs(t, item.durationMs).value else t;
  }

  /**
   * A ready playlist whose first item is of the KSO format, with an order and a duration of at most
   * 200 digits, always gets its record to the lock, if the display ends before the year 10000.
   */
  lemma SafeHeadIsRecorded(playlist: PlayerPlaylist, completed: bool, t: DateTime, created: string, v: DateTime)
    requires WellBuilt(playlist) && playlist.ready && playlist.items != [] && RecordableItem(Head(playlist))
    requires Valid(t) && AddMs(t, Head(playlist).durationMs).Some? && Stamp(created, v)
    ensures
      var r := ChainFor(playlist, completed, Print(t) + "+00:00", created);
      && r.Some? && r.value.playbackAllowed && r.value.selectedOrder == Some(Head(playlist).order)
      && r.value.eventStatus == StatusText(completed)
  {
    var started := Print(t) + "+00:00";
    PlayIsRecordedExactly(playlist, completed, started, created);
    var u := EndIsStamp(Head(playlist), t);
    PlayRecordFits(Head(playlist), completed, started, EndOf(Head(playlist), started).value, created, t, u, v);
  }
}
