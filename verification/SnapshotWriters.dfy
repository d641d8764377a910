// The two writers of bootstrap_snapshot.js: the pipeline's serialiser with its scan for
// forbidden substrings (shell_snapshot.py, runtime_snapshot_writer.py) and the runtime
// loop's own writer (runtime_loop.py).

module SnapshotWriters {
  import opened Gate
  import opened Json
  import opened MediaReference
  import opened Pipeline
  import opened Playlist
  import opened Text

  /** FORBIDDEN_SUBSTRINGS of runtime_gate.py, which the serialiser scans for. */
  const FORBIDDEN_IN_OUTPUT: seq<string> := FORBIDDEN_DATA + FORBIDDEN_IDS

  const FORBIDDEN_DATA: seq<string> := [
    "token", "jwt", "password", "secret", "api_key",
    "private_key", "payment_card", "receipt_data",
    "card_number", "pan", "customer_id", "phone", "email",
    "receipt_number", "fiscal_data",
    "local_path", "file_path",
    "authorization", "bearer",
    "device_secret", "access_token",
    "media_path", "creatives/",
    "backend_base_url", "127.0.0.1", "device_code"]

  const FORBIDDEN_IDS: seq<string> := [
    "filename", "manifest_item_id", "device_event_id", "batch_id",
    "campaign_id", "creative_id", "schedule_item_id",
    "sha256", "full_manifest", "media_bytes", "stacktrace",
    "boot_id", "pid"]

  function MediaName(m: MediaType): string {
    match m
    case Image => "image"
    case Video => "video"
    case UnknownMedia => "unknown"
  }

  function BucketName(b: Bucket): string {
    match b
    case Short => "short"
    case Medium => "medium"
    case Long => "long"
    case UnknownDuration => "unknown"
  }

  /** The render object with its keys sorted; without a reference the key is absent. */
  function RenderValue(mediaType: string, bucket: string, mediaRef: string): Value {
    var payload :=
      if mediaRef == "" then [Field("durationBucket", Str(bucket)), Field("mediaType", Str(mediaType))]
      else [Field("durationBucket", Str(bucket)), Field("mediaRef", Str(mediaRef)), Field("mediaType", Str(mediaType))];
    Obj([Field("method", Str("setRenderPlan")), Field("mode", Str("render")),
         Field("payload", Obj(payload)), Field("schemaVersion", Int(1))])
  }

  const HOLD_VALUE: Value :=
    Obj([Field("method", Str("setHold")), Field("mode", Str("hold")),
         Field("payload", Obj([Field("reason", Str("hold"))])), Field("schemaVersion", Int(1))])

  function SnapshotValue(s: Snapshot): Value {
    if s.render
    then RenderValue(MediaName(s.mediaType), BucketName(s.bucket), if s.mediaRef.Some? then s.mediaRef.value else "")
    else HOLD_VALUE
  }

  /** serialize_kso_shell_snapshot: falls back to a hold when the text contains something forbidden. */
  function Serialize(s: Snapshot): string {
    var text := Encode(SnapshotValue(s), COMPACT_STYLE);
    if ContainsAny(Lower(text), FORBIDDEN_IN_OUTPUT) then Encode(HOLD_VALUE, COMPACT_STYLE) else text
  }

  /** _build_js_content. */
  function JsContent(json: string): string {
    "\"use strict\";\nwindow.KSO_PLAYER_BOOTSTRAP_SNAPSHOT = " + json + ";\n"
  }

  // ---------------------------------------------------------------- the loop's writer

  /** _map_content_type: no strip, and everything but video is an image. */
  function LoopMedia(contentType: string): MediaType {
    if "video/" <= Lower(contentType) then Video else Image
  }

  /** _map_duration_bucket. */
  function LoopBucket(ms: int): Bucket {
    if ms < 10000 then Short
    else if ms <= 60000 then Medium
    else Long
  }

  /** The reference that _write_item_snapshot puts into the payload; "" when the item has none. */
  function LoopRef(item: Item): string {
    if item.mediaRef != "" then item.mediaRef
    else if item.filename != "" then "media/current/" + item.filename
    else ""
  }

  function LoopValue(item: Item): Value {
    RenderValue(MediaName(LoopMedia(item.contentType)), BucketName(LoopBucket(item.durationMs)), LoopRef(item))
  }

  /** The file content that _write_item_snapshot writes, without any scan. */
  function LoopContent(item: Item): string { JsContent(Encode(LoopValue(item), COMPACT_STYLE)) }

  // ---------------------------------------------------------------- nothing forbidden is serialised

  predicate BadChar(c: char) { c == '_' || c == '.' || c == 'j' || c == 'w' || c == 'z' }

  predicate BadPair(a: char, b: char) {
    || (a == 'o' && b == 'k') || (a == 'c' && b == 'r') || (a == 'p' && b == 'h')
    || (a == 'a' && b == 'i') || (a == 'b' && b == 'e') || (a == 'f' && b == 'i')
    || (a == 'h' && b == 'a') || (a == 's' && b == 't') || (a == 'p' && b == 'i')
  }

  predicate BadTriple(a: char, b: char, c: char) { a == 'p' && b == 'a' && c == 'n' }

  /** Every forbidden substring shows one of these. */
  predicate Tell(p: string, k: nat) {
    || (k < |p| && BadChar(p[k]))
    || (k + 1 < |p| && BadPair(p[k], p[k + 1]))
    || (k + 2 < |p| && BadTriple(p[k], p[k + 1], p[k + 2]))
  }

  /** No tell anywhere in s, whatever the case of its letters. */
  predicate Harmless(s: string) {
    && (forall i | 0 <= i < |s| :: !BadChar(LowerChar(s[i])))
    && (forall i | 0 <= i < |s| - 1 :: !BadPair(LowerChar(s[i]), LowerChar(s[i + 1])))
    && (forall i | 0 <= i < |s| - 2 :: !BadTriple(LowerChar(s[i]), LowerChar(s[i + 1]), LowerChar(s[i + 2])))
  }

  const DATA_TELLS: seq<nat> := [1, 0, 4, 2, 3, 7, 7, 7, 4, 0, 8, 0, 2, 7, 6, 5, 4, 7, 0, 6, 6, 5, 0, 7, 3, 6]

  const ID_TELLS: seq<nat> := [0, 8, 6, 5, 8, 8, 8, 1, 4, 5, 0, 4, 0]

  lemma DataHasTells(k: nat)
    requires k < |FORBIDDEN_DATA|
    ensures |DATA_TELLS| == |FORBIDDEN_DATA| && Tell(FORBIDDEN_DATA[k], DATA_TELLS[k])
  {
  }

  lemma IdsHaveTells(k: nat)
    requires k < |FORBIDDEN_IDS|
    ensures |ID_TELLS| == |FORBIDDEN_IDS| && Tell(FORBIDDEN_IDS[k], ID_TELLS[k])
  {
  }

  /** A harmless text contains no forbidden substring. */
  lemma HarmlessIsClean(s: string)
    requires Harmless(s)
    ensures !ContainsAny(Lower(s), FORBIDDEN_IN_OUTPUT)
  {
    forall k | 0 <= k < |FORBIDDEN_IN_OUTPUT|
      ensures !Contains(Lower(s), FORBIDDEN_IN_OUTPUT[k])
    {
      if k < |FORBIDDEN_DATA| {
        DataHasTells(k);
        TellNotIn(s, FORBIDDEN_DATA[k], DATA_TELLS[k]);
      } else {
        IdsHaveTells(k - |FORBIDDEN_DATA|);
        TellNotIn(s, FORBIDDEN_IDS[k - |FORBIDDEN_DATA|], ID_TELLS[k - |FORBIDDEN_DATA|]);
      }
    }
  }

  lemma TellNotIn(s: string, p: string, k: nat)
    requires Harmless(s) && Tell(p, k)
    ensures !Contains(Lower(s), p)
  {
    forall i | 0 <= i <= |s| - |p|
      ensures !OccursAt(Lower(s), p, i)
    {
      if OccursAt(Lower(s), p, i) {
        OccurrenceTells(s, p, k, i);
        assert false;
      }
    }
  }

  lemma OccurrenceTells(s: string, p: string, k: nat, i: int)
    requires OccursAt(Lower(s), p, i) && Tell(p, k)
    ensures !Harmless(s)
  {
    var t := Lower(s);
    assert p == t[i..i + |p|];
    assert p[k] == t[i + k] == LowerChar(s[i + k]);
    if k + 1 < |p| {
      assert p[k + 1] == t[i + k + 1] == LowerChar(s[i + k + 1]);
    }
    if k + 2 < |p| {
      assert p[k + 2] == t[i + k + 2] == LowerChar(s[i + k + 2]);
    }
    assert 0 <= i + k < |s|;
  }

  /** Characters that are part of no tell, so that texts may be joined at them. */
  predicate Seam(c: char) { c in "\"{}:,/-" || IsDigit(c) }

  lemma JoinHarmless(a: string, b: string)
    requires Harmless(a) && Harmless(b)
    requires a == "" || b == "" || Seam(a[|a| - 1]) || Seam(b[0])
    ensures Harmless(a + b)
  {
    var s := a + b;
    assert a != "" ==> s[|a| - 1] == a[|a| - 1];
    assert b != "" ==> s[|a|] == b[0];
    forall i | 0 <= i < |s| - 1
      ensures !BadPair(LowerChar(s[i]), LowerChar(s[i + 1]))
    {
      if i == |a| - 1 {
        SeamBreaks(s[i], s[i + 1], 'x');
      }
    }
    forall i | 0 <= i < |s| - 2
      ensures !BadTriple(LowerChar(s[i]), LowerChar(s[i + 1]), LowerChar(s[i + 2]))
    {
      if i == |a| - 1 || i == |a| - 2 {
        SeamBreaks(s[i], s[i + 1], s[i + 2]);
      }
    }
  }

  lemma SeamBreaks(a: char, b: char, c: char)
    ensures Seam(a) || Seam(b) ==> !BadPair(LowerChar(a), LowerChar(b))
    ensures Seam(a) || Seam(b) || Seam(c) ==> !BadTriple(LowerChar(a), LowerChar(b), LowerChar(c))
  {
  }

  /** From position i on, s has no tell and nothing that needs escaping. */
  predicate WordFrom(s: string, i: nat)
    decreases |s| - i
  {
    i >= |s| || (
      && ' ' <= s[i] <= '~' && s[i] != '"' && s[i] != '\\' && !BadChar(LowerChar(s[i]))
      && (i + 1 < |s| ==> !BadPair(LowerChar(s[i]), LowerChar(s[i + 1])))
      && (i + 2 < |s| ==> !BadTriple(LowerChar(s[i]), LowerChar(s[i + 1]), LowerChar(s[i + 2])))
      && WordFrom(s, i + 1))
  }

  predicate Word(s: string) { WordFrom(s, 0) }

  predicate PlainText(s: string) { forall i | 0 <= i < |s| :: ' ' <= s[i] <= '~' && s[i] != '"' && s[i] != '\\' }

  lemma {:induction false} WordFromAt(s: string, i: nat, j: nat)
    requires WordFrom(s, i) && i <= j < |s|
    ensures WordFrom(s, j)
    decreases j - i
  {
    if i < j {
      WordFromAt(s, i + 1, j);
    }
  }

  lemma WordIsHarmless(s: string)
    requires Word(s)
    ensures Harmless(s)
  {
    forall j: nat | j < |s|
      ensures !BadChar(LowerChar(s[j]))
      ensures j + 1 < |s| ==> !BadPair(LowerChar(s[j]), LowerChar(s[j + 1]))
      ensures j + 2 < |s| ==> !BadTriple(LowerChar(s[j]), LowerChar(s[j + 1]), LowerChar(s[j + 2]))
    {
      WordFromAt(s, 0, j);
    }
  }

  lemma {:induction false} HarmlessIsWord(s: string, i: nat)
    requires Harmless(s) && PlainText(s) && i <= |s|
    ensures WordFrom(s, i)
    decreases |s| - i
  {
    if i < |s| {
      HarmlessIsWord(s, i + 1);
    }
  }

  /** A value whose texts are all words. */
  predicate Words(v: Value) {
    match v
    case Int(n) => n >= 0
    case Str(s) => Word(s)
    case Obj(fs) => forall i | 0 <= i < |fs| :: Word(fs[i].key) && Words(fs[i].value)
    case _ => false
  }

  lemma {:induction false} WordIsPrintedAsIs(s: string, i: nat)
    requires WordFrom(s, i) && i <= |s|
    ensures Escape(s[i..], true) == s[i..]
    decreases |s| - i
  {
    if i < |s| {
      WordIsPrintedAsIs(s, i + 1);
      assert s[i..] == [s[i]] + s[i + 1..];
      assert EscapeChar(s[i], true) == [s[i]];
    }
  }

  /** Harmless, and joined safely on either side. */
  predicate Sealed(s: string) { s != "" && Harmless(s) && Seam(s[0]) && Seam(s[|s| - 1]) }

  lemma SealedJoin(a: string, b: string)
    requires Sealed(a) && Sealed(b)
    ensures Sealed(a + b)
  {
    JoinHarmless(a, b);
  }

  lemma SealedString(s: string)
    requires Word(s)
    ensures Sealed(EncodeString(s, true))
  {
    WordIsPrintedAsIs(s, 0);
    assert s[0..] == s;
    WordIsHarmless(s);
    JoinHarmless("\"", s);
    JoinHarmless("\"" + s, "\"");
  }

  lemma SealedDigits(s: string)
    requires s != "" && AllDigits(s)
    ensures Sealed(s)
  {
  }

  /** Printing a value of words gives a harmless text. */
  lemma {:induction false} WordsPrintHarmless(v: Value)
    requires Words(v)
    ensures Sealed(Encode(v, COMPACT_STYLE))
    decreases v, 1
  {
    match v
    case Int(n) => SealedDigits(NatText(n));
    case Str(s) => SealedString(s);
    case Obj(fs) =>
      if fs == [] {
        assert Encode(v, COMPACT_STYLE) == "{" + "}";
      } else {
        FieldsPrintHarmless(fs);
        SealedInBraces(EncodeFields(fs, COMPACT_STYLE));
      }
  }

  lemma SealedInBraces(inner: string)
    requires Sealed(inner)
    ensures Sealed("{" + inner + "}")
  {
    SealedJoin("{", inner);
    SealedJoin("{" + inner, "}");
  }

  lemma {:induction false} FieldsPrintHarmless(fs: seq<Field>)
    requires fs != [] && forall i | 0 <= i < |fs| :: Word(fs[i].key) && Words(fs[i].value)
    ensures Sealed(EncodeFields(fs, COMPACT_STYLE))
    decreases fs, 0
  {
    var Field(key, v) := fs[0];
    var k, e := EncodeString(key, true), Encode(v, COMPACT_STYLE);
    SealedString(key);
    WordsPrintHarmless(v);
    SealedJoin(k, ":");
    SealedJoin(k + ":", e);
    if |fs| > 1 {
      FieldsPrintHarmless(fs[1..]);
      SealedJoin(k + ":" + e, ",");
      SealedJoin(k + ":" + e + ",", EncodeFields(fs[1..], COMPACT_STYLE));
    }
  }

  lemma PayloadWords()
    ensures Word("durationBucket") && Word("reason")
  {
  }

  lemma MediaWords()
    ensures Word("mediaRef") && Word("mediaType")
  {
  }

  lemma TopWords()
    ensures Word("method") && Word("mode") && Word("payload")
  {
  }

  lemma SchemaWord()
    ensures Word("schemaVersion")
  {
  }

  lemma ModeWords()
    ensures Word("setRenderPlan") && Word("render") && Word("setHold") && Word("hold")
  {
  }

  lemma NameWords(m: MediaType, b: Bucket)
    requires m != UnknownMedia && b != UnknownDuration
    ensures Word(MediaName(m)) && Word(BucketName(b))
  {
    assert Word("image") && Word("video");
    assert Word("short") && Word("medium") && Word("long");
  }

  lemma PrefixWords()
    ensures Word("media/") && Word("current/") && Word("slot-")
  {
  }

  lemma SlotPrefixIsHarmless()
    ensures Harmless(SLOT_PREFIX)
  {
    PrefixWords();
    JoinWords("media/", "current/", "slot-");
    assert SLOT_PREFIX == "media/" + "current/" + "slot-";
  }

  lemma JoinWords(a: string, b: string, c: string)
    requires Word(a) && Word(b) && Word(c) && a != "" && b != ""
    requires Seam(a[|a| - 1]) && Seam(b[|b| - 1])
    ensures Harmless(a + b + c)
  {
    WordIsHarmless(a);
    WordIsHarmless(b);
    WordIsHarmless(c);
    JoinHarmless(a, b);
    JoinHarmless(a + b, c);
  }

  lemma SlotRefIsWord(order: nat)
    ensures Word(SlotRef(order))
  {
    var d := Padded(order, 3);
    SlotPrefixIsHarmless();
    SealedDigits(d);
    JoinHarmless(SLOT_PREFIX, d);
    SlotRefChars(order);
    HarmlessIsWord(SlotRef(order), 0);
  }

  /**
   * For every slot, media type and duration the serialised snapshot contains no forbidden
   * substring, so the serialiser returns the snapshot itself and never its hold fallback.
   */
  lemma RenderIsNeverWithheld(s: Snapshot, order: nat)
    requires s.render && s.mediaType != UnknownMedia && s.bucket != UnknownDuration
    requires s.mediaRef == Some(SlotRef(order))
    ensures Serialize(s) == Encode(SnapshotValue(s), COMPACT_STYLE)
    ensures !ContainsAny(Lower(Serialize(s)), FORBIDDEN_IN_OUTPUT)
  {
    TopWords();
    SchemaWord();
    ModeWords();
    PayloadWords();
    MediaWords();
    NameWords(s.mediaType, s.bucket);
    SlotRefIsWord(order);
    var payload := Obj([Field("durationBucket", Str(BucketName(s.bucket))), Field("mediaRef", Str(SlotRef(order))),
                        Field("mediaType", Str(MediaName(s.mediaType)))]);
    assert Words(payload);
    assert SnapshotValue(s) ==
      Obj([Field("method", Str("setRenderPlan")), Field("mode", Str("render")),
           Field("payload", payload), Field("schemaVersion", Int(1))]);
    WordsPrintHarmless(SnapshotValue(s));
    HarmlessIsClean(Encode(SnapshotValue(s), COMPACT_STYLE));
  }

  lemma HoldIsNeverForbidden()
    ensures !ContainsAny(Lower(Encode(HOLD_VALUE, COMPACT_STYLE)), FORBIDDEN_IN_OUTPUT)
  {
    TopWords();
    SchemaWord();
    ModeWords();
    PayloadWords();
    MediaWords();
    assert Words(Obj([Field("reason", Str("hold"))]));
    WordsPrintHarmless(HOLD_VALUE);
    HarmlessIsClean(Encode(HOLD_VALUE, COMPACT_STYLE));
  }

  /** Whatever the files do, what the pipeline serialises is its own snapshot, and it holds nothing forbidden. */
  lemma PipelineOutputIsClean(staleSeconds: int, at: nat -> Files)
    ensures
      var s := BuildSnapshot(staleSeconds, at);
      && Serialize(s) == Encode(SnapshotValue(s), COMPACT_STYLE)
      && !ContainsAny(Lower(Serialize(s)), FORBIDDEN_IN_OUTPUT)
  {
    var s := BuildSnapshot(staleSeconds, at);
    RenderExactly(staleSeconds, at);
    if s.render {
      FirstItemIsSane(at(2));
      RenderIsNeverWithheld(s, FirstItem(at(5)).order);
    } else {
      HoldIsNeverForbidden();
    }
  }

  // ---------------------------------------------------------------- the two writers

  lemma PrintedAlike(m: MediaType, b: Bucket, m': MediaType, b': Bucket)
    ensures MediaName(m) == MediaName(m') ==> m == m'
    ensures BucketName(b) == BucketName(b') ==> b == b'
  {
  }

  /** The snapshot that the pipeline makes of one item. */
  function SnapshotOf(item: Item): Snapshot
    requires item.order >= 0
  {
    Snapshot(Fine, true, ReadyForShell, ClassifyMedia(item.contentType), ClassifyDuration(item.durationMs),
             Some(SlotRef(item.order)), true)
  }

  /**
   * For an image or video with a reference of its own, the loop's writer and the pipeline write
   * byte-identical files exactly when that reference is the slot alias of the item's order and
   * the loop classifies the media alike.
   */
  lemma WritersAgreeExactly(item: Item)
    requires item.order >= 0 && item.durationMs >= 0 && ClassifyMedia(item.contentType) != UnknownMedia
    ensures LoopContent(item) == JsContent(Serialize(SnapshotOf(item))) <==>
      LoopRef(item) == SlotRef(item.order) && LoopMedia(item.contentType) == ClassifyMedia(item.contentType)
    ensures LoopBucket(item.durationMs) == ClassifyDuration(item.durationMs)
  {
    var s := SnapshotOf(item);
    RenderIsNeverWithheld(s, item.order);
    var mine, other := LoopValue(item), SnapshotValue(s);
    SameContent(Encode(mine, COMPACT_STYLE), Encode(other, COMPACT_STYLE));
    if Encode(mine, COMPACT_STYLE) == Encode(other, COMPACT_STYLE) {
      EncodeInjective(mine, other, COMPACT_STYLE);
      SlotRefChars(item.order);
      var p, q := mine.fields[2].value.fields, other.fields[2].value.fields;
      assert p == q && |q| == 3;
      assert p[1].value == q[1].value && p[2].value == q[2].value;
      PrintedAlike(LoopMedia(item.contentType), Short, ClassifyMedia(item.contentType), Short);
    }
  }

  lemma SameContent(a: string, b: string)
    ensures JsContent(a) == JsContent(b) <==> a == b
  {
    var head := "\"use strict\";\nwindow.KSO_PLAYER_BOOTSTRAP_SNAPSHOT = ";
    assert JsContent(a)[|head|..|head| + |a|] == a;
    if JsContent(a) == JsContent(b) {
      assert |JsContent(a)| == |head| + |a| + 2 && |JsContent(b)| == |head| + |b| + 2;
      assert JsContent(b)[|head|..|head| + |b|] == b;
    }
  }

  lemma KsoTypes()
    ensures forall ct | ct in KSO_CONTENT_TYPES ::
      LoopMedia(ct) == ClassifyMedia(ct) && ClassifyMedia(ct) != UnknownMedia
  {
    TypeIsNormal("image/png");
    TypeIsNormal("image/jpeg");
    TypeIsNormal("video/mp4");
  }

  lemma TypeIsNormal(s: string)
    requires s in KSO_CONTENT_TYPES
    ensures Lower(s) == s && Strip(s) == s
  {
  }

  /** For every item of a KSO playlist the media types agree, so only the reference decides. */
  lemma KsoWritersAgreeExactly(item: Item)
    requires KsoItem(item)
    ensures LoopContent(item) == JsContent(Serialize(SnapshotOf(item))) <==> item.mediaRef == SlotRef(item.order)
  {
    var ct := item.contentType;
    assert ct == "image/png" || ct == "image/jpeg" || ct == "video/mp4";
    KsoTypes();
    WritersAgreeExactly(item);
  }

  lemma HoldIsNoRender(item: Item)
    ensures LoopContent(item) != JsContent(Encode(HOLD_VALUE, COMPACT_STYLE))
  {
    SameContent(Encode(LoopValue(item), COMPACT_STYLE), Encode(HOLD_VALUE, COMPACT_STYLE));
    assert LoopValue(item).fields[1].value == Str("render") && HOLD_VALUE.fields[1].value == Str("hold");
    assert |"render"| == 6 && |"hold"| == 4;
    if Encode(LoopValue(item), COMPACT_STYLE) == Encode(HOLD_VALUE, COMPACT_STYLE) {
      EncodeInjective(LoopValue(item), HOLD_VALUE, COMPACT_STYLE);
    }
  }

  /** A text keeps what it has in front of a character that is no blank. */
  lemma {:induction false} StripRightKeepsFront(s: string, k: nat)
    requires k < |s| && !IsSpace(s[k])
    ensures |StripRight(s)| > k && StripRight(s)[..k + 1] == s[..k + 1]
    decreases |s|
  {
    if IsSpace(s[|s| - 1]) {
      StripRightKeepsFront(s[..|s| - 1], k);
      assert s[..|s| - 1][..k + 1] == s[..k + 1];
    }
  }

  lemma VideoKeepsPrefix(contentType: string)
    requires "video/" <= Lower(contentType)
    ensures "video/" <= Lower(Strip(contentType))
  {
    var front := Lower(contentType)[..6];
    assert front == "video/";
    assert LowerChar(contentType[0]) == front[0] == 'v' && LowerChar(contentType[5]) == front[5] == '/';
    StripRightKeepsFront(contentType, 5);
    assert StripLeft(contentType) == contentType;
    forall i | 0 <= i < 6 ensures Strip(contentType)[i] == contentType[i] {
      assert Strip(contentType)[..6][i] == contentType[..6][i];
    }
    assert Lower(Strip(contentType))[..6] == front;
  }

  /** What the pipeline knows neither as an image nor as a video is an image to the loop. */
  lemma UnknownIsImage(contentType: string)
    requires ClassifyMedia(contentType) == UnknownMedia
    ensures LoopMedia(contentType) == Image
  {
    if LoopMedia(contentType) == Video {
      VideoKeepsPrefix(contentType);
    }
  }

  /** The two writers produce the same file for this item. */
  predicate Agree(item: Item) {
    && item.order >= 0 && LoopRef(item) == SlotRef(item.order)
    && ClassifyMedia(item.contentType) != UnknownMedia && LoopMedia(item.contentType) == ClassifyMedia(item.contentType)
  }

  /**
   * While the files do not change, the gate plays and the playlist is ready, the pipeline's file and
   * the loop's for the same first item are the same exactly if the item is an image or a video that
   * both classify alike, and its reference is the slot alias. For any other media type the pipeline
   * writes a hold, and the loop an image.
   */
  lemma FrozenWritersAgreeExactly(staleSeconds: int, f: Files)
    requires staleSeconds > 0 && GatePlays(f, staleSeconds) && PlaylistReady(f)
    ensures
      var s, item := BuildSnapshot(staleSeconds, (i: nat) => f), FirstItem(f);
      && (JsContent(Serialize(s)) == LoopContent(item) <==> Agree(item))
      && (ClassifyMedia(item.contentType) == UnknownMedia ==> !s.render && LoopMedia(item.contentType) == Image)
  {
    var s, item := BuildSnapshot(staleSeconds, (i: nat) => f), FirstItem(f);
    FrozenRenderExactly(staleSeconds, f);
    FirstItemIsSane(f);
    if ClassifyMedia(item.contentType) == UnknownMedia {
      HoldIsNeverForbidden();
      HoldIsNoRender(item);
      UnknownIsImage(item.contentType);
    } else {
      WritersAgreeExactly(item);
    }
  }
}
