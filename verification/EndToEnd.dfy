// From files to the screen: manifests whose references are the slot aliases, as the backend's safe
// format has them, through every validator, the gate, the pipeline and both snapshot writers.

module EndToEnd {
  import opened Attribution
  import opened Calendar
  import opened Cycle
  import opened FalseClaims
  import opened ForbiddenWords
  import opened Gate
  import opened MediaReference
  import opened Parsed
  import opened Pipeline
  import opened Playlist
  import opened RecordWords
  import opened Recordable
  import opened Session
  import opened SnapshotWriters
  import opened Text
  import opened Timestamp
  import opened Undisturbed
  import D = Daemon
  import DR = DaemonRuns
  import Runtime

  /** One entry of a manifest. */
  datatype Slot = Slot(order: nat, contentType: string, durationMs: nat)

  predicate AllowedSlots(xs: seq<Slot>) { forall i | 0 <= i < |xs| :: xs[i].contentType in KSO_CONTENT_TYPES }

  function SlotRaw(x: Slot): Raw {
    RObj(map["slotOrder" := RInt(x.order), "contentType" := RStr(x.contentType),
             "durationMs" := RInt(x.durationMs), "mediaRef" := RStr(SlotRef(x.order))])
  }

  function SlotItem(x: Slot): Item {
    Item(SlotRef(x.order), x.order, "", "", "", x.contentType, x.durationMs, x.order, None, None)
  }

  function SlotRaws(xs: seq<Slot>): (raws: seq<Raw>)
    ensures |raws| == |xs| && forall i | 0 <= i < |xs| :: raws[i] == SlotRaw(xs[i])
  {
    seq(|xs|, i requires 0 <= i < |xs| => SlotRaw(xs[i]))
  }

  function SlotItems(xs: seq<Slot>): (items: seq<Item>)
    ensures |items| == |xs| && forall i | 0 <= i < |xs| :: items[i] == SlotItem(xs[i])
  {
    seq(|xs|, i requires 0 <= i < |xs| => SlotItem(xs[i]))
  }

  function SlotManifest(xs: seq<Slot>): ManifestFile {
    Json(RObj(map["channel" := RStr("kso"), "items" := RList(SlotRaws(xs))]))
  }

  // ---------------------------------------------------------------- the validators of the extractor

  const ALIAS_LETTERS := "mediacurrentslot/-0123456789"

  lemma AliasChars(order: nat)
    ensures Over(SlotRef(order), ALIAS_LETTERS)
    ensures forall i | 0 <= i < |SlotRef(order)| - 1 && SlotRef(order)[i] == 's' :: SlotRef(order)[i + 1] != 'e'
  {
    var ref, digits := SlotRef(order), Padded(order, 3);
    forall i | |SLOT_PREFIX| <= i < |ref| ensures IsDigit(ref[i]) {
      assert ref[i] == digits[i - |SLOT_PREFIX|];
    }
    assert forall i | 0 <= i < |SLOT_PREFIX| :: ref[i] == SLOT_PREFIX[i];
  }

  const SECRET := 3

  /** Where each forbidden word but "secret" has a character that no alias has. */
  const FOREIGN_TO_ALIAS: seq<nat> := [2, 1, 0, 0, 3, 7, 7, 5, 5, 4, 3, 0, 6, 6, 5, 6, 0, 3, 6]

  lemma ForeignToAlias(k: nat)
    requires k < |FORBIDDEN| && k != SECRET
    ensures k < |FOREIGN_TO_ALIAS| && Foreign(FORBIDDEN[k], ALIAS_LETTERS, FOREIGN_TO_ALIAS[k])
  {
    if k < 10 { EarlierForeignToAlias(k); } else { LaterForeignToAlias(k); }
  }

  lemma EarlierForeignToAlias(k: nat)
    requires k < 10 && k != SECRET
    ensures Foreign(FORBIDDEN[k], ALIAS_LETTERS, FOREIGN_TO_ALIAS[k])
  {
  }

  lemma LaterForeignToAlias(k: nat)
    requires 10 <= k < |FORBIDDEN|
    ensures k < |FOREIGN_TO_ALIAS| && Foreign(FORBIDDEN[k], ALIAS_LETTERS, FOREIGN_TO_ALIAS[k])
  {
  }

  lemma AliasHasNothingForbidden(order: nat)
    ensures !ContainsAny(SlotRef(order), FORBIDDEN)
  {
    AliasChars(order);
    PairIsAbsent(SlotRef(order), "secret");
    forall k | 0 <= k < |FORBIDDEN| ensures !Contains(SlotRef(order), FORBIDDEN[k]) {
      if k != SECRET {
        ForeignToAlias(k);
        ForeignIsAbsent(SlotRef(order), FORBIDDEN[k], ALIAS_LETTERS, FOREIGN_TO_ALIAS[k]);
      }
    }
  }

  lemma LowerAlias(order: nat)
    ensures Lower(SlotRef(order)) == SlotRef(order)
  {
    SlotRefChars(order);
  }

  /** The slot alias of every order is accepted as a mediaRef by the extractor, too. */
  lemma AliasIsAccepted(order: nat)
    ensures ValidMediaRef(SlotRef(order))
  {
    SlotAliasRoundTrip(order);
    LowerAlias(order);
    AliasHasNothingForbidden(order);
    assert SlotRef(order)[0] == 'm';
    assert SlotRef(order)[..1][0] == 'm';
  }

  const FOREIGN_TO_TYPE: seq<nat> := [0, 1, 2, 0, 3, 7, 7, 0, 5, 4, 1, 0, 6, 6, 5, 0, 7, 0, 6]

  lemma EarlierForeignToType(k: nat)
    requires k < 10
    ensures Foreign(FORBIDDEN[k], TYPE_LETTERS, FOREIGN_TO_TYPE[k])
  {
  }

  lemma LaterForeignToType(k: nat)
    requires 10 <= k < |FORBIDDEN|
    ensures k < |FOREIGN_TO_TYPE| && Foreign(FORBIDDEN[k], TYPE_LETTERS, FOREIGN_TO_TYPE[k])
  {
  }

  lemma TypeIsAccepted(ct: string)
    requires ct in KSO_CONTENT_TYPES
    ensures Lower(Strip(ct)) == ct && NonBlank(ct) && !IsForbidden(ct)
  {
    TypeIsNormal(ct);
    TypeLetters(ct);
    forall k | 0 <= k < |FORBIDDEN| ensures !Contains(ct, FORBIDDEN[k]) {
      if k < 10 { EarlierForeignToType(k); } else { LaterForeignToType(k); }
      ForeignIsAbsent(ct, FORBIDDEN[k], TYPE_LETTERS, FOREIGN_TO_TYPE[k]);
    }
  }

  /** Every such entry is extracted as it is written. */
  lemma SlotExtracts(x: Slot)
    requires x.contentType in KSO_CONTENT_TYPES
    ensures Extract(SlotRaw(x), true) == Some(SlotItem(x))
  {
    AliasIsAccepted(x.order);
    TypeIsAccepted(x.contentType);
    var m := SlotRaw(x).m;
    assert Get(m, "slotOrder", RNull) == RInt(x.order) && Get(m, "durationMs", RInt(0)) == RInt(x.durationMs);
    assert Get(m, "contentType", RStr("")) == RStr(x.contentType);
    assert Get(m, "mediaRef", RStr("")) == RStr(SlotRef(x.order));
    assert Get(m, "creativeCode", RNull) == RNull;
  }

  // ---------------------------------------------------------------- manifest, playlist, snapshot

  lemma SlotsExtract(xs: seq<Slot>)
    requires AllowedSlots(xs)
    ensures Extracted(SlotRaws(xs), true) == SlotItems(xs)
  {
    forall i | 0 <= i < |xs| ensures Extractions(SlotRaws(xs), true)[i] == Some(SlotItems(xs)[i]) {
      SlotExtracts(xs[i]);
    }
    SomesOfAll(SlotItems(xs), Extractions(SlotRaws(xs), true));
  }

  lemma SlotManifestIsRead(xs: seq<Slot>)
    requires xs != []
    ensures ReachesExtraction(SlotManifest(xs)) && IsKsoFormat(SlotManifest(xs).raw.m)
    ensures RawItems(SlotManifest(xs)) == SlotRaws(xs)
  {
    var m := SlotManifest(xs).raw.m;
    assert Lower("kso") == "kso";
    assert Get(m, "channel", RStr("")) == RStr("kso") && Get(m, "items", RNull) == RList(SlotRaws(xs));
    forall k | k in m.Keys ensures Lower(k) != "status" {
      assert |Lower(k)| == |k|;
      assert |"channel"| == 7 && |"items"| == 5 && |"status"| == 6;
    }
    assert SlotRaws(xs)[0] == SlotRaw(xs[0]);
  }

  /** A manifest of slots whose media are present gives a ready playlist of exactly these slots. */
  lemma SlotManifestIsReady(xs: seq<Slot>, looks: nat -> MediaLook)
    requires xs != [] && AllowedSlots(xs) && forall k: nat | k < |xs| :: VerifiesKso(looks(k))
    ensures Build(SlotManifest(xs), looks).Got?
    ensures Build(SlotManifest(xs), looks).value.ready && Build(SlotManifest(xs), looks).value.items == SlotItems(xs)
  {
    var file := SlotManifest(xs);
    SlotManifestIsRead(xs);
    SlotsExtract(xs);
    RaisesExactly(file, looks);
    ReadyExactly(file, looks);
  }

  /** Something is at the path: a file, or a directory behind a link. */
  predicate SlotPresent(look: MediaLook) {
    look.file.Regular? || look.file.BadFile? || (look.file.Directory? && look.symlink)
  }

  lemma VerdictOfSlot(item: Item, look: MediaLook)
    ensures Playlist.Judge(item, look, true) == if SlotPresent(look) then Verified else Missing
  {
  }

  lemma {:induction false} SlotCounts(items: seq<Item>, looks: nat -> MediaLook)
    requires forall k: nat | k < |items| :: !looks(k).file.Inaccessible?
    ensures
      var v := Verdicts(items, looks, true);
      && Count(v, Failed) == 0 && (Count(v, Missing) == 0 <==> forall k: nat | k < |items| :: SlotPresent(looks(k)))
  {
    var v := Verdicts(items, looks, true);
    forall k | 0 <= k < |items| ensures v[k] == if SlotPresent(looks(k)) then Verified else Missing {
      VerdictOfSlot(items[k], looks(k));
    }
    CountZero(v, Failed);
    CountZero(v, Missing);
    if k: nat :| k < |items| && !SlotPresent(looks(k)) {
      assert v[k] == Missing;
    }
  }

  lemma SlotBuild(xs: seq<Slot>, looks: nat -> MediaLook) returns (ok: seq<Item>, missing: nat)
    requires xs != [] && AllowedSlots(xs) && forall k: nat | k < |xs| :: !looks(k).file.Inaccessible?
    ensures Build(SlotManifest(xs), looks) == Got(Assemble(|xs|, ok, missing, 0)) && |ok| + missing == |xs|
    ensures missing == 0 <==> forall k: nat | k < |xs| :: SlotPresent(looks(k))
  {
    var v := Verdicts(SlotItems(xs), looks, true);
    SlotManifestIsRead(xs);
    SlotsExtract(xs);
    BuildFrom(SlotManifest(xs), looks);
    SlotCounts(SlotItems(xs), looks);
    CountsAddUp(SlotItems(xs), v);
    ok, missing := Kept(SlotItems(xs), v), Count(v, Missing);
  }

  /** It is ready exactly if something is at every path; otherwise it is incomplete, and never corrupted. */
  lemma SlotPlaylistExactly(xs: seq<Slot>, looks: nat -> MediaLook)
    requires xs != [] && AllowedSlots(xs) && forall k: nat | k < |xs| :: !looks(k).file.Inaccessible?
    ensures Build(SlotManifest(xs), looks).Got?
    ensures
      var p := Build(SlotManifest(xs), looks).value;
      && (p.ready <==> forall k: nat | k < |xs| :: SlotPresent(looks(k)))
      && (p.ready <==> p.status == StatusReady && p.reason == Ready)
      && (!p.ready <==> p.status == StatusNotReady && p.reason == MediaIncomplete)
      && p.itemsTotal == |xs| && p.itemsFailed == 0 && p.itemsReady + p.itemsMissing == |xs|
  {
    var ok, missing := SlotBuild(xs, looks);
    AssembledExactly(|xs|, ok, missing, 0);
  }

  /** The files after a manifest of slots has been synchronised and the state adapter has just written idle. */
  function FreshFiles(xs: seq<Slot>, looks: nat -> MediaLook, t: DateTime): Files
    requires Valid(t)
  {
    Files(IdleFile(t), Micros(t), SlotManifest(xs), looks)
  }

  lemma FreshSlotsRender(xs: seq<Slot>, looks: nat -> MediaLook, t: DateTime, staleSeconds: int)
    requires xs != [] && AllowedSlots(xs) && (forall k: nat | k < |xs| :: VerifiesKso(looks(k)))
    requires Valid(t) && staleSeconds > 0
    ensures Sort(SlotItems(xs))[0].order >= 0
    ensures BuildSnapshot(staleSeconds, (i: nat) => FreshFiles(xs, looks, t)) == SnapshotOf(Sort(SlotItems(xs))[0])
  {
    var f := FreshFiles(xs, looks, t);
    SlotManifestIsReady(xs, looks);
    IdleFilePlays(t, staleSeconds);
    var k := HeadIsFirstMinimum(SlotItems(xs));
    SlotIsKsoItem(xs[k]);
    FrozenRenderExactly(staleSeconds, f);
  }

  /**
   * From the files to the screen: for every list of slots whose media are present, and a fresh idle
   * state, the pipeline renders the first slot in order, and the loop's own writer would write the
   * same bytes for it.
   */
  lemma SlotsReachTheScreen(xs: seq<Slot>, looks: nat -> MediaLook, t: DateTime, staleSeconds: int) returns (first: nat)
    requires xs != [] && AllowedSlots(xs) && (forall k: nat | k < |xs| :: VerifiesKso(looks(k)))
    requires Valid(t) && staleSeconds > 0
    ensures first < |xs| && forall i | 0 <= i < |xs| ::
        xs[first].order <= xs[i].order && (xs[i].order == xs[first].order ==> first <= i)
    ensures
      var s := BuildSnapshot(staleSeconds, (i: nat) => FreshFiles(xs, looks, t));
      s.render && s == SnapshotOf(SlotItem(xs[first])) && JsContent(Serialize(s)) == LoopContent(SlotItem(xs[first]))
  {
    FreshSlotsRender(xs, looks, t, staleSeconds);
    first := FirstSlot(xs);
    SlotIsKsoItem(xs[first]);
    KsoWritersAgreeExactly(SlotItem(xs[first]));
  }

  lemma LoneSlotRenders(x: Slot, looks: nat -> MediaLook, t: DateTime, staleSeconds: int)
    requires x.contentType in KSO_CONTENT_TYPES && VerifiesKso(looks(0)) && Valid(t) && staleSeconds > 0
    ensures
      var f := FreshFiles([x], looks, t);
      GatePlays(f, staleSeconds) && FirstRenders(f) && FirstItem(f) == SlotItem(x)
  {
    SlotManifestIsReady([x], looks);
    IdleFilePlays(t, staleSeconds);
    SlotIsKsoItem(x);
    assert SlotItems([x]) == [SlotItem(x)];
    var k := HeadIsFirstMinimum(SlotItems([x]));
  }

  /**
   * A manifest with a short image is replaced, in the middle of one build, by one with a long video:
   * the payload says a short image and refers to the video, so it describes neither.
   */
  lemma SlotsAreMixed(looks: nat -> MediaLook, t: DateTime, staleSeconds: int)
    requires VerifiesKso(looks(0)) && Valid(t) && staleSeconds > 0
    ensures
      var x, y := Slot(0, "image/png", 5000), Slot(1, "video/mp4", 70000);
      var s := BuildSnapshot(staleSeconds, Switching(FreshFiles([x], looks, t), FreshFiles([y], looks, t)));
      && s.render && s.mediaType == Image && s.bucket == Short && s.mediaRef == Some(SlotRef(1))
      && !Describes(s, SlotItem(x)) && !Describes(s, SlotItem(y))
  {
    var x, y := Slot(0, "image/png", 5000), Slot(1, "video/mp4", 70000);
    LoneSlotRenders(x, looks, t, staleSeconds);
    LoneSlotRenders(y, looks, t, staleSeconds);
    SlotTypes();
    MixedPayloadExactly(staleSeconds, FreshFiles([x], looks, t), FreshFiles([y], looks, t));
  }

  lemma SlotTypes()
    ensures ClassifyMedia("image/png") == Image && ClassifyMedia("video/mp4") == Video
  {
    TypeIsNormal("image/png");
    TypeIsNormal("video/mp4");
    assert "image/" <= "image/png" && "video/" <= "video/mp4";
  }

  lemma FirstSlot(xs: seq<Slot>) returns (first: nat)
    requires xs != []
    ensures first < |xs| && Sort(SlotItems(xs))[0] == SlotItem(xs[first])
    ensures forall i | 0 <= i < |xs| ::
        xs[first].order <= xs[i].order && (xs[i].order == xs[first].order ==> first <= i)
  {
    first := HeadIsFirstMinimum(SlotItems(xs));
    forall i | 0 <= i < |xs| ensures xs[first].order <= xs[i].order && (xs[i].order == xs[first].order ==> first <= i) {
      assert SlotItems(xs)[first].order <= SlotItems(xs)[i].order;
    }
  }

  lemma SlotIsKsoItem(x: Slot)
    requires x.contentType in KSO_CONTENT_TYPES
    ensures KsoItem(SlotItem(x)) && ClassifyMedia(x.contentType) != UnknownMedia
  {
    SlotExtracts(x);
    KsoTypes();
  }

  /** An alias with a newline behind it is accepted as well, and then the two snapshot writers disagree. */
  lemma NewlineAliasDisagrees(order: nat, contentType: string, durationMs: nat)
    requires contentType in KSO_CONTENT_TYPES
    ensures
      var item := SlotItem(Slot(order, contentType, durationMs)).(mediaRef := SlotRef(order) + "\n");
      KsoItem(item) && LoopContent(item) != JsContent(Serialize(SnapshotOf(item)))
  {
    var item := SlotItem(Slot(order, contentType, durationMs)).(mediaRef := SlotRef(order) + "\n");
    AliasIsAccepted(order);
    SlotRefChars(order);
    FinalNewlineExactly(SlotRef(order));
    KsoWritersAgreeExactly(item);
    assert |item.mediaRef| != |SlotRef(order)|;
  }

  // ---------------------------------------------------------------- the records of slots

  /** Orders and durations of at most 200 digits, and a display from t on that ends before the year 10000. */
  predicate RecordableSlots(xs: seq<Slot>, t: DateTime) {
    Valid(t) && forall i | 0 <= i < |xs| ::
      && xs[i].contentType in KSO_CONTENT_TYPES && |NatText(xs[i].order)| <= 200 && |NatText(xs[i].durationMs)| <= 200
      && AddMs(t, xs[i].durationMs).Some?
  }

  lemma SlotHead(xs: seq<Slot>, playlist: PlayerPlaylist, t: DateTime) returns (first: nat)
    requires xs != [] && RecordableSlots(xs, t) && playlist.items == SlotItems(xs)
    ensures first < |xs| && Head(playlist) == SlotItem(xs[first]) && RecordableItem(Head(playlist))
    ensures AddMs(t, Head(playlist).durationMs).Some?
  {
    first := FirstSlot(xs);
  }

  /** A playlist that is ready, with a first item that can be recorded from t on. */
  predicate ReadyFrom(playlist: PlayerPlaylist, t: DateTime) {
    && WellBuilt(playlist) && playlist.ready && playlist.items != [] && RecordableItem(Head(playlist))
    && Valid(t) && AddMs(t, Head(playlist).durationMs).Some?
  }

  lemma SlotsAreReadyFrom(xs: seq<Slot>, looks: nat -> MediaLook, t: DateTime)
    requires xs != [] && RecordableSlots(xs, t) && (forall k: nat | k < |xs| :: VerifiesKso(looks(k)))
    ensures Build(SlotManifest(xs), looks).Got? && Build(SlotManifest(xs), looks).value.items == SlotItems(xs)
    ensures ReadyFrom(Build(SlotManifest(xs), looks).value, t)
  {
    SlotManifestIsReady(xs, looks);
    BuildConserves(SlotManifest(xs), looks);
    var first := SlotHead(xs, Build(SlotManifest(xs), looks).value, t);
  }

  lemma SlotsPlanRenders(xs: seq<Slot>, looks: nat -> MediaLook, t: DateTime, staleSeconds: int)
    requires xs != [] && RecordableSlots(xs, t) && (forall k: nat | k < |xs| :: VerifiesKso(looks(k)))
    requires staleSeconds > 0
    ensures
      var f := FreshFiles(xs, looks, t);
      Plan(staleSeconds, GateAt(f, staleSeconds), PlaylistAt(f), PlaylistAt(f)).render
  {
    var f := FreshFiles(xs, looks, t);
    SlotsAreReadyFrom(xs, looks, t);
    var first := SlotHead(xs, PlaylistAt(f).value, t);
    SlotIsKsoItem(xs[first]);
    IdleFilePlays(t, staleSeconds);
    PlanExactly(staleSeconds, f, f, f);
  }

  /**
   * The failing case in full: a manifest of slots and an idle file that is fresh when the plan is
   * made. Whatever file is there at the second gate reading, as long as it names the idle state,
   * playback is recorded; and the gate says hold exactly out of that file's window.
   */
  lemma IdleSlotsAreRecorded(xs: seq<Slot>, looks: nat -> MediaLook, t: DateTime, staleSeconds: int,
                             file: StateFile, now: int, completed: bool, created: string, v: DateTime)
    requires xs != [] && RecordableSlots(xs, t) && (forall k: nat | k < |xs| :: VerifiesKso(looks(k)))
    requires staleSeconds > 0 && NamesIdle(file) && Stamp(created, v)
    ensures
      var f := FreshFiles(xs, looks, t);
      var plan := Plan(staleSeconds, GateAt(f, staleSeconds), PlaylistAt(f), PlaylistAt(f));
      var gate := Evaluate(file, staleSeconds, now);
      && plan.render && gate.Got? && (gate.value.action == Hold <==> !InWindow(file, staleSeconds, now))
      && Claims(DisplayAt(staleSeconds, plan, true, file, now, PlaylistAt(f), completed,
                          Print(t) + "+00:00", created, IoWritten))
  {
    var f := FreshFiles(xs, looks, t);
    var plan := Plan(staleSeconds, GateAt(f, staleSeconds), PlaylistAt(f), PlaylistAt(f));
    SlotsAreReadyFrom(xs, looks, t);
    SlotsPlanRenders(xs, looks, t, staleSeconds);
    IdleHoldsExactly(file, staleSeconds, now);
    SafeHeadCanClaim(PlaylistAt(f).value, completed, t, created, v);
    ClaimsExactly(staleSeconds, plan, true, file, now, PlaylistAt(f), completed,
                  Print(t) + "+00:00", created, IoWritten);
  }

  /** In particular when the file has gone stale in between. */
  lemma StaleSlotsAreRecorded(xs: seq<Slot>, looks: nat -> MediaLook, t: DateTime, staleSeconds: int, now: int,
                              completed: bool, created: string, v: DateTime)
    requires xs != [] && RecordableSlots(xs, t) && (forall k: nat | k < |xs| :: VerifiesKso(looks(k)))
    requires staleSeconds > 0 && now >= Micros(t) + (staleSeconds + 1) * 1000000 && Stamp(created, v)
    ensures
      var f := FreshFiles(xs, looks, t);
      var plan := Plan(staleSeconds, GateAt(f, staleSeconds), PlaylistAt(f), PlaylistAt(f));
      var gate := Evaluate(IdleFile(t), staleSeconds, now);
      && plan.render && gate.Got? && gate.value.action == Hold
      && Claims(DisplayAt(staleSeconds, plan, true, IdleFile(t), now, PlaylistAt(f), completed,
                          Print(t) + "+00:00", created, IoWritten))
  {
    IdleFileSince(t);
    StaleIsOutside(IdleFile(t), staleSeconds, Micros(t), now);
    IdleSlotsAreRecorded(xs, looks, t, staleSeconds, IdleFile(t), now, completed, created, v);
  }

  /** A state file without a timestamp. */
  const UNSTAMPED := StateJson(RObj(map["state" := RStr("idle")]))

  /** And, at any time at all, when the file has lost its timestamp. */
  lemma UnstampedSlotsAreRecorded(xs: seq<Slot>, looks: nat -> MediaLook, t: DateTime, staleSeconds: int, now: int,
                                  completed: bool, created: string, v: DateTime)
    requires xs != [] && RecordableSlots(xs, t) && (forall k: nat | k < |xs| :: VerifiesKso(looks(k)))
    requires staleSeconds > 0 && Stamp(created, v)
    ensures
      var f := FreshFiles(xs, looks, t);
      var plan := Plan(staleSeconds, GateAt(f, staleSeconds), PlaylistAt(f), PlaylistAt(f));
      var gate := Evaluate(UNSTAMPED, staleSeconds, now);
      && plan.render && gate.Got? && gate.value.action == Hold && gate.value.reason == MissingUpdatedAt
      && Claims(DisplayAt(staleSeconds, plan, true, UNSTAMPED, now, PlaylistAt(f), completed,
                          Print(t) + "+00:00", created, IoWritten))
  {
    IdleIsNormal();
    var m := UNSTAMPED.raw.m;
    assert Get(m, "state", RNull) == RStr("idle") && Get(m, "updated_at_utc", RNull) == RNull;
    UnstampedIsOutside(UNSTAMPED, staleSeconds, now);
    IdleHoldsExactly(UNSTAMPED, staleSeconds, now);
    IdleSlotsAreRecorded(xs, looks, t, staleSeconds, UNSTAMPED, now, completed, created, v);
  }

  predicate DistinctSlots(xs: seq<Slot>) { forall i, j | 0 <= i < j < |xs| :: xs[i].order != xs[j].order }

  lemma GoodRoundIsRecorded(playlist: PlayerPlaylist, gate: GateResult, t: DateTime, created: string, v: DateTime,
                            cycle: nat)
    requires ReadyFrom(playlist, t) && Sane(gate) && gate.action == Play && Stamp(created, v)
    ensures
      var r := GoodRound(playlist, gate, Print(t) + "+00:00", created);
      && D.Real(r) && D.Displays(r) && D.CycleOf(CONFIRMED, r, cycle).status == Runtime.RenderedWithPop
      && Runtime.RecordFor("idle", r.pop).Some?
  {
    D.CycleExactly(CONFIRMED, GoodRound(playlist, gate, Print(t) + "+00:00", created), cycle);
    SafeHeadIsRecorded(playlist, true, t, created, v);
  }

  /** Such rounds are what the theorem about the records asks for. */
  lemma GoodRoundsAreSteady(playlist: PlayerPlaylist, gate: GateResult, t: DateTime, created: string, v: DateTime)
    requires ReadyFrom(playlist, t) && Sane(gate) && gate.action == Play && Stamp(created, v)
    ensures
      var rounds := GoodRounds(playlist, gate, Print(t) + "+00:00", created, |playlist.items|);
      DR.Steady(CONFIRMED, rounds, 0, |playlist.items|, playlist)
  {
    var rounds := GoodRounds(playlist, gate, Print(t) + "+00:00", created, |playlist.items|);
    forall j | 0 <= j < |rounds|
      ensures D.Real(rounds[j]) && D.Displays(rounds[j]) && Runtime.RecordFor("idle", rounds[j].pop).Some?
      ensures D.CycleOf(CONFIRMED, rounds[j], j).status == Runtime.RenderedWithPop
    {
      GoodRoundIsRecorded(playlist, gate, t, created, v, j);
    }
  }

  /** A manifest of slots and a file that has just been written give such a playlist and such a gate reading. */
  lemma SlotsAreReady(xs: seq<Slot>, looks: nat -> MediaLook, t: DateTime)
    requires xs != [] && RecordableSlots(xs, t) && (forall k: nat | k < |xs| :: VerifiesKso(looks(k)))
    ensures Build(SlotManifest(xs), looks).Got? && Build(SlotManifest(xs), looks).value.items == SlotItems(xs)
    ensures ReadyFrom(Build(SlotManifest(xs), looks).value, t)
    ensures Evaluate(IdleFile(t), 30, Micros(t)).Got? && Sane(Evaluate(IdleFile(t), 30, Micros(t)).value)
    ensures Evaluate(IdleFile(t), 30, Micros(t)).value.action == Play
  {
    SlotsAreReadyFrom(xs, looks, t);
    IdleFilePlays(t, 30);
    EvaluateIsSane(IdleFile(t), 30, Micros(t));
  }

  lemma DistinctSlotOrders(xs: seq<Slot>)
    requires DistinctSlots(xs)
    ensures DistinctOrders(SlotItems(xs))
  {
  }

  lemma GoodRoundsAreMisattributed(playlist: PlayerPlaylist, gate: GateResult, t: DateTime, created: string,
                                   v: DateTime, p: nat)
    requires ReadyFrom(playlist, t) && Sane(gate) && gate.action == Play && Stamp(created, v)
    requires DistinctOrders(playlist.items) && p < |playlist.items|
    ensures
      var n, rounds := |playlist.items|, GoodRounds(playlist, gate, Print(t) + "+00:00", created, |playlist.items|);
      && DR.TimesShown(rounds, 0, n, p) == 1
      && Count(RightRecords(playlist.items, DR.PopsOf(rounds, 0, n), 0), true) == 1
  {
    GoodRoundsAreSteady(playlist, gate, t, created, v);
    var rounds := GoodRounds(playlist, gate, Print(t) + "+00:00", created, |playlist.items|);
    DR.OneRecordInNIsRight(CONFIRMED, rounds, 0, playlist, p);
  }

  /**
   * The misattribution in full: with a manifest of n slots of distinct orders and a fresh idle
   * state, n rounds of the daemon show each slot once, and exactly one of their n records is right.
   */
  lemma SlotsAreMisattributed(xs: seq<Slot>, looks: nat -> MediaLook, t: DateTime, created: string, v: DateTime, p: nat)
    requires xs != [] && RecordableSlots(xs, t) && DistinctSlots(xs) && p < |xs|
    requires (forall k: nat | k < |xs| :: VerifiesKso(looks(k))) && Stamp(created, v)
    ensures Build(SlotManifest(xs), looks).Got? && Evaluate(IdleFile(t), 30, Micros(t)).Got?
    ensures
      var playlist, gate := Build(SlotManifest(xs), looks).value, Evaluate(IdleFile(t), 30, Micros(t)).value;
      var rounds := GoodRounds(playlist, gate, Print(t) + "+00:00", created, |playlist.items|);
      && |rounds| == |xs| && DR.TimesShown(rounds, 0, |xs|, p) == 1
      && Count(RightRecords(SlotItems(xs), DR.PopsOf(rounds, 0, |xs|), 0), true) == 1
  {
    SlotsAreReady(xs, looks, t);
    DistinctSlotOrders(xs);
    var playlist, gate := Build(SlotManifest(xs), looks).value, Evaluate(IdleFile(t), 30, Micros(t)).value;
    GoodRoundsAreMisattributed(playlist, gate, t, created, v, p);
  }
}
