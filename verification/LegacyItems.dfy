// From a legacy manifest to displays that are counted and never recorded.

module LegacyItems {
  import opened Calendar
  import opened Gate
  import opened Parsed
  import opened Playlist
  import opened PopRecord
  import opened Recordable
  import opened Runtime
  import opened Session
  import opened Text
  import opened Timestamp
  import opened Undisturbed
  import D = Daemon
  import DR = DaemonRuns
  import LL = LoopLog

  // ---------------------------------------------------------------- manifests

  /** One entry of a legacy manifest; the size may be missing, and zero says as little. */
  datatype Entry = Entry(
    id: string, filename: string, sha: string, contentType: string, durationMs: nat, order: nat, size: Option<nat>)

  predicate ValidEntry(x: Entry) {
    NonBlank(x.id) && ValidFilename(x.filename) && ShaPattern(x.sha) && NonBlank(x.contentType)
  }

  predicate ValidEntries(xs: seq<Entry>) { forall i | 0 <= i < |xs| :: ValidEntry(xs[i]) }

  function EntryRaw(x: Entry): Raw {
    RObj(map["manifest_item_id" := RStr(x.id), "filename" := RStr(x.filename), "sha256" := RStr(x.sha),
             "content_type" := RStr(x.contentType), "duration_ms" := RInt(x.durationMs), "order" := RInt(x.order),
             "size_bytes" := if x.size.Some? then RInt(x.size.value) else RNull])
  }

  function EntryItem(x: Entry): Item {
    Item("", x.order, x.id, x.filename, x.sha, x.contentType, x.durationMs, x.order,
         if x.size.Some? && x.size.value > 0 then Some(x.size.value) else None, None)
  }

  function EntryRaws(xs: seq<Entry>): (raws: seq<Raw>)
    ensures |raws| == |xs| && forall i | 0 <= i < |xs| :: raws[i] == EntryRaw(xs[i])
  {
    seq(|xs|, i requires 0 <= i < |xs| => EntryRaw(xs[i]))
  }

  function EntryItems(xs: seq<Entry>): (items: seq<Item>)
    ensures |items| == |xs| && forall i | 0 <= i < |xs| :: items[i] == EntryItem(xs[i])
  {
    seq(|xs|, i requires 0 <= i < |xs| => EntryItem(xs[i]))
  }

  function LegacyManifest(xs: seq<Entry>): ManifestFile { Json(RObj(map["items" := RList(EntryRaws(xs))])) }

  lemma EntryTexts(x: Entry)
    ensures
      var m := EntryRaw(x).m;
      && Get(m, "manifest_item_id", RStr("")) == RStr(x.id) && Get(m, "filename", RStr("")) == RStr(x.filename)
      && Get(m, "content_type", RStr("")) == RStr(x.contentType) && Get(m, "sha256", RStr("")) == RStr(x.sha)
  {
  }

  lemma EntryNumbers(x: Entry)
    ensures
      var m := EntryRaw(x).m;
      && Get(m, "duration_ms", RInt(0)) == RInt(x.durationMs) && Get(m, "order", RInt(0)) == RInt(x.order)
      && Get(m, "size_bytes", RNull) == if x.size.Some? then RInt(x.size.value) else RNull
  {
  }

  /** An entry is extracted as it is written, whatever its content type contains. */
  lemma EntryExtracts(x: Entry)
    requires ValidEntry(x)
    ensures Extract(EntryRaw(x), false) == Some(EntryItem(x))
  {
    EntryTexts(x);
    EntryNumbers(x);
  }

  lemma EntriesExtract(xs: seq<Entry>)
    requires ValidEntries(xs)
    ensures Extracted(EntryRaws(xs), false) == EntryItems(xs)
  {
    forall i | 0 <= i < |xs| ensures Extractions(EntryRaws(xs), false)[i] == Some(EntryItems(xs)[i]) {
      EntryExtracts(xs[i]);
    }
    SomesOfAll(EntryItems(xs), Extractions(EntryRaws(xs), false));
  }

  lemma LegacyManifestIsRead(xs: seq<Entry>)
    requires xs != []
    ensures ReachesExtraction(LegacyManifest(xs)) && !IsKsoFormat(LegacyManifest(xs).raw.m)
    ensures RawItems(LegacyManifest(xs)) == EntryRaws(xs)
  {
    var m := LegacyManifest(xs).raw.m;
    assert Get(m, "items", RNull) == RList(EntryRaws(xs));
    assert Get(m, "channel", RStr("")) == RStr("") && |Lower("")| == 0 && |"kso"| == 3;
    forall k | k in m.Keys ensures Lower(k) != "status" {
      assert |Lower(k)| == |k| && |"items"| == 5 && |"status"| == 6;
    }
    assert EntryRaws(xs)[0] == EntryRaw(xs[0]);
    assert "filename" in EntryRaw(xs[0]).m && "mediaRef" !in EntryRaw(xs[0]).m;
  }

  /** A regular file, no link, with the digest of the entry, and with its size if the entry gives a positive one. */
  predicate Sound(x: Entry, look: MediaLook) {
    && look.file.Regular? && !look.symlink && look.file.sha == x.sha
    && (x.size.Some? && x.size.value > 0 ==> look.file.size == x.size.value)
  }

  lemma SoundVerifiesExactly(x: Entry, look: MediaLook)
    ensures VerifiesLegacy(EntryItem(x), look) <==> Sound(x, look)
  {
  }

  /** Every medium is sound. */
  predicate MediaPresent(xs: seq<Entry>, looks: nat -> MediaLook) {
    forall k: nat | k < |xs| :: Sound(xs[k], looks(k))
  }

  /** No look raises. */
  predicate LooksReturn(xs: seq<Entry>, looks: nat -> MediaLook) {
    forall k: nat | k < |xs| :: !looks(k).file.Inaccessible? && (!Sound(xs[k], looks(k)) ==> looks(k).existsLater.Got?)
  }

  /** Something is there, but it is not sound. */
  predicate Corrupted(x: Entry, look: MediaLook) { !Sound(x, look) && look.existsLater == Got(true) }

  /** Nothing is there. */
  predicate Gone(x: Entry, look: MediaLook) { !Sound(x, look) && look.existsLater == Got(false) }

  predicate SomeCorrupted(xs: seq<Entry>, looks: nat -> MediaLook) {
    exists k: nat :: k < |xs| && Corrupted(xs[k], looks(k))
  }

  /** The numbers of sound, missing and corrupted media. */
  datatype Tallied = Tallied(sound: nat, gone: nat, corrupted: nat)

  function TallyMedia(xs: seq<Entry>, looks: nat -> MediaLook): Tallied {
    if xs == [] then Tallied(0, 0, 0)
    else
      var n := |xs| - 1;
      var t := TallyMedia(xs[..n], looks);
      if Sound(xs[n], looks(n)) then t.(sound := t.sound + 1)
      else if looks(n).existsLater == Got(true) then t.(corrupted := t.corrupted + 1)
      else t.(gone := t.gone + 1)
  }

  /** A legacy manifest whose media are present gives a ready playlist of exactly its entries. */
  lemma LegacyManifestIsReady(xs: seq<Entry>, looks: nat -> MediaLook)
    requires xs != [] && ValidEntries(xs) && MediaPresent(xs, looks)
    ensures Build(LegacyManifest(xs), looks).Got?
    ensures Build(LegacyManifest(xs), looks).value.ready
    ensures Build(LegacyManifest(xs), looks).value.items == EntryItems(xs)
  {
    var file := LegacyManifest(xs);
    LegacyManifestIsRead(xs);
    EntriesExtract(xs);
    forall k | 0 <= k < |xs| ensures Verifies(EntryItems(xs)[k], looks(k), false) {
      SoundVerifiesExactly(xs[k], looks(k));
    }
    RaisesExactly(file, looks);
    ReadyExactly(file, looks);
  }

  lemma {:induction false} TallyIsCount(xs: seq<Entry>, looks: nat -> MediaLook)
    requires LooksReturn(xs, looks)
    ensures
      var v, t := Verdicts(EntryItems(xs), looks, false), TallyMedia(xs, looks);
      && Count(v, Verified) == t.sound && Count(v, Missing) == t.gone && Count(v, Failed) == t.corrupted
  {
    if xs != [] {
      var n := |xs| - 1;
      TallyIsCount(xs[..n], looks);
      SoundVerifiesExactly(xs[n], looks(n));
      var v := Verdicts(EntryItems(xs), looks, false);
      assert v[..n] == Verdicts(EntryItems(xs[..n]), looks, false);
    }
  }

  lemma {:induction false} TallySays(xs: seq<Entry>, looks: nat -> MediaLook)
    requires LooksReturn(xs, looks)
    ensures
      var t := TallyMedia(xs, looks);
      && (t.gone + t.corrupted == 0 <==> MediaPresent(xs, looks))
      && (t.corrupted > 0 <==> SomeCorrupted(xs, looks))
      && t.sound + t.gone + t.corrupted == |xs|
  {
    if xs != [] {
      var n := |xs| - 1;
      TallySays(xs[..n], looks);
      if Corrupted(xs[n], looks(n)) {
        assert n < |xs|;
      }
      if k: nat :| k < n && Corrupted(xs[..n][k], looks(k)) {
        assert Corrupted(xs[k], looks(k));
      }
      if k: nat :| k < |xs| && Corrupted(xs[k], looks(k)) {
        assert k < n ==> Corrupted(xs[..n][k], looks(k));
      }
      if MediaPresent(xs, looks) {
        assert MediaPresent(xs[..n], looks);
      }
      if MediaPresent(xs[..n], looks) && Sound(xs[n], looks(n)) {
        forall k: nat | k < |xs| ensures Sound(xs[k], looks(k)) {
          assert k < n ==> Sound(xs[..n][k], looks(k));
        }
      }
    }
  }

  lemma NoLookRaises(xs: seq<Entry>, looks: nat -> MediaLook)
    requires LooksReturn(xs, looks)
    ensures !SomeLookRaises(EntryItems(xs), looks, false)
  {
    forall k | 0 <= k < |xs| ensures !LookRaises(EntryItems(xs)[k], looks(k), false) {
      SoundVerifiesExactly(xs[k], looks(k));
    }
  }

  lemma {:induction false} LegacyBuild(xs: seq<Entry>, looks: nat -> MediaLook, t: Tallied) returns (ok: seq<Item>)
    requires xs != [] && ValidEntries(xs) && LooksReturn(xs, looks) && t == TallyMedia(xs, looks)
    ensures |ok| == t.sound && Build(LegacyManifest(xs), looks) == Got(Assemble(|xs|, ok, t.gone, t.corrupted))
  {
    LegacyManifestIsRead(xs);
    EntriesExtract(xs);
    NoLookRaises(xs, looks);
    BuildFrom(LegacyManifest(xs), looks);
    TallyIsCount(xs, looks);
    TallySays(xs, looks);
    ok := Kept(EntryItems(xs), Verdicts(EntryItems(xs), looks, false));
    CountsAddUp(EntryItems(xs), Verdicts(EntryItems(xs), looks, false));
  }

  /** What a playlist says of media of which all are sound, or some corrupted. */
  predicate SaysOfMedia(p: PlayerPlaylist, sound: bool, corrupted: bool) {
    && (p.ready <==> sound) && (p.ready <==> p.status == StatusReady && p.reason == Ready)
    && (corrupted <==> p.status == StatusError && p.reason == MediaCorrupted)
    && (!corrupted && !sound <==> p.status == StatusNotReady && p.reason == MediaIncomplete)
  }

  lemma CountsSay(total: nat, ok: seq<Item>, t: Tallied, sound: bool, corrupted: bool)
    requires |ok| == t.sound && (corrupted <==> t.corrupted > 0) && (sound <==> t.gone + t.corrupted == 0)
    ensures SaysOfMedia(Assemble(total, ok, t.gone, t.corrupted), sound, corrupted)
  {
    AssembledExactly(total, ok, t.gone, t.corrupted);
  }

  predicate CountsMedia(p: PlayerPlaylist, total: nat, t: Tallied) {
    p.itemsTotal == total && p.itemsReady == t.sound && p.itemsMissing == t.gone && p.itemsFailed == t.corrupted
  }

  lemma NumbersSay(total: nat, ok: seq<Item>, t: Tallied)
    requires |ok| == t.sound
    ensures CountsMedia(Assemble(total, ok, t.gone, t.corrupted), total, t)
  {
    AssembledExactly(total, ok, t.gone, t.corrupted);
  }

  /** The playlist counts the media as they are. */
  lemma {:induction false} LegacyCounts(xs: seq<Entry>, looks: nat -> MediaLook, t: Tallied)
    requires xs != [] && ValidEntries(xs) && LooksReturn(xs, looks) && t == TallyMedia(xs, looks)
    ensures Build(LegacyManifest(xs), looks).Got?
    ensures CountsMedia(Build(LegacyManifest(xs), looks).value, |xs|, t)
  {
    var ok := LegacyBuild(xs, looks, t);
    NumbersSay(|xs|, ok, t);
  }

  /**
   * A legacy manifest is ready exactly if every medium is sound. A medium that is there without being
   * sound, by another digest or size or as a link, makes the playlist corrupted; one that is not
   * there makes it incomplete, unless another one is corrupted.
   */
  lemma {:induction false} LegacyPlaylistExactly(xs: seq<Entry>, looks: nat -> MediaLook)
    requires xs != [] && ValidEntries(xs) && LooksReturn(xs, looks)
    ensures Build(LegacyManifest(xs), looks).Got?
    ensures SaysOfMedia(Build(LegacyManifest(xs), looks).value, MediaPresent(xs, looks), SomeCorrupted(xs, looks))
  {
    var t := TallyMedia(xs, looks);
    var ok := LegacyBuild(xs, looks, t);
    TallySays(xs, looks);
    CountsSay(|xs|, ok, t, MediaPresent(xs, looks), SomeCorrupted(xs, looks));
  }

  /** One medium with another digest is enough. */
  lemma OtherDigestIsCorrupted(xs: seq<Entry>, looks: nat -> MediaLook, k: nat)
    requires ValidEntries(xs) && LooksReturn(xs, looks) && k < |xs|
    requires looks(k).file.Regular? && looks(k).file.sha != xs[k].sha && looks(k).existsLater == Got(true)
    ensures Build(LegacyManifest(xs), looks).Got?
    ensures
      var p := Build(LegacyManifest(xs), looks).value;
      !p.ready && p.status == StatusError && p.reason == MediaCorrupted && p.itemsFailed >= 1
  {
    assert Corrupted(xs[k], looks(k));
    TallySays(xs, looks);
    LegacyPlaylistExactly(xs, looks);
    LegacyCounts(xs, looks, TallyMedia(xs, looks));
  }

  // ---------------------------------------------------------------- runs that record nothing

  predicate Unrecorded(e: Effect) { e.PopTried? ==> RecordFor(e.state, e.pop).None? }

  /** No attempt has a record. */
  predicate NothingRecorded(trace: seq<Effect>) { forall i | 0 <= i < |trace| :: Unrecorded(trace[i]) }

  lemma {:induction false} NoRecords(trace: seq<Effect>)
    requires NothingRecorded(trace)
    ensures LL.RecordsOf(trace) == []
  {
    if trace != [] {
      var n := |trace| - 1;
      assert Unrecorded(trace[n]);
      assert NothingRecorded(trace[..n]);
      NoRecords(trace[..n]);
    }
  }

  lemma {:induction false} NoneInCycles(outs: seq<Cycle>)
    requires forall j | 0 <= j < |outs| :: NothingRecorded(outs[j].effects)
    ensures NothingRecorded(Effects(outs))
  {
    if outs != [] {
      var n := |outs| - 1;
      NoneInCycles(outs[..n]);
      NoneBehind(Effects(outs[..n]), outs[n].effects);
    }
  }

  lemma NoneBehind(a: seq<Effect>, b: seq<Effect>)
    requires NothingRecorded(a) && NothingRecorded(b)
    ensures NothingRecorded(a + b)
  {
  }

  /** Whenever a round tries to record, the first item of the playlist has a forbidden word in its content type. */
  predicate UncleanHead(p: PopInput) {
    && RealPlaylist(p.playlist) && HasItems(p.playlist)
    && !CleanText(Head(p.playlist.value).contentType)
  }

  /** What holds of the last effect, and of all that are no attempts, holds of all. */
  lemma LastDecides(ok: Effect -> bool, trace: seq<Effect>)
    requires trace != [] && ok(trace[|trace| - 1]) && forall i | 0 <= i < |trace| - 1 :: ok(trace[i])
    ensures forall i | 0 <= i < |trace| :: ok(trace[i])
  {
  }

  lemma NoAttempt(e: Effect)
    requires !e.PopTried?
    ensures Unrecorded(e)
  {
  }

  lemma NothingInDisplay(item: Item, write: SnapshotWrite, state: string, p: PopInput)
    requires Unrecorded(PopTried(state, p))
    ensures NothingRecorded(DisplayWithPop(item, write, state, p))
  {
    var trace := DisplayWithPop(item, write, state, p);
    forall i | 0 <= i < |trace| - 1 ensures Unrecorded(trace[i]) {
      NoAttempt(trace[i]);
    }
    LastDecides(Unrecorded, trace);
  }

  lemma UncleanRoundRecordsNothing(cfg: D.Config, r: D.Round, cycle: nat)
    requires D.Real(r) && UncleanHead(r.pop)
    ensures NothingRecorded(D.CycleOf(cfg, r, cycle).effects)
  {
    D.CycleExactly(cfg, r, cycle);
    if D.CycleOf(cfg, r, cycle).status == RenderedWithPop {
      UncleanTypeIsNeverRecorded(r.pop);
      NothingInDisplay(D.ItemOf(r, cycle), r.snapshot, "idle", r.pop);
    } else {
      NothingWithoutAttempt(D.CycleOf(cfg, r, cycle).effects);
    }
  }

  lemma NothingWithoutAttempt(trace: seq<Effect>)
    requires forall e | e in trace :: !e.PopTried?
    ensures NothingRecorded(trace)
  {
  }

  /** A run over such playlists yields no record, whatever it shows and counts. */
  lemma UncleanRunRecordsNothing(cfg: D.Config, rounds: seq<D.Round>, n: nat)
    requires DR.AllReal(rounds) && n <= |rounds| && forall j | 0 <= j < n :: UncleanHead(rounds[j].pop)
    ensures LL.RecordsOf(Effects(D.Outcomes(cfg, rounds)[..n])) == []
  {
    var outs := D.Outcomes(cfg, rounds)[..n];
    forall j | 0 <= j < n ensures NothingRecorded(outs[j].effects) {
      DR.OutcomeAt(cfg, rounds, j);
      UncleanRoundRecordsNothing(cfg, rounds[j], j);
    }
    NoneInCycles(outs);
    NoRecords(Effects(outs));
  }

  // ---------------------------------------------------------------- from the files to such a run

  /** The content type of the entry of lowest order, the first listed one, contains a forbidden word. */
  predicate UncleanFirst(xs: seq<Entry>) {
    exists k :: 0 <= k < |xs| && FirstMinimum(EntryItems(xs), k) && !CleanText(xs[k].contentType)
  }

  lemma UncleanFirstIsHead(xs: seq<Entry>, playlist: PlayerPlaylist)
    requires UncleanFirst(xs) && playlist.items == EntryItems(xs)
    ensures !CleanText(Head(playlist).contentType)
  {
    var k :| 0 <= k < |xs| && FirstMinimum(EntryItems(xs), k) && !CleanText(xs[k].contentType);
    var h := HeadIsFirstMinimum(EntryItems(xs));
    assert h == k;
  }

  /**
   * A legacy manifest whose first entry in order has such a content type, its media present, and an
   * idle file: any number of rounds display their items and count as many PoPs, and have no record.
   */
  lemma UncleanIsCountedNotRecorded(xs: seq<Entry>, looks: nat -> MediaLook, t: DateTime, started: string,
                                    created: string, n: nat)
    requires ValidEntries(xs) && MediaPresent(xs, looks) && UncleanFirst(xs) && Valid(t)
    ensures Build(LegacyManifest(xs), looks).Got? && Evaluate(IdleFile(t), 30, Micros(t)).Got?
    ensures
      var playlist, gate := Build(LegacyManifest(xs), looks).value, Evaluate(IdleFile(t), 30, Micros(t)).value;
      var rounds := GoodRounds(playlist, gate, started, created, n);
      var outs := D.Outcomes(CONFIRMED, rounds)[..n];
      && (forall j | 0 <= j < n :: D.Displays(rounds[j]))
      && Tally(Statuses(outs)).pops == n && LL.RecordsOf(Effects(outs)) == []
  {
    LegacyManifestIsReady(xs, looks);
    BuildConserves(LegacyManifest(xs), looks);
    IdleFilePlays(t, 30);
    EvaluateIsSane(IdleFile(t), 30, Micros(t));
    UncleanFirstIsHead(xs, Build(LegacyManifest(xs), looks).value);
    SteadyUncleanRounds(Build(LegacyManifest(xs), looks).value, Evaluate(IdleFile(t), 30, Micros(t)).value,
                        started, created, n);
  }

  lemma SteadyUncleanRounds(playlist: PlayerPlaylist, gate: GateResult, started: string, created: string, n: nat)
    requires WellBuilt(playlist) && HasItems(Got(playlist)) && Sane(gate) && gate.action == Play
    requires !CleanText(Head(playlist).contentType)
    ensures
      var rounds := GoodRounds(playlist, gate, started, created, n);
      var outs := D.Outcomes(CONFIRMED, rounds)[..n];
      && (forall j | 0 <= j < n :: D.Displays(rounds[j]))
      && Tally(Statuses(outs)).pops == n && LL.RecordsOf(Effects(outs)) == []
  {
    GoodRoundsAreCounted(playlist, gate, started, created, n);
    UncleanRunRecordsNothing(CONFIRMED, GoodRounds(playlist, gate, started, created, n), n);
  }

  // ---------------------------------------------------------------- one such manifest

  const DIGEST: string := seq(64, _ => '0')

  /** A picture in a camera's raw format. */
  const RAW_PICTURE := Entry("1", "x", DIGEST, "image/x-panasonic-raw", 5000, 0, None)

  const PRESENT := MediaLook(Regular(DIGEST, 1), false, Got(true))

  lemma RawPictureIsValid()
    ensures ValidEntry(RAW_PICTURE) && Sound(RAW_PICTURE, PRESENT)
  {
    assert Strip("1") == "1" && Strip("x") == "x" && Strip("image/x-panasonic-raw") == "image/x-panasonic-raw";
    ShortIsHarmless();
  }

  /** A name of one character contains no word of two or more. */
  lemma ShortIsHarmless()
    ensures !IsForbidden("x") && !Traversal("x")
  {
    forall k | 0 <= k < |FORBIDDEN| ensures |FORBIDDEN[k]| > 1 {
    }
    assert |Lower("x")| == 1 && |".."| == 2;
  }

  lemma RawPictureIsFirst()
    ensures UncleanFirst([RAW_PICTURE])
  {
    PanasonicIsUnclean();
    assert EntryItems([RAW_PICTURE]) == [EntryItem(RAW_PICTURE)];
    assert FirstMinimum(EntryItems([RAW_PICTURE]), 0) && [RAW_PICTURE][0] == RAW_PICTURE;
  }

  /** That picture alone: n displays, n PoPs counted, and no record. */
  lemma RawPictureIsNeverRecorded(t: DateTime, started: string, created: string, n: nat)
    requires Valid(t)
    ensures Build(LegacyManifest([RAW_PICTURE]), (k: nat) => PRESENT).Got?
    ensures Evaluate(IdleFile(t), 30, Micros(t)).Got?
    ensures
      var playlist := Build(LegacyManifest([RAW_PICTURE]), (k: nat) => PRESENT).value;
      var gate := Evaluate(IdleFile(t), 30, Micros(t)).value;
      var rounds := GoodRounds(playlist, gate, started, created, n);
      var outs := D.Outcomes(CONFIRMED, rounds)[..n];
      && (forall j | 0 <= j < n :: D.Displays(rounds[j]))
      && Tally(Statuses(outs)).pops == n && LL.RecordsOf(Effects(outs)) == []
  {
    RawPictureIsValid();
    RawPictureIsFirst();
    UncleanIsCountedNotRecorded([RAW_PICTURE], (k: nat) => PRESENT, t, started, created, n);
  }
}
