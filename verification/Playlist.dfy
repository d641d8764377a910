// playlist.py: from the manifest file and the media cache to a playlist.

module Playlist {
  import opened Parsed
  import opened Text

  // ---------------------------------------------------------------- inputs

  /** One read of the manifest file; Unreadable is an OSError, which no caller up to build_playlist catches. */
  datatype ManifestFile = NoManifest | Unreadable | NotJson | Json(raw: Raw)

  /** One look at a media file; Path.exists raises for a path that cannot be examined, such as one that is too long. */
  datatype MediaFile = Absent | Directory | BadFile | Inaccessible | Regular(sha: string, size: nat)

  /** The two looks a failed verification takes: at the file, and once more whether it exists. */
  datatype MediaLook = MediaLook(file: MediaFile, symlink: bool, existsLater: Read<bool>)

  datatype Item = Item(
    mediaRef: string,
    slotOrder: int,
    manifestItemId: string,
    filename: string,
    sha256: string,
    contentType: string,
    durationMs: int,
    order: int,
    sizeBytes: Option<int>,
    creativeCode: Option<string>)

  datatype Reason =
    | Ready | ManifestMissing | ManifestInvalid | MediaIncomplete | MediaCorrupted | NoMediaItems

  datatype Status = StatusReady | StatusNotReady | StatusError

  datatype PlayerPlaylist = PlayerPlaylist(
    ready: bool,
    status: Status,
    reason: Reason,
    itemsTotal: nat,
    itemsReady: nat,
    itemsMissing: nat,
    itemsFailed: nat,
    items: seq<Item>)

  const FORBIDDEN: seq<string> := [
    "token", "jwt", "password", "secret", "api_key",
    "private_key", "payment_card", "receipt",
    "local_path", "file_path", "authorization", "bearer",
    "device_secret", "access_token",
    "media_path", "creatives/",
    "backend_base_url", "127.0.0.1", "device_code"]

  const UNSAFE_IN_MEDIA_REF: seq<string> := [
    "..", "~", "\\", "://", "file:", "http:", "https:", "%2e", "%2f", "%2E", "%2F"]

  // ---------------------------------------------------------------- field validators

  predicate IsForbidden(value: string) { ContainsAny(Lower(value), FORBIDDEN) }

  predicate NonBlank(s: string) { Strip(s) != "" }

  predicate MediaRefChar(c: char) {
    'a' <= c <= 'z' || '0' <= c <= '9' || c == '/' || c == '_' || c == '-'
  }

  /** re.match("^[a-z0-9/_-]+$"): Python's `$` also matches before one final newline. */
  predicate MediaRefPattern(s: string) {
    if s != "" && s[|s| - 1] == '\n' then MediaRefBody(s[..|s| - 1]) else MediaRefBody(s)
  }

  predicate MediaRefBody(s: string) { s != "" && forall i | 0 <= i < |s| :: MediaRefChar(s[i]) }

  predicate ValidMediaRef(s: string) {
    && NonBlank(s) && s[..1] != "/" && MediaRefPattern(s)
    && !ContainsAny(Lower(s), UNSAFE_IN_MEDIA_REF) && !IsForbidden(s)
  }

  predicate HexDigit(c: char) { IsDigit(c) || 'a' <= c <= 'f' || 'A' <= c <= 'F' }

  /** re.match("^[0-9a-fA-F]{64}$"), with the same final newline. */
  predicate ShaPattern(s: string) {
    && (|s| == 64 || (|s| == 65 && s[64] == '\n'))
    && forall i | 0 <= i < 64 :: HexDigit(s[i])
  }

  predicate Traversal(s: string) {
    || Contains(s, "..") || '\\' in s || '/' in s
    || (|s| >= 2 && s[1] == ':' && ('A' <= s[0] <= 'Z' || 'a' <= s[0] <= 'z'))
  }

  predicate ValidFilename(s: string) { NonBlank(s) && !Traversal(s) && !IsForbidden(s) }

  const KSO_CONTENT_TYPES: set<string> := {"image/png", "image/jpeg", "video/mp4"}

  // ---------------------------------------------------------------- extraction

  /** _extract_item: a legacy item, or None for the ValueError. */
  function ExtractLegacy(raw: Raw): Option<Item> {
    if !raw.RObj? then None
    else
      var mid := Get(raw.m, "manifest_item_id", RStr(""));
      var file := Get(raw.m, "filename", RStr(""));
      var ct := Get(raw.m, "content_type", RStr(""));
      var sha := Get(raw.m, "sha256", RStr(""));
      var dur := AsInt(Get(raw.m, "duration_ms", RInt(0)));
      var order := AsInt(Get(raw.m, "order", RInt(0)));
      var size := Get(raw.m, "size_bytes", RInt(0));
      if !mid.RStr? || !NonBlank(mid.s) || !file.RStr? || !ValidFilename(file.s) then None
      else if !ct.RStr? || !NonBlank(ct.s) || !sha.RStr? || !ShaPattern(sha.s) then None
      else if dur.None? || dur.value < 0 || order.None? || order.value < 0 then None
      else if !size.RNull? && (AsInt(size).None? || AsInt(size).value < 0) then None
      else
        var known := !size.RNull? && AsInt(size).value > 0;
        Some(Item("", order.value, mid.s, file.s, sha.s, ct.s, dur.value, order.value,
                  if known then AsInt(size) else None, None))
  }

  /** _extract_kso_item: a KSO safe item, or None for the ValueError. */
  function ExtractKso(raw: Raw): (item: Option<Item>)
    ensures item.Some? ==> KsoItem(item.value)
  {
    if !raw.RObj? then None
    else
      var slot := AsInt(Get(raw.m, "slotOrder", RNull));
      var ct := Get(raw.m, "contentType", RStr(""));
      var dur := AsInt(Get(raw.m, "durationMs", RInt(0)));
      var mediaRef := Get(raw.m, "mediaRef", RStr(""));
      var code := Get(raw.m, "creativeCode", RNull);
      if slot.None? || slot.value < 0 || !ct.RStr? || !NonBlank(ct.s) then None
      else
        var mime := Lower(Strip(ct.s));
        NormalizeTwice(ct.s);
        if Lower(Strip(mime)) !in KSO_CONTENT_TYPES then None
        else if dur.None? || dur.value < 0 || !mediaRef.RStr? || !ValidMediaRef(mediaRef.s) then None
        else if code.RStr? && NonBlank(code.s) && IsForbidden(Strip(code.s)) then None
        else if IsForbidden(mime) then None
        else
          Some(Item(mediaRef.s, slot.value, "", "", "", mime, dur.value, slot.value, None,
                    if code.RStr? && NonBlank(code.s) then Some(Strip(code.s)) else None))
  }

  function Extract(raw: Raw, kso: bool): (item: Option<Item>)
    ensures item.Some? ==> item.value.order >= 0 && item.value.durationMs >= 0
    ensures item.Some? ==> item.value.slotOrder == item.value.order
    ensures item.Some? && kso ==> KsoItem(item.value)
  {
    if kso then ExtractKso(raw) else ExtractLegacy(raw)
  }

  /** What the KSO extractor guarantees of an item. */
  predicate KsoItem(item: Item) {
    && item.order >= 0 && item.durationMs >= 0 && ValidMediaRef(item.mediaRef)
    && item.contentType in KSO_CONTENT_TYPES
  }

  // ---------------------------------------------------------------- media verification

  /** _verify_kso_media: existence only, links allowed. */
  predicate VerifiesKso(look: MediaLook) {
    !look.file.Absent? && !look.file.Inaccessible? && (!look.file.Directory? || look.symlink)
  }

  /** _verify_media_file: a regular file, no link, with the manifest's digest and size. */
  predicate VerifiesLegacy(item: Item, look: MediaLook) {
    && look.file.Regular? && !look.symlink && look.file.sha == item.sha256
    && (item.sizeBytes.Some? && item.sizeBytes.value > 0 ==> look.file.size == item.sizeBytes.value)
  }

  predicate Verifies(item: Item, look: MediaLook, kso: bool) {
    if kso then VerifiesKso(look) else VerifiesLegacy(item, look)
  }

  /** The look raises, and nothing up to the caller of build_playlist catches it. */
  predicate LookRaises(item: Item, look: MediaLook, kso: bool) {
    look.file.Inaccessible? || (!kso && !VerifiesLegacy(item, look) && look.existsLater.Raises?)
  }

  predicate SomeLookRaises(items: seq<Item>, looks: nat -> MediaLook, kso: bool) {
    exists k | 0 <= k < |items| :: LookRaises(items[k], looks(k), kso)
  }

  // ---------------------------------------------------------------- format detection

  predicate HasKey(m: map<string, Raw>, lower: string) {
    exists k | k in m.Keys :: Lower(k) == lower
  }

  predicate IsGatewayWrapper(m: map<string, Raw>) { HasKey(m, "status") && HasKey(m, "manifest") }

  predicate ChannelIsKso(m: map<string, Raw>) {
    var channel := Get(m, "channel", RStr(""));
    channel.RStr? && Lower(channel.s) == "kso"
  }

  /** The channel check applies only to a channel that is a string. */
  predicate ChannelRejected(m: map<string, Raw>) {
    Get(m, "channel", RStr("")).RStr? && !ChannelIsKso(m)
  }

  /** _is_kso_safe_format, decided by the first item and then by the channel. */
  predicate IsKsoFormat(m: map<string, Raw>) {
    var items := Get(m, "items", RNull);
    if !items.RList? || items.xs == [] then ChannelIsKso(m)
    else if !items.xs[0].RObj? then false
    else
      var first := items.xs[0].m;
      var hasRef := "mediaRef" in first;
      var hasFile := "filename" in first || "manifest_item_id" in first;
      if hasRef && !hasFile then true
      else if hasFile && !hasRef then false
      else ChannelIsKso(m)
  }

  /** _read_manifest succeeded with an object that has an item list. */
  predicate ValidManifest(file: ManifestFile) {
    && file.Json? && file.raw.RObj? && !IsGatewayWrapper(file.raw.m)
    && Get(file.raw.m, "items", RNull).RList?
  }

  function RawItems(file: ManifestFile): seq<Raw>
    requires ValidManifest(file)
  {
    Get(file.raw.m, "items", RNull).xs
  }

  // ---------------------------------------------------------------- build_playlist

  function Extractions(raws: seq<Raw>, kso: bool): (r: seq<Option<Item>>)
    ensures |r| == |raws| && forall k | 0 <= k < |raws| :: r[k] == Extract(raws[k], kso)
  {
    seq(|raws|, k requires 0 <= k < |raws| => Extract(raws[k], kso))
  }

  /** The items that extract, in manifest order. */
  function Extracted(raws: seq<Raw>, kso: bool): seq<Item> { Somes(Extractions(raws, kso)) }

  datatype Verdict = Verified | Missing | Failed

  /** What build_playlist makes of one extracted item. */
  function Judge(item: Item, look: MediaLook, kso: bool): Verdict {
    if Verifies(item, look, kso) then Verified
    else if kso || look.existsLater != Got(true) then Missing
    else Failed
  }

  /** looks(k) is the look at the k-th extracted item. */
  function Verdicts(items: seq<Item>, looks: nat -> MediaLook, kso: bool): (r: seq<Verdict>)
    ensures |r| == |items| && forall k | 0 <= k < |items| :: r[k] == Judge(items[k], looks(k), kso)
  {
    seq(|items|, k requires 0 <= k < |items| => Judge(items[k], looks(k), kso))
  }

  /** The items whose verdict is Verified, in order. */
  function Kept(items: seq<Item>, verdicts: seq<Verdict>): seq<Item>
    requires |items| == |verdicts|
  {
    Somes(Keeping(items, verdicts))
  }

  function Keeping(items: seq<Item>, verdicts: seq<Verdict>): (r: seq<Option<Item>>)
    requires |items| == |verdicts|
    ensures |r| == |items|
    ensures forall k | 0 <= k < |items| :: r[k] == if verdicts[k].Verified? then Some(items[k]) else None
  {
    seq(|items|, k requires 0 <= k < |items| => if verdicts[k].Verified? then Some(items[k]) else None)
  }

  function NoPlaylist(status: Status, reason: Reason, total: nat): PlayerPlaylist {
    PlayerPlaylist(false, status, reason, total, 0, 0, 0, [])
  }

  /** The status of a playlist whose items have been verified. */
  function Assemble(total: nat, ok: seq<Item>, missing: nat, failed: nat): PlayerPlaylist {
    if failed > 0 then PlayerPlaylist(false, StatusError, MediaCorrupted, total, |ok|, missing, failed, ok)
    else if missing > 0 then PlayerPlaylist(false, StatusNotReady, MediaIncomplete, total, |ok|, missing, 0, ok)
    else PlayerPlaylist(true, StatusReady, Ready, total, |ok|, 0, 0, ok)
  }

  /** The playlist of one reading of the manifest and of the media cache. */
  function Build(file: ManifestFile, looks: nat -> MediaLook): Read<PlayerPlaylist> {
    if file.Unreadable? then Raises
    else if file.NoManifest? then Got(NoPlaylist(StatusNotReady, ManifestMissing, 0))
    else if !ValidManifest(file) then Got(NoPlaylist(StatusError, ManifestInvalid, 0))
    else
      var raws := RawItems(file);
      var kso := IsKsoFormat(file.raw.m);
      if raws == [] then Got(NoPlaylist(StatusNotReady, NoMediaItems, 0))
      else if kso && ChannelRejected(file.raw.m) then Got(NoPlaylist(StatusError, ManifestInvalid, |raws|))
      else
        var extracted := Extracted(raws, kso);
        if extracted == [] then Got(NoPlaylist(StatusError, ManifestInvalid, |raws|))
        else if SomeLookRaises(extracted, looks, kso) then Raises
        else
          var verdicts := Verdicts(extracted, looks, kso);
          Got(Assemble(|raws|, Kept(extracted, verdicts), Count(verdicts, Missing), Count(verdicts, Failed)))
  }

  /** The first loop of build_playlist. */
  method ExtractItems(raws: seq<Raw>, kso: bool) returns (extracted: seq<Item>)
    ensures extracted == Extracted(raws, kso)
  {
    extracted := [];
    ghost var all := Extractions(raws, kso);
    for idx := 0 to |raws|
      invariant extracted == Somes(all[..idx])
    {
      var item := Extract(raws[idx], kso);
      if item.Some? {
        extracted := extracted + [item.value];
      }
      SomesStep(all, idx);
    }
    assert all[..|raws|] == all;
  }

  lemma VerdictStep(items: seq<Item>, looks: nat -> MediaLook, kso: bool, i: nat)
    requires i < |items|
    ensures
      var verdicts, v := Verdicts(items, looks, kso), Judge(items[i], looks(i), kso);
      && Somes(Keeping(items, verdicts)[..i + 1])
         == Somes(Keeping(items, verdicts)[..i]) + (if v == Verified then [items[i]] else [])
      && Count(verdicts[..i + 1], Missing) == Count(verdicts[..i], Missing) + (if v == Missing then 1 else 0)
      && Count(verdicts[..i + 1], Failed) == Count(verdicts[..i], Failed) + (if v == Failed then 1 else 0)
  {
    var verdicts := Verdicts(items, looks, kso);
    SomesStep(Keeping(items, verdicts), i);
    CountStep(verdicts, i, Missing);
    CountStep(verdicts, i, Failed);
  }

  /** The second loop of build_playlist; it ends at the first look that raises. */
  method VerifyItems(items: seq<Item>, looks: nat -> MediaLook, kso: bool)
    returns (raised: bool, ready: seq<Item>, missing: nat, failed: nat)
    ensures raised <==> SomeLookRaises(items, looks, kso)
    ensures !raised ==>
      var verdicts := Verdicts(items, looks, kso);
      && ready == Kept(items, verdicts)
      && missing == Count(verdicts, Missing) && failed == Count(verdicts, Failed)
  {
    raised, ready, missing, failed := false, [], 0, 0;
    ghost var verdicts := Verdicts(items, looks, kso);
    ghost var all := Keeping(items, verdicts);
    for i := 0 to |items|
      invariant !raised && forall k | 0 <= k < i :: !LookRaises(items[k], looks(k), kso)
      invariant ready == Somes(all[..i])
      invariant missing == Count(verdicts[..i], Missing) && failed == Count(verdicts[..i], Failed)
    {
      if LookRaises(items[i], looks(i), kso) {
        raised := true;
        return;
      }
      if Verifies(items[i], looks(i), kso) {
        ready := ready + [items[i]];
      } else if kso || looks(i).existsLater != Got(true) {
        missing := missing + 1;
      } else {
        failed := failed + 1;
      }
      VerdictStep(items, looks, kso, i);
    }
    assert all[..|items|] == all && verdicts[..|items|] == verdicts;
  }

  /** build_playlist. */
  method BuildPlaylist(file: ManifestFile, looks: nat -> MediaLook) returns (r: Read<PlayerPlaylist>)
    ensures r == Build(file, looks)
  {
    if file.Unreadable? { return Raises; }
    if file.NoManifest? { return Got(NoPlaylist(StatusNotReady, ManifestMissing, 0)); }
    if !ValidManifest(file) { return Got(NoPlaylist(StatusError, ManifestInvalid, 0)); }
    var raws := RawItems(file);
    if |raws| == 0 { return Got(NoPlaylist(StatusNotReady, NoMediaItems, 0)); }
    var kso := IsKsoFormat(file.raw.m);
    if kso && ChannelRejected(file.raw.m) { return Got(NoPlaylist(StatusError, ManifestInvalid, |raws|)); }
    var extracted := ExtractItems(raws, kso);
    if extracted == [] { return Got(NoPlaylist(StatusError, ManifestInvalid, |raws|)); }
    var raised, ready, missing, failed := VerifyItems(extracted, looks, kso);
    if raised { return Raises; }
    return Got(Assemble(|raws|, ready, missing, failed));
  }

  // ---------------------------------------------------------------- properties

  /** Every extracted item is counted exactly once: as verified, as missing or as failed. */
  lemma {:induction false} CountsAddUp(items: seq<Item>, verdicts: seq<Verdict>)
    requires |items| == |verdicts|
    ensures |Kept(items, verdicts)| + Count(verdicts, Missing) + Count(verdicts, Failed) == |items|
    ensures forall k | 0 <= k < |Kept(items, verdicts)| :: Kept(items, verdicts)[k] in items
  {
    if items != [] {
      var n := |items| - 1;
      CountsAddUp(items[..n], verdicts[..n]);
      assert Keeping(items, verdicts)[..n] == Keeping(items[..n], verdicts[..n]);
    }
  }

  /** The playlist's items, as positions in the manifest: order kept, nothing invented, nothing else dropped. */
  lemma ItemsAreTheOrderedPart(raws: seq<Raw>, looks: nat -> MediaLook, kso: bool)
    returns (from: seq<nat>, at: seq<nat>)
    ensures
      var extracted := Extracted(raws, kso);
      var items := Kept(extracted, Verdicts(extracted, looks, kso));
      && |from| == |extracted| && |at| == |items|
      && Increasing(from) && Increasing(at)
      && (forall j | 0 <= j < |at| ::
            && at[j] < |from| && from[at[j]] < |raws|
            && Extract(raws[from[at[j]]], kso) == Some(items[j]))
      && (forall k | 0 <= k < |raws| && Extract(raws[k], kso).Some? :: k in from)
      && (forall k | 0 <= k < |extracted| && Verifies(extracted[k], looks(k), kso) :: k in at)
  {
    var extractions := Extractions(raws, kso);
    var extracted := Extracted(raws, kso);
    var keeping := Keeping(extracted, Verdicts(extracted, looks, kso));
    from, at := Positions(extractions), Positions(keeping);
    PositionsIncrease(extractions);
    PositionsIncrease(keeping);
    forall j | 0 <= j < |at|
      ensures Extract(raws[from[at[j]]], kso) == Some(Somes(keeping)[j])
    {
      PositionsHold(keeping, j);
      PositionsHold(extractions, at[j]);
    }
    forall k | 0 <= k < |raws| && Extract(raws[k], kso).Some?
      ensures k in from
    {
      PositionsComplete(extractions, k);
    }
    forall k | 0 <= k < |extracted| && Verifies(extracted[k], looks(k), kso)
      ensures k in at
    {
      PositionsComplete(keeping, k);
    }
  }

  /** The manifest got as far as the extraction of its items. */
  predicate ReachesExtraction(file: ManifestFile) {
    && ValidManifest(file) && RawItems(file) != []
    && !(IsKsoFormat(file.raw.m) && ChannelRejected(file.raw.m))
  }

  /** What every playlist that build_playlist returns satisfies. */
  predicate WellBuilt(p: PlayerPlaylist) {
    && p.itemsReady == |p.items|
    && (forall item | item in p.items :: item.order >= 0 && item.durationMs >= 0)
    && (p.ready <==> p.status.StatusReady?) && (p.ready <==> p.reason.Ready?)
    && (p.ready ==> p.items != [] && p.itemsMissing == 0 && p.itemsFailed == 0)
    && p.itemsReady + p.itemsMissing + p.itemsFailed <= p.itemsTotal
  }

  /**
   * build_playlist conserves items. Past extraction, verified + missing + failed is the
   * number of extracted items, and the playlist holds exactly the verified ones.
   */
  lemma BuildConserves(file: ManifestFile, looks: nat -> MediaLook)
    requires Build(file, looks).Got?
    ensures WellBuilt(Build(file, looks).value)
    ensures ReachesExtraction(file) ==>
      var p := Build(file, looks).value;
      var kso := IsKsoFormat(file.raw.m);
      var extracted := Extracted(RawItems(file), kso);
      && p.itemsTotal == |RawItems(file)|
      && p.itemsReady + p.itemsMissing + p.itemsFailed == |extracted|
      && p.items == Kept(extracted, Verdicts(extracted, looks, kso))
    ensures !ReachesExtraction(file) ==> Build(file, looks).value.items == []
  {
    if ReachesExtraction(file) {
      var kso := IsKsoFormat(file.raw.m);
      var extracted := Extracted(RawItems(file), kso);
      var verdicts := Verdicts(extracted, looks, kso);
      ExtractedAreSane(RawItems(file), kso);
      CountsAddUp(extracted, verdicts);
      var ok := Kept(extracted, verdicts);
      forall item | item in ok
        ensures item in extracted
      {
        var k :| 0 <= k < |ok| && ok[k] == item;
      }
      if extracted != [] {
        AssembledWell(|RawItems(file)|, ok, Count(verdicts, Missing), Count(verdicts, Failed));
      }
    }
  }

  lemma AssembledWell(total: nat, ok: seq<Item>, missing: nat, failed: nat)
    requires 0 < |ok| + missing + failed <= total
    requires forall item | item in ok :: item.order >= 0 && item.durationMs >= 0
    ensures WellBuilt(Assemble(total, ok, missing, failed))
    ensures Assemble(total, ok, missing, failed).itemsReady + Assemble(total, ok, missing, failed).itemsMissing
         + Assemble(total, ok, missing, failed).itemsFailed == |ok| + missing + failed
  {
  }

  lemma ExtractedAreSane(raws: seq<Raw>, kso: bool)
    ensures forall item | item in Extracted(raws, kso) ::
      item.order >= 0 && item.durationMs >= 0 && (kso ==> KsoItem(item))
  {
    forall item | item in Extracted(raws, kso)
      ensures item.order >= 0 && item.durationMs >= 0 && (kso ==> KsoItem(item))
    {
      var j: nat :| j < |Extracted(raws, kso)| && Extracted(raws, kso)[j] == item;
      PositionsHold(Extractions(raws, kso), j);
    }
  }

  /**
   * build_playlist raises exactly if the manifest cannot be read, or a media file of an extracted item
   * not be examined.
   */
  lemma RaisesExactly(file: ManifestFile, looks: nat -> MediaLook)
    ensures Build(file, looks).Raises? <==>
      || file.Unreadable?
      || (ReachesExtraction(file)
          && SomeLookRaises(Extracted(RawItems(file), IsKsoFormat(file.raw.m)), looks, IsKsoFormat(file.raw.m)))
  {
    if ReachesExtraction(file) {
      var extracted := Extracted(RawItems(file), IsKsoFormat(file.raw.m));
      assert extracted == [] ==> !SomeLookRaises(extracted, looks, IsKsoFormat(file.raw.m));
    }
  }

  lemma BuildFrom(file: ManifestFile, looks: nat -> MediaLook)
    requires ReachesExtraction(file)
    requires Extracted(RawItems(file), IsKsoFormat(file.raw.m)) != []
    requires !SomeLookRaises(Extracted(RawItems(file), IsKsoFormat(file.raw.m)), looks, IsKsoFormat(file.raw.m))
    ensures
      var kso := IsKsoFormat(file.raw.m);
      var items := Extracted(RawItems(file), kso);
      var v := Verdicts(items, looks, kso);
      Build(file, looks) == Got(Assemble(|RawItems(file)|, Kept(items, v), Count(v, Missing), Count(v, Failed)))
  {
  }

  /** What the counts of the verdicts make of a playlist. */
  lemma AssembledExactly(total: nat, ok: seq<Item>, missing: nat, failed: nat)
    ensures
      var p := Assemble(total, ok, missing, failed);
      && (p.ready <==> missing == 0 && failed == 0) && (p.ready <==> p.status == StatusReady && p.reason == Ready)
      && (failed > 0 <==> p.status == StatusError && p.reason == MediaCorrupted)
      && (failed == 0 && missing > 0 <==> p.status == StatusNotReady && p.reason == MediaIncomplete)
      && p.itemsTotal == total && p.itemsReady == |ok| && p.itemsMissing == missing && p.itemsFailed == failed
      && p.items == ok
  {
  }

  /**
   * A playlist is ready exactly when the manifest is accepted, at least one item extracts and
   * every item that extracts verifies; items that do not extract never block it.
   */
  lemma ReadyExactly(file: ManifestFile, looks: nat -> MediaLook)
    requires Build(file, looks).Got?
    ensures
      Build(file, looks).value.ready <==>
        && ReachesExtraction(file)
        && var extracted := Extracted(RawItems(file), IsKsoFormat(file.raw.m));
           && extracted != []
           && forall k | 0 <= k < |extracted| :: Verifies(extracted[k], looks(k), IsKsoFormat(file.raw.m))
    ensures Build(file, looks).value.ready ==>
      Build(file, looks).value.items == Extracted(RawItems(file), IsKsoFormat(file.raw.m))
  {
    if ReachesExtraction(file) {
      var kso := IsKsoFormat(file.raw.m);
      var extracted := Extracted(RawItems(file), kso);
      var verdicts := Verdicts(extracted, looks, kso);
      CountsAddUp(extracted, verdicts);
      CountZero(verdicts, Missing);
      CountZero(verdicts, Failed);
      if forall k | 0 <= k < |extracted| :: verdicts[k].Verified? {
        SomesOfAll(extracted, Keeping(extracted, verdicts));
      } else {
        var k :| 0 <= k < |extracted| && !verdicts[k].Verified?;
        assert verdicts[k] in verdicts;
      }
    }
  }

  /** An accepted mediaRef has one quirk: a final newline passes the whitelist. */
  lemma MediaRefAlphabet(s: string)
    requires ValidMediaRef(s)
    ensures forall i | 0 <= i < |s| :: MediaRefChar(s[i]) || (i == |s| - 1 && s[i] == '\n')
    ensures s[0] != '/'
  {
    var n := |s| - 1;
    assert MediaRefPattern(s);
    if s[n] == '\n' {
      assert forall i | 0 <= i < n :: s[i] == s[..n][i];
    }
    assert s[..1] == [s[0]];
  }

  lemma LowerAppend(s: string)
    ensures Lower(s + "\n") == Lower(s) + "\n"
  {
  }

  /** A word that does not end with a newline is found with a final newline exactly if without. */
  lemma ContainsBeforeNewline(s: string, word: string)
    requires word != "" && word[|word| - 1] != '\n'
    ensures Contains(s + "\n", word) <==> Contains(s, word)
  {
    var t, n := s + "\n", |word|;
    forall i | 0 <= i <= |t| - n ensures OccursAt(t, word, i) <==> i + n <= |s| && OccursAt(s, word, i) {
      if i + n <= |s| {
        assert t[i..i + n] == s[i..i + n];
      } else {
        assert t[i..i + n][n - 1] == '\n';
      }
    }
    if Contains(t, word) {
      var i :| 0 <= i <= |t| - n && OccursAt(t, word, i);
      assert OccursAt(s, word, i);
    }
    if Contains(s, word) {
      var i :| 0 <= i <= |s| - n && OccursAt(s, word, i);
      assert OccursAt(t, word, i);
    }
  }

  lemma WordsEndPlainly(k: nat)
    ensures k < |FORBIDDEN| ==> FORBIDDEN[k] != "" && FORBIDDEN[k][|FORBIDDEN[k]| - 1] != '\n'
    ensures k < |UNSAFE_IN_MEDIA_REF| ==>
      UNSAFE_IN_MEDIA_REF[k] != "" && UNSAFE_IN_MEDIA_REF[k][|UNSAFE_IN_MEDIA_REF[k]| - 1] != '\n'
  {
  }

  lemma SameWords(s: string)
    ensures ContainsAny(Lower(s + "\n"), FORBIDDEN) <==> ContainsAny(Lower(s), FORBIDDEN)
    ensures ContainsAny(Lower(s + "\n"), UNSAFE_IN_MEDIA_REF) <==> ContainsAny(Lower(s), UNSAFE_IN_MEDIA_REF)
  {
    LowerAppend(s);
    forall k | 0 <= k < |FORBIDDEN|
      ensures Contains(Lower(s + "\n"), FORBIDDEN[k]) <==> Contains(Lower(s), FORBIDDEN[k])
    {
      WordsEndPlainly(k);
      ContainsBeforeNewline(Lower(s), FORBIDDEN[k]);
    }
    forall k | 0 <= k < |UNSAFE_IN_MEDIA_REF|
      ensures Contains(Lower(s + "\n"), UNSAFE_IN_MEDIA_REF[k]) <==> Contains(Lower(s), UNSAFE_IN_MEDIA_REF[k])
    {
      WordsEndPlainly(k);
      ContainsBeforeNewline(Lower(s), UNSAFE_IN_MEDIA_REF[k]);
    }
  }

  lemma BodyIsNonBlank(s: string)
    requires s != "" && MediaRefChar(s[0])
    ensures NonBlank(s)
  {
    StripRightKeeps(s);
  }

  /** Behind a reference, one newline is accepted exactly where the reference is and has none yet. */
  lemma FinalNewlineExactly(s: string)
    ensures ValidMediaRef(s + "\n") <==> ValidMediaRef(s) && s[|s| - 1] != '\n'
  {
    var t := s + "\n";
    assert t[..|t| - 1] == s;
    SameWords(s);
    if MediaRefBody(s) {
      assert s[0] == t[0] && t[..1] == s[..1];
      BodyIsNonBlank(s);
      BodyIsNonBlank(t);
    }
    if ValidMediaRef(s) {
      MediaRefAlphabet(s);
    }
  }

  /** The manifest names this channel, in any case; no channel, or one that is no text, names none. */
  predicate NamesChannel(m: map<string, Raw>, channel: string) {
    "channel" in m && m["channel"].RStr? && Lower(m["channel"].s) == channel
  }

  /** An answer of the gateway: a status and a manifest, under keys of any case. */
  predicate LooksWrapped(m: map<string, Raw>) {
    (exists k | k in m.Keys :: Lower(k) == "status") && (exists k | k in m.Keys :: Lower(k) == "manifest")
  }

  /** An object with a list of items that is no answer of the gateway. */
  predicate HasItemList(file: ManifestFile) {
    && file.Json? && file.raw.RObj? && !LooksWrapped(file.raw.m)
    && "items" in file.raw.m && file.raw.m["items"].RList?
  }

  lemma ValidManifestExactly(file: ManifestFile)
    ensures ValidManifest(file) <==> HasItemList(file)
    ensures ValidManifest(file) ==> RawItems(file) == file.raw.m["items"].xs
  {
  }

  lemma EmptyIsNoChannel()
    ensures Lower("") != "kso"
  {
    assert |Lower("")| == 0 && |"kso"| == 3;
  }

  /** The format of a manifest with items: by the members of its first item, and by the channel if these do not tell. */
  lemma FormatExactly(m: map<string, Raw>)
    requires "items" in m && m["items"].RList? && m["items"].xs != []
    ensures
      var first := m["items"].xs[0];
      IsKsoFormat(m) <==>
        && first.RObj?
        && var ref, file := "mediaRef" in first.m, "filename" in first.m || "manifest_item_id" in first.m;
           (ref && !file) || (ref == file && NamesChannel(m, "kso"))
  {
    EmptyIsNoChannel();
  }

  /** Another channel refuses the items of the KSO format. */
  lemma ChannelExactly(m: map<string, Raw>)
    ensures ChannelRejected(m) <==> !NamesChannel(m, "kso") && ("channel" in m ==> m["channel"].RStr?)
  {
    EmptyIsNoChannel();
  }

  /** Why a manifest gives no playlist, before any medium is looked at. */
  lemma NoPlaylistExactly(file: ManifestFile, looks: nat -> MediaLook)
    requires !file.Unreadable? && (ReachesExtraction(file) ==> Extracted(RawItems(file), IsKsoFormat(file.raw.m)) == [])
    ensures Build(file, looks).Got?
    ensures
      var p := Build(file, looks).value;
      && !p.ready && p.items == [] && p.itemsReady == p.itemsMissing == p.itemsFailed == 0
      && (p.reason == ManifestMissing <==> file.NoManifest?)
      && (p.reason == NoMediaItems <==> ValidManifest(file) && RawItems(file) == [])
      && (p.reason == ManifestInvalid <==> !file.NoManifest? && (!ValidManifest(file) || RawItems(file) != []))
      && (p.status == StatusError <==> p.reason == ManifestInvalid)
      && (p.status == StatusNotReady <==> p.reason == ManifestMissing || p.reason == NoMediaItems)
      && p.itemsTotal == if ValidManifest(file) then |RawItems(file)| else 0
  {
  }
}
