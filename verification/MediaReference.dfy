// media_reference.py: the slot alias of an item, printed, checked and read back.

module MediaReference {
  import opened Playlist
  import opened Text

  datatype MediaType = Image | Video | UnknownMedia

  const SLOT_PREFIX := "media/current/slot-"

  /** Image or video by the prefix of the normalised MIME type. */
  function ClassifyMedia(contentType: string): MediaType {
    var ct := Lower(Strip(contentType));
    if "image/" <= ct then Image
    else if "video/" <= ct then Video
    else UnknownMedia
  }

  /** f"media/current/slot-{order:03d}" for order >= 0. */
  function SlotRef(order: nat): string { SLOT_PREFIX + Padded(order, 3) }

  /** The order that an alias names. */
  function SlotOrder(ref: string): Option<nat> {
    var n := |SLOT_PREFIX|;
    if |ref| > n && ref[..n] == SLOT_PREFIX && AllDigits(ref[n..]) then Some(NatValue(ref[n..])) else None
  }

  /** _validate_media_ref of media_reference.py: no check for a leading slash. */
  predicate SafeAlias(s: string) {
    NonBlank(s) && MediaRefPattern(s) && !ContainsAny(Lower(s), UNSAFE_IN_MEDIA_REF)
  }

  /** build_kso_safe_media_reference: the alias, or None when the result has no reference. */
  function SafeReference(item: Option<Item>): Option<string> {
    if item.None? || ClassifyMedia(item.value.contentType) == UnknownMedia || item.value.order < 0 then None
    else
      var ref := SlotRef(item.value.order);
      if SafeAlias(ref) then Some(ref) else None
  }

  lemma SlotRefChars(order: nat)
    ensures forall i | 0 <= i < |SlotRef(order)| :: MediaRefChar(SlotRef(order)[i])
    ensures |SlotRef(order)| > |SLOT_PREFIX|
  {
    var ref := SlotRef(order);
    assert forall i | 0 <= i < |SLOT_PREFIX| :: MediaRefChar(SLOT_PREFIX[i]);
    forall i | 0 <= i < |ref|
      ensures MediaRefChar(ref[i])
    {
      if i >= |SLOT_PREFIX| {
        assert ref[i] == Padded(order, 3)[i - |SLOT_PREFIX|];
      }
    }
  }

  /** No unsafe substring is made of alias characters only. */
  lemma NothingUnsafe(s: string)
    requires forall i | 0 <= i < |s| :: MediaRefChar(s[i])
    ensures !ContainsAny(Lower(s), UNSAFE_IN_MEDIA_REF)
  {
    forall k | 0 <= k < |UNSAFE_IN_MEDIA_REF|
      ensures !Contains(Lower(s), UNSAFE_IN_MEDIA_REF[k])
    {
      var p := UNSAFE_IN_MEDIA_REF[k];
      var at := if k == 4 then 4 else if k == 5 then 4 else if k == 6 then 5 else 0;
      assert at < |p| && !MediaRefChar(p[at]);
      forall i | 0 <= i <= |s| - |p|
        ensures !OccursAt(Lower(s), p, i)
      {
        assert Lower(s)[i..i + |p|][at] == LowerChar(s[i + at]);
      }
    }
  }

  /** For every order the alias passes the whitelist, and it decodes to its order. */
  lemma SlotAliasRoundTrip(order: nat)
    ensures SafeAlias(SlotRef(order))
    ensures SlotOrder(SlotRef(order)) == Some(order)
  {
    var ref := SlotRef(order);
    SlotRefChars(order);
    NothingUnsafe(ref);
    PaddedRoundTrip(order, 3);
    assert ref[|SLOT_PREFIX|..] == Padded(order, 3);
    assert ref[0] == 'm' && MediaRefChar(ref[|ref| - 1]);
    assert MediaRefBody(ref);
    NotBlank(ref);
  }

  lemma NotBlank(s: string)
    requires s != "" && !IsSpace(s[0]) && !IsSpace(s[|s| - 1])
    ensures Strip(s) == s
  {
  }

  /** Different orders have different aliases, also past three digits. */
  lemma SlotAliasInjective(a: nat, b: nat)
    requires SlotRef(a) == SlotRef(b)
    ensures a == b
  {
    SlotAliasRoundTrip(a);
    SlotAliasRoundTrip(b);
  }

  /** An item has a reference exactly when it is an image or a video with a non-negative order. */
  lemma ReferencePresentExactly(item: Item)
    ensures SafeReference(Some(item)).Some? <==>
      ClassifyMedia(item.contentType) != UnknownMedia && item.order >= 0
    ensures SafeReference(Some(item)).Some? ==> SafeReference(Some(item)).value == SlotRef(item.order)
  {
    if item.order >= 0 {
      SlotAliasRoundTrip(item.order);
    }
  }
}
