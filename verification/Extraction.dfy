// Which manifest entries are extracted, by their own fields.

module Extraction {
  import opened MediaReference
  import opened Parsed
  import opened Playlist
  import opened Text

  /** A member that is a text and not blank. */
  predicate HasText(m: map<string, Raw>, key: string) { key in m && m[key].RStr? && Strip(m[key].s) != "" }

  /** A member that is missing, or a number that is not negative. */
  predicate NoNegative(m: map<string, Raw>, key: string) {
    key in m ==> (m[key].RInt? && m[key].n >= 0) || m[key].RBool?
  }

  /** Sixty-four hexadecimal digits, and at most a newline behind them. */
  predicate IsDigest(s: string) {
    && (|s| == 64 || (|s| == 65 && s[64] == '\n'))
    && forall i | 0 <= i < 64 :: '0' <= s[i] <= '9' || 'a' <= s[i] <= 'f' || 'A' <= s[i] <= 'F'
  }

  /** A name in one directory: no separator, no parent, no drive. */
  predicate IsPlainName(s: string) {
    && (forall i | 0 <= i < |s| :: s[i] != '/' && s[i] != '\\')
    && (forall i | 0 <= i < |s| - 1 :: !(s[i] == '.' && s[i + 1] == '.'))
    && !(|s| >= 2 && s[1] == ':' && ('a' <= s[0] <= 'z' || 'A' <= s[0] <= 'Z'))
  }

  lemma NoParentExactly(s: string)
    ensures Contains(s, "..") <==> exists i :: 0 <= i < |s| - 1 && s[i] == '.' && s[i + 1] == '.'
  {
    if i :| 0 <= i < |s| - 1 && s[i] == '.' && s[i + 1] == '.' {
      assert s[i..i + 2] == "..";
      assert OccursAt(s, "..", i);
    }
    if i :| 0 <= i <= |s| - 2 && OccursAt(s, "..", i) {
      assert s[i..i + 2][0] == s[i] && s[i..i + 2][1] == s[i + 1];
    }
  }

  lemma TraversalExactly(s: string)
    ensures Traversal(s) <==> !IsPlainName(s)
  {
    NoParentExactly(s);
  }

  /** A legacy entry is extracted exactly if each of its fields is as it must be. */
  lemma ExtractLegacyExactly(m: map<string, Raw>)
    ensures ExtractLegacy(RObj(m)).Some? <==>
      && HasText(m, "manifest_item_id") && HasText(m, "content_type")
      && HasText(m, "filename") && IsPlainName(m["filename"].s) && !IsForbidden(m["filename"].s)
      && "sha256" in m && m["sha256"].RStr? && IsDigest(m["sha256"].s)
      && NoNegative(m, "duration_ms") && NoNegative(m, "order")
      && ("size_bytes" in m ==> m["size_bytes"].RNull? || NoNegative(m, "size_bytes"))
  {
    if "filename" in m && m["filename"].RStr? {
      TraversalExactly(m["filename"].s);
    }
    BlankIsEmpty();
  }

  lemma BlankIsEmpty()
    ensures Strip("") == ""
  {
  }

  /** What is extracted is what the entry says. */
  lemma ExtractLegacySays(m: map<string, Raw>)
    requires ExtractLegacy(RObj(m)).Some?
    ensures
      var x := ExtractLegacy(RObj(m)).value;
      && HasText(m, "filename") && HasText(m, "content_type") && "sha256" in m && m["sha256"].RStr?
      && x.filename == m["filename"].s && x.contentType == m["content_type"].s && x.sha256 == m["sha256"].s
      && x.mediaRef == "" && x.creativeCode.None? && x.slotOrder == x.order
      && x.order == (if "order" in m && m["order"].RInt? then m["order"].n else x.order)
      && x.durationMs == (if "duration_ms" in m && m["duration_ms"].RInt? then m["duration_ms"].n else x.durationMs)
      && ("order" !in m ==> x.order == 0) && ("duration_ms" !in m ==> x.durationMs == 0)
      && (x.sizeBytes.Some? ==> "size_bytes" in m && x.sizeBytes.value > 0)
      && ("size_bytes" in m && m["size_bytes"].RInt? && m["size_bytes"].n > 0 ==>
            x.sizeBytes == Some(m["size_bytes"].n))
  {
    ExtractLegacyExactly(m);
  }

  /** One of the content types that the KSO format allows, in any case and with blanks around it. */
  predicate IsKsoType(s: string) {
    var t := Lower(Strip(s));
    t == "image/png" || t == "image/jpeg" || t == "video/mp4"
  }

  /** A creative code is optional; only a text that contains a forbidden word refuses the entry. */
  predicate CodeIsFine(m: map<string, Raw>) {
    HasText(m, "creativeCode") ==> !IsForbidden(Strip(m["creativeCode"].s))
  }

  lemma TypesAreThree(s: string)
    ensures s in KSO_CONTENT_TYPES <==> s == "image/png" || s == "image/jpeg" || s == "video/mp4"
  {
  }

  lemma TypeIsFree(s: string)
    requires IsKsoType(s) && !IsForbidden(Lower(Strip(s)))
    ensures Lower(Strip(Lower(Strip(s)))) in KSO_CONTENT_TYPES
  {
    NormalizeTwice(s);
    TypesAreThree(Lower(Strip(s)));
  }

  /** A KSO entry is extracted exactly if each of its fields is as it must be. */
  lemma ExtractKsoExactly(m: map<string, Raw>)
    ensures ExtractKso(RObj(m)).Some? <==>
      && "slotOrder" in m && NoNegative(m, "slotOrder") && NoNegative(m, "durationMs")
      && HasText(m, "contentType") && IsKsoType(m["contentType"].s) && !IsForbidden(Lower(Strip(m["contentType"].s)))
      && "mediaRef" in m && m["mediaRef"].RStr? && ValidMediaRef(m["mediaRef"].s)
      && CodeIsFine(m)
  {
    BlankIsEmpty();
    if HasText(m, "contentType") {
      NormalizeTwice(m["contentType"].s);
      TypesAreThree(Lower(Strip(m["contentType"].s)));
    }
  }

  /** What is extracted is what the entry says; no duration counts as none. */
  lemma ExtractKsoSays(m: map<string, Raw>)
    requires ExtractKso(RObj(m)).Some?
    ensures
      var x := ExtractKso(RObj(m)).value;
      && "slotOrder" in m && HasText(m, "contentType") && "mediaRef" in m && m["mediaRef"].RStr?
      && x.mediaRef == m["mediaRef"].s && x.contentType == Lower(Strip(m["contentType"].s))
      && x.filename == "" && x.sha256 == "" && x.manifestItemId == "" && x.sizeBytes.None?
      && x.slotOrder == x.order && (m["slotOrder"].RInt? ==> x.order == m["slotOrder"].n)
      && ("durationMs" !in m ==> x.durationMs == 0)
      && ("durationMs" in m && m["durationMs"].RInt? ==> x.durationMs == m["durationMs"].n)
      && x.creativeCode == if HasText(m, "creativeCode") then Some(Strip(m["creativeCode"].s)) else None
  {
    ExtractKsoExactly(m);
  }

  /** A character of a reference. */
  predicate IsRefChar(c: char) { 'a' <= c <= 'z' || '0' <= c <= '9' || c == '/' || c == '_' || c == '-' }

  /** A reference without a final newline. */
  predicate IsRefBody(s: string) { s != "" && s[0] != '/' && forall i | 0 <= i < |s| :: IsRefChar(s[i]) }

  /**
   * A reference is accepted exactly if it is made of these characters, does not begin with a slash
   * and contains no forbidden word. So no accepted one leads to a parent directory or to a URL, and
   * the list of unsafe patterns refuses nothing more.
   */
  lemma RefIsAcceptedExactly(s: string)
    requires s == "" || s[|s| - 1] != '\n'
    ensures ValidMediaRef(s) <==> IsRefBody(s) && !IsForbidden(s)
  {
    if IsRefBody(s) {
      NothingUnsafe(s);
      NotBlank(s);
      assert s[..1][0] == s[0];
    }
    if ValidMediaRef(s) {
      MediaRefAlphabet(s);
    }
  }
}
