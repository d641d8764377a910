// The forbidden words of the validators, one by one.

module WordLists {
  import opened Playlist
  import opened PopRecord
  import opened Session
  import opened Text

  /** One of these words occurs in the text. */
  predicate Has(s: string, words: set<string>) { exists w | w in words :: Contains(s, w) }

  /** A list and a set hold the same words. */
  predicate SameWordsAs(words: seq<string>, all: set<string>) {
    (forall k | 0 <= k < |words| :: words[k] in all) && forall w | w in all :: w in words
  }

  lemma AnyExactly(s: string, words: seq<string>, all: set<string>)
    requires SameWordsAs(words, all)
    ensures ContainsAny(s, words) <==> Has(s, all)
  {
    if k :| 0 <= k < |words| && Contains(s, words[k]) {
      assert words[k] in all;
    }
    if w :| w in all && Contains(s, w) {
      var k :| 0 <= k < |words| && words[k] == w;
      assert Contains(s, words[k]);
    }
  }

  const MANIFEST_WORDS: set<string> := {
    "token", "jwt", "password", "secret", "api_key", "private_key", "payment_card", "receipt",
    "local_path", "file_path", "authorization", "bearer", "device_secret", "access_token",
    "media_path", "creatives/", "backend_base_url", "127.0.0.1", "device_code"}

  lemma ManifestWords0()
    ensures forall k | 0 <= k < 10 :: FORBIDDEN[k] in MANIFEST_WORDS
  {
  }

  lemma ManifestWords1()
    ensures forall k | 10 <= k < 19 :: FORBIDDEN[k] in MANIFEST_WORDS
  {
  }

  lemma ManifestListed()
    ensures |FORBIDDEN| == 19
    ensures forall w | w in MANIFEST_WORDS :: w in FORBIDDEN
  {
    assert FORBIDDEN[0] == "token";
    assert FORBIDDEN[1] == "jwt";
    assert FORBIDDEN[2] == "password";
    assert FORBIDDEN[3] == "secret";
    assert FORBIDDEN[4] == "api_key";
    assert FORBIDDEN[5] == "private_key";
    assert FORBIDDEN[6] == "payment_card";
    assert FORBIDDEN[7] == "receipt";
    assert FORBIDDEN[8] == "local_path";
    assert FORBIDDEN[9] == "file_path";
    assert FORBIDDEN[10] == "authorization";
    assert FORBIDDEN[11] == "bearer";
    assert FORBIDDEN[12] == "device_secret";
    assert FORBIDDEN[13] == "access_token";
    assert FORBIDDEN[14] == "media_path";
    assert FORBIDDEN[15] == "creatives/";
    assert FORBIDDEN[16] == "backend_base_url";
    assert FORBIDDEN[17] == "127.0.0.1";
    assert FORBIDDEN[18] == "device_code";
  }

  const RECORD_WORDS: set<string> := {
    "token", "jwt", "password", "secret", "api_key", "private_key", "payment_card", "receipt_data",
    "card_number", "pan", "customer_id", "phone", "email", "receipt_number", "fiscal_data",
    "local_path", "file_path", "authorization", "bearer", "device_secret", "access_token",
    "media_path", "creatives/", "backend_base_url", "127.0.0.1", "device_code", "filename",
    "manifest_item_id", "sha256", "stacktrace"}

  lemma RecordWords0()
    ensures forall k | 0 <= k < 10 :: FORBIDDEN_IN_RECORD[k] in RECORD_WORDS
  {
  }

  lemma RecordWords1()
    ensures forall k | 10 <= k < 20 :: FORBIDDEN_IN_RECORD[k] in RECORD_WORDS
  {
  }

  lemma RecordWords2()
    ensures forall k | 20 <= k < 30 :: FORBIDDEN_IN_RECORD[k] in RECORD_WORDS
  {
  }

  lemma RecordListed()
    ensures |FORBIDDEN_IN_RECORD| == 30
    ensures forall w | w in RECORD_WORDS :: w in FORBIDDEN_IN_RECORD
  {
    assert FORBIDDEN_IN_RECORD[0] == "token";
    assert FORBIDDEN_IN_RECORD[1] == "jwt";
    assert FORBIDDEN_IN_RECORD[2] == "password";
    assert FORBIDDEN_IN_RECORD[3] == "secret";
    assert FORBIDDEN_IN_RECORD[4] == "api_key";
    assert FORBIDDEN_IN_RECORD[5] == "private_key";
    assert FORBIDDEN_IN_RECORD[6] == "payment_card";
    assert FORBIDDEN_IN_RECORD[7] == "receipt_data";
    assert FORBIDDEN_IN_RECORD[8] == "card_number";
    assert FORBIDDEN_IN_RECORD[9] == "pan";
    assert FORBIDDEN_IN_RECORD[10] == "customer_id";
    assert FORBIDDEN_IN_RECORD[11] == "phone";
    assert FORBIDDEN_IN_RECORD[12] == "email";
    assert FORBIDDEN_IN_RECORD[13] == "receipt_number";
    assert FORBIDDEN_IN_RECORD[14] == "fiscal_data";
    assert FORBIDDEN_IN_RECORD[15] == "local_path";
    assert FORBIDDEN_IN_RECORD[16] == "file_path";
    assert FORBIDDEN_IN_RECORD[17] == "authorization";
    assert FORBIDDEN_IN_RECORD[18] == "bearer";
    assert FORBIDDEN_IN_RECORD[19] == "device_secret";
    assert FORBIDDEN_IN_RECORD[20] == "access_token";
    assert FORBIDDEN_IN_RECORD[21] == "media_path";
    assert FORBIDDEN_IN_RECORD[22] == "creatives/";
    assert FORBIDDEN_IN_RECORD[23] == "backend_base_url";
    assert FORBIDDEN_IN_RECORD[24] == "127.0.0.1";
    assert FORBIDDEN_IN_RECORD[25] == "device_code";
    assert FORBIDDEN_IN_RECORD[26] == "filename";
    assert FORBIDDEN_IN_RECORD[27] == "manifest_item_id";
    assert FORBIDDEN_IN_RECORD[28] == "sha256";
    assert FORBIDDEN_IN_RECORD[29] == "stacktrace";
  }

  const STATE_WORDS: set<string> := {
    "token", "secret", "password", "api_key", "private_key", "payment_card", "receipt_data",
    "card_number", "pan", "authorization", "bearer", "device_secret", "access_token", "media_path",
    "creatives/", "backend_base_url", "127.0.0.1", "device_code"}

  lemma StateWords0()
    ensures forall k | 0 <= k < 10 :: FORBIDDEN_IN_STATE[k] in STATE_WORDS
  {
  }

  lemma StateWords1()
    ensures forall k | 10 <= k < 18 :: FORBIDDEN_IN_STATE[k] in STATE_WORDS
  {
  }

  lemma StateListed()
    ensures |FORBIDDEN_IN_STATE| == 18
    ensures forall w | w in STATE_WORDS :: w in FORBIDDEN_IN_STATE
  {
    assert FORBIDDEN_IN_STATE[0] == "token";
    assert FORBIDDEN_IN_STATE[1] == "secret";
    assert FORBIDDEN_IN_STATE[2] == "password";
    assert FORBIDDEN_IN_STATE[3] == "api_key";
    assert FORBIDDEN_IN_STATE[4] == "private_key";
    assert FORBIDDEN_IN_STATE[5] == "payment_card";
    assert FORBIDDEN_IN_STATE[6] == "receipt_data";
    assert FORBIDDEN_IN_STATE[7] == "card_number";
    assert FORBIDDEN_IN_STATE[8] == "pan";
    assert FORBIDDEN_IN_STATE[9] == "authorization";
    assert FORBIDDEN_IN_STATE[10] == "bearer";
    assert FORBIDDEN_IN_STATE[11] == "device_secret";
    assert FORBIDDEN_IN_STATE[12] == "access_token";
    assert FORBIDDEN_IN_STATE[13] == "media_path";
    assert FORBIDDEN_IN_STATE[14] == "creatives/";
    assert FORBIDDEN_IN_STATE[15] == "backend_base_url";
    assert FORBIDDEN_IN_STATE[16] == "127.0.0.1";
    assert FORBIDDEN_IN_STATE[17] == "device_code";
  }

  /** A manifest text is refused exactly for these words, in any case. */
  lemma ForbiddenInManifestExactly(s: string)
    ensures IsForbidden(s) <==> Has(Lower(s), MANIFEST_WORDS)
  {
    ManifestWords0();
    ManifestWords1();
    ManifestListed();
    AnyExactly(Lower(s), FORBIDDEN, MANIFEST_WORDS);
  }

  /** A record text is refused exactly for these words, in any case. */
  lemma UncleanInRecordExactly(s: string)
    ensures !CleanText(s) <==> Has(Lower(s), RECORD_WORDS)
  {
    RecordWords0();
    RecordWords1();
    RecordWords2();
    RecordListed();
    AnyExactly(Lower(s), FORBIDDEN_IN_RECORD, RECORD_WORDS);
  }

  /** A remembered id is refused exactly for these words, in any case, and for path separators. */
  lemma BadNoteExactly(id: string)
    ensures ValidNote(Some(id)) <==> !Has(Lower(id), STATE_WORDS) && '/' !in id && '\\' !in id
  {
    StateWords0();
    StateWords1();
    StateListed();
    AnyExactly(Lower(id), FORBIDDEN_IN_STATE, STATE_WORDS);
  }
}
