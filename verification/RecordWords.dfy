// The words that a record must not contain, and the strings that the player itself puts into it.

module RecordWords {
  import opened ForbiddenWords
  import opened Playlist
  import opened PopRecord
  import opened Text
  import opened Timestamp

  /** The words of this range but the excepted one have a character that strings over the alphabet lack. */
  predicate ForeignBetween(alphabet: string, at: seq<nat>, except: int, lo: nat, hi: nat)
    requires hi <= |at| == |FORBIDDEN_IN_RECORD|
  {
    forall k | lo <= k < hi && k != except :: Foreign(FORBIDDEN_IN_RECORD[k], alphabet, at[k])
  }

  predicate AllForeign(alphabet: string, at: seq<nat>, except: int) {
    && |at| == |FORBIDDEN_IN_RECORD|
    && ForeignBetween(alphabet, at, except, 0, 10) && ForeignBetween(alphabet, at, except, 10, 20)
    && ForeignBetween(alphabet, at, except, 20, 30)
  }

  lemma CleanOver(s: string, alphabet: string, at: seq<nat>, except: int)
    requires Over(Lower(s), alphabet) && AllForeign(alphabet, at, except)
    requires 0 <= except < |FORBIDDEN_IN_RECORD| ==> !Contains(Lower(s), FORBIDDEN_IN_RECORD[except])
    ensures CleanText(s)
  {
    forall k | 0 <= k < |FORBIDDEN_IN_RECORD| ensures !Contains(Lower(s), FORBIDDEN_IN_RECORD[k]) {
      if k != except {
        ForeignIsAbsent(Lower(s), FORBIDDEN_IN_RECORD[k], alphabet, at[k]);
      }
    }
  }

  // ---------------------------------------------------------------- alphabets

  const PAN := 9
  const LOCALHOST := 24

  const STATUS_LETTERS := "completdi"
  const STATUS_AT: seq<nat> :=
    [2, 0, 1, 0, 0, 1, 1, 0, 1, 1, 1, 1, 2, 0, 0, 3, 0, 0, 0, 2, 0, 4, 1, 0, 0, 2, 0, 1, 0, 0]

  const PLAY_LETTERS := "would_playreft"
  const PLAY_AT: seq<nat> :=
    [2, 0, 2, 0, 2, 2, 3, 2, 0, 2, 0, 1, 1, 2, 1, 2, 1, 3, 0, 2, 1, 0, 0, 0, 0, 2, 1, 0, 0, 0]

  const BLOCKED_LETTERS := "blocked_stopafy"
  const BLOCKED_AT: seq<nat> :=
    [4, 0, 4, 3, 2, 1, 3, 0, 2, 2, 1, 1, 1, 0, 1, 9, 1, 1, 3, 2, 11, 0, 1, 5, 0, 2, 1, 0, 1, 6]

  const TYPE_LETTERS := "image/pngjvdo4"
  const TYPE_AT: seq<nat> :=
    [0, 1, 2, 0, 3, 1, 2, 0, 0, 0, 0, 1, 4, 0, 0, 0, 0, 1, 0, 4, 1, 5, 0, 0, 0, 4, 0, 4, 0, 0]

  const STAMP_LETTERS := "0123456789-:t.+z"
  const STAMP_AT: seq<nat> :=
    [1, 0, 0, 0, 0, 0, 0, 0, 0, 0, 0, 0, 0, 0, 0, 0, 0, 0, 0, 0, 0, 0, 0, 0, 0, 0, 0, 0, 0, 0]

  lemma StatusFirst()
    ensures ForeignBetween(STATUS_LETTERS, STATUS_AT, -1, 0, 10)
  {
  }

  lemma StatusSecond()
    ensures ForeignBetween(STATUS_LETTERS, STATUS_AT, -1, 10, 20)
  {
  }

  lemma StatusThird()
    ensures ForeignBetween(STATUS_LETTERS, STATUS_AT, -1, 20, 30)
  {
  }

  lemma PlayFirst()
    ensures ForeignBetween(PLAY_LETTERS, PLAY_AT, -1, 0, 10)
  {
  }

  lemma PlaySecond()
    ensures ForeignBetween(PLAY_LETTERS, PLAY_AT, -1, 10, 20)
  {
  }

  lemma PlayThird()
    ensures ForeignBetween(PLAY_LETTERS, PLAY_AT, -1, 20, 30)
  {
  }

  lemma BlockedFirst()
    ensures ForeignBetween(BLOCKED_LETTERS, BLOCKED_AT, -1, 0, 10)
  {
  }

  lemma BlockedSecond()
    ensures ForeignBetween(BLOCKED_LETTERS, BLOCKED_AT, -1, 10, 20)
  {
  }

  lemma BlockedThird()
    ensures ForeignBetween(BLOCKED_LETTERS, BLOCKED_AT, -1, 20, 30)
  {
  }

  lemma TypeFirst()
    ensures ForeignBetween(TYPE_LETTERS, TYPE_AT, PAN, 0, 10)
  {
  }

  lemma TypeSecond()
    ensures ForeignBetween(TYPE_LETTERS, TYPE_AT, PAN, 10, 20)
  {
  }

  lemma TypeThird()
    ensures ForeignBetween(TYPE_LETTERS, TYPE_AT, PAN, 20, 30)
  {
  }

  lemma StampFirst()
    ensures ForeignBetween(STAMP_LETTERS, STAMP_AT, LOCALHOST, 0, 10)
  {
  }

  lemma StampSecond()
    ensures ForeignBetween(STAMP_LETTERS, STAMP_AT, LOCALHOST, 10, 20)
  {
  }

  lemma StampThird()
    ensures ForeignBetween(STAMP_LETTERS, STAMP_AT, LOCALHOST, 20, 30)
  {
  }

  // ---------------------------------------------------------------- the strings of a record

  /** The event statuses, state, action, reason and type of a play record are clean. */
  lemma PlayWordsAreClean()
    ensures CleanText("completed") && CleanText("idle")
    ensures CleanText("would_play") && CleanText("play") && CleanText("ready") && CleanText("draft")
  {
    StatusFirst();
    StatusSecond();
    StatusThird();
    PlayFirst();
    PlaySecond();
    PlayThird();
    CleanOver("completed", STATUS_LETTERS, STATUS_AT, -1);
    CleanOver("idle", STATUS_LETTERS, STATUS_AT, -1);
    CleanOver("would_play", PLAY_LETTERS, PLAY_AT, -1);
    CleanOver("play", PLAY_LETTERS, PLAY_AT, -1);
    CleanOver("ready", PLAY_LETTERS, PLAY_AT, -1);
    CleanOver("draft", PLAY_LETTERS, PLAY_AT, -1);
  }

  /** And so are those of a blocked one. */
  lemma BlockedWordsAreClean()
    ensures CleanText("blocked") && CleanText("stop") && CleanText("safety_blocked")
  {
    BlockedFirst();
    BlockedSecond();
    BlockedThird();
    CleanOver("blocked", BLOCKED_LETTERS, BLOCKED_AT, -1);
    CleanOver("stop", BLOCKED_LETTERS, BLOCKED_AT, -1);
    CleanOver("safety_blocked", BLOCKED_LETTERS, BLOCKED_AT, -1);
  }

  lemma TypeLetters(ct: string)
    requires ct in KSO_CONTENT_TYPES
    ensures Lower(ct) == ct && Over(ct, TYPE_LETTERS)
    ensures forall i | 0 <= i < |ct| - 1 && ct[i] == 'p' :: ct[i + 1] != 'a'
  {
  }

  /** The MIME types of the KSO format are clean. */
  lemma TypeIsClean(ct: string)
    requires ct in KSO_CONTENT_TYPES
    ensures CleanText(ct)
  {
    TypeFirst();
    TypeSecond();
    TypeThird();
    TypeLetters(ct);
    PairIsAbsent(ct, "pan");
    CleanOver(ct, TYPE_LETTERS, TYPE_AT, PAN);
  }

  /** A printed time has no dot but the one behind its seconds. */
  lemma OneDot(t: DateTime)
    requires Valid(t)
    ensures forall i | 0 <= i < |Print(t)| && i != 19 :: Print(t)[i] != '.'
  {
    PrintedShape(t);
    PrintedChars(t);
    var date, clock, fraction := DateText(t), ClockText(t), FractionText(t);
    forall i | 0 <= i < |Print(t)| && i != 19 ensures Print(t)[i] != '.' {
      if i < 10 {
        assert Print(t)[i] == date[i];
      } else if 11 <= i < 19 {
        assert Print(t)[i] == clock[i - 11];
      } else if i > 19 {
        assert Print(t)[i] == fraction[i - 19];
        assert fraction == "." + Padded(t.micro, 6);
      }
    }
  }

  /** A time as the player prints it: isoformat() of a naive or of a UTC datetime. */
  predicate Stamp(s: string, t: DateTime) { Valid(t) && (s == Print(t) || s == Print(t) + "+00:00") }

  lemma StampChars(s: string, t: DateTime)
    requires Stamp(s, t)
    ensures forall i | 0 <= i < |s| :: IsDigit(s[i]) || s[i] in "-T:.+"
    ensures forall i | 0 <= i < |s| && i != 19 :: s[i] != '.'
  {
    PrintedShape(t);
    OneDot(t);
    var n := |Print(t)|;
    forall i | 0 <= i < |s|
      ensures IsDigit(s[i]) || s[i] in "-T:.+"
      ensures i != 19 ==> s[i] != '.'
    {
      if i < n {
        assert s[i] == Print(t)[i] && s[i] in Print(t);
      } else {
        assert s[i] == "+00:00"[i - n];
      }
    }
  }

  lemma StampLetter(c: char)
    requires IsDigit(c) || c in "-T:.+"
    ensures LowerChar(c) in STAMP_LETTERS && (LowerChar(c) == '.' ==> c == '.')
  {
  }

  lemma NoLocalhost(s: string)
    requires forall i | 0 <= i < |s| && i != 19 :: s[i] != '.'
    ensures !Contains(s, "127.0.0.1")
  {
    forall i | 0 <= i <= |s| - 9 ensures !OccursAt(s, "127.0.0.1", i) {
      var part := s[i..i + 9];
      assert part[3] == s[i + 3] && part[5] == s[i + 5];
      assert "127.0.0.1"[3] == '.' && "127.0.0.1"[5] == '.';
    }
  }

  /** Printed times are clean. */
  lemma StampIsClean(s: string, t: DateTime)
    requires Stamp(s, t)
    ensures CleanText(s)
  {
    StampFirst();
    StampSecond();
    StampThird();
    StampChars(s, t);
    forall i | 0 <= i < |s| ensures Lower(s)[i] in STAMP_LETTERS && (i != 19 ==> Lower(s)[i] != '.') {
      StampLetter(s[i]);
    }
    NoLocalhost(Lower(s));
    CleanOver(s, STAMP_LETTERS, STAMP_AT, LOCALHOST);
  }
}
