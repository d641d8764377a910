// timestamp_utils.py: the rule for negative offsets makes no difference to any timestamp.

module NegativeRule {
  import opened Text
  import opened Timestamp

  /** The suffix rules of the parser without the one for negative offsets. */
  function DropZoneOtherwise(ts: string): string {
    if ts != "" && ts[|ts| - 1] == 'Z' then ts[..|ts| - 1]
    else if |ts| > 10 && '+' in ts[10..] then BeforeLast(ts, '+')
    else ts
  }

  // ---------------------------------------------------------------- what strptime reads behind the T

  lemma {:induction false} CutSplits(s: string, sep: char)
    requires CutAt(s, sep).Some?
    ensures s == CutAt(s, sep).value.0 + [sep] + CutAt(s, sep).value.1 && sep !in CutAt(s, sep).value.0
  {
    if s[0] != sep {
      CutSplits(s[1..], sep);
      assert s == [s[0]] + s[1..];
    } else {
      assert s == "" + [sep] + s[1..];
    }
  }

  /** Digits, colons and dots, with exactly two colons. */
  predicate ClockLike(s: string) {
    (forall i | 0 <= i < |s| :: IsDigit(s[i]) || s[i] == ':' || s[i] == '.') && Count(s, ':') == 2
  }

  lemma ClockIsClockLike(s: string)
    requires ReadClock(s).Some?
    ensures ClockLike(s)
  {
    CutSplits(s, ':');
    var (h, rest) := CutAt(s, ':').value;
    CutSplits(rest, ':');
    var (m, sec) := CutAt(rest, ':').value;
    TwoSeparators(h, m, sec, ':');
    assert s == h + [':'] + (m + [':'] + sec);
  }

  lemma FractionIsClockLike(clock: string, micros: string)
    requires ClockLike(clock) && AllDigits(micros)
    ensures ClockLike(clock + ['.'] + micros)
  {
    CountZero(micros, ':');
    CountZero(".", ':');
    CountConcat(clock + ".", micros, ':');
    CountConcat(clock, ".", ':');
  }

  /** Whatever strptime reads behind the T it cuts at looks like a clock. */
  lemma TimeIsClockLike(ts: string, fraction: bool)
    requires Strptime(ts, fraction).Some?
    ensures CutT(ts).Some? && ClockLike(CutT(ts).value.1)
  {
    var (d, rest) := CutT(ts).value;
    if fraction {
      CutSplits(rest, '.');
      var (clock, micros) := CutAt(rest, '.').value;
      ClockIsClockLike(clock);
      FractionIsClockLike(clock, micros);
    } else {
      ClockIsClockLike(rest);
    }
  }

  /** If there is an upper-case T, strptime can only have cut there. */
  lemma CutIsAtT(ts: string, head: string, tail: string)
    requires CutAt(ts, 'T') == Some((head, tail))
    ensures CutT(ts).Some? && (CutT(ts).value == (head, tail) || 'T' in CutT(ts).value.1)
  {
    CutSplits(ts, 'T');
    if CutAt(ts, 't').Some? {
      CutSplits(ts, 't');
      var (h, r) := CutAt(ts, 't').value;
      assert ts[|h|] == 't' && ts[|head|] == 'T';
      if |h| < |head| {
        assert ts[|head|] == r[|head| - |h| - 1];
      }
    }
  }

  lemma ReadBehindT(ts: string, head: string, tail: string)
    requires CutAt(ts, 'T') == Some((head, tail)) && ReadTime(ts).Some?
    ensures Count(tail, '-') == 0 && Count(tail, ':') == 2
  {
    CutIsAtT(ts, head, tail);
    CountZero(tail, '-');
    if '.' in ts && Strptime(ts, true).Some? {
      TimeIsClockLike(ts, true);
    } else {
      TimeIsClockLike(ts, false);
    }
  }

  // ---------------------------------------------------------------- the rule

  lemma {:induction false} BeforeLastSplits(s: string, sep: char)
    requires sep in s
    ensures |BeforeLast(s, sep)| < |s| && BeforeLast(s, sep) + [sep] + s[|BeforeLast(s, sep)| + 1..] == s
    ensures sep !in s[|BeforeLast(s, sep)| + 1..]
  {
    var n := |s| - 1;
    if s[n] != sep {
      assert s == s[..n] + [s[n]];
      BeforeLastSplits(s[..n], sep);
      var k := |BeforeLast(s, sep)| + 1;
      assert s[k..] == s[..n][k..] + [s[n]];
    }
  }

  lemma OneDashLess(tail: string)
    requires '-' in tail
    ensures Count(tail, '-') == Count(BeforeLast(tail, '-'), '-') + 1
    ensures Count(tail, ':') >= Count(BeforeLast(tail, '-'), ':')
  {
    BeforeLastSplits(tail, '-');
    var before := BeforeLast(tail, '-');
    var after := tail[|before| + 1..];
    CountConcat(before + ['-'], after, '-');
    CountConcat(before, ['-'], '-');
    CountConcat(before + ['-'], after, ':');
    CountConcat(before, ['-'], ':');
    CountZero(after, '-');
    assert Count(['-'], '-') == 1 by { assert ['-'][..0] == []; }
  }

  lemma DropBehindT(ts: string, head: string, tail: string)
    requires CutAt(ts, 'T') == Some((head, tail)) && '-' in tail
    ensures CutAt(BeforeLast(ts, '-'), 'T') == Some((head, BeforeLast(tail, '-')))
  {
    CutSplits(ts, 'T');
    BeforeLastSplits(tail, '-');
    var before := BeforeLast(tail, '-');
    var after := tail[|before| + 1..];
    assert ts == (head + ['T'] + before) + ['-'] + after;
    BeforeLastConcat(head + ['T'] + before, '-', after);
    CutConcat(head, 'T', before);
  }

  /** When the rule fires, neither what it was given nor what it leaves can be read. */
  lemma RuleLeavesNothing(ts: string, head: string, tail: string)
    requires CutAt(ts, 'T') == Some((head, tail)) && Count(tail, '-') > Count(tail, ':')
    ensures ReadTime(ts) == None && ReadTime(BeforeLast(ts, '-')) == None
  {
    CountZero(tail, '-');
    OneDashLess(tail);
    DropBehindT(ts, head, tail);
    if ReadTime(ts).Some? {
      ReadBehindT(ts, head, tail);
    }
    if ReadTime(BeforeLast(ts, '-')).Some? {
      ReadBehindT(BeforeLast(ts, '-'), head, BeforeLast(tail, '-'));
    }
  }

  /** For every text, the rule for negative offsets never changes what the parser returns. */
  lemma RuleChangesNothing(text: string)
    requires text != ""
    ensures Parse(text) == ReadTime(DropZoneOtherwise(Strip(text)))
  {
    var ts := Strip(text);
    if DropZone(ts) != DropZoneOtherwise(ts) {
      var (head, tail) := CutAt(ts, 'T').value;
      RuleLeavesNothing(ts, head, tail);
    }
  }

  lemma CountOneDash(hour: string, offset: string)
    requires AllDigits(hour) && AllDigits(offset)
    ensures Count(hour + ['-'] + offset, '-') == 1
  {
    CountZero(hour, '-');
    CountZero(offset, '-');
    CountConcat(hour + ['-'], offset, '-');
    CountConcat(hour, ['-'], '-');
    assert Count(['-'], '-') == 1 by { assert ['-'][..0] == []; }
  }

  /** What the rule does with a date, an hour and an offset. */
  lemma RuleFires(head: string, hour: string, offset: string)
    requires |head| == 10 && Count(head, '-') == 2 && 'T' !in head && '+' !in head
    requires AllDigits(hour) && AllDigits(offset) && offset != ""
    ensures DropZone(head + "T" + (hour + "-" + offset)) == head + "T" + hour
  {
    var tail := hour + ['-'] + offset;
    var ts := head + ['T'] + tail;
    assert ts == (head + ['T'] + hour) + ['-'] + offset;
    CutConcat(head, 'T', tail);
    BeforeLastConcat(head + ['T'] + hour, '-', offset);
    CountOneDash(hour, offset);
    CountConcat(head + ['T'], tail, '-');
    CountConcat(head, ['T'], '-');
    CountZero(tail, ':');
    assert forall i | 0 <= i < |ts| :: ts[i] != '+';
    assert ts[|ts| - 1] == offset[|offset| - 1];
  }

  /** So it can fire, behind every date and hour. */
  lemma RuleCanFire(t: DateTime, hour: string, offset: string)
    requires Valid(t) && AllDigits(hour) && AllDigits(offset) && hour != "" && offset != ""
    ensures DropZone(DateText(t) + "T" + (hour + "-" + offset)) == DateText(t) + "T" + hour
  {
    PrintedShape(t);
    PrintedChars(t);
    RuleFires(DateText(t), hour, offset);
  }
}
