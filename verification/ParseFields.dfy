// What the timestamp parser accepts beyond what isoformat prints.

module ParseFields {
  import opened Text
  import opened Timestamp

  /** One or two digits. */
  predicate Short(s: string) { 1 <= |s| <= 2 && AllDigits(s) }

  function Joined(a: string, b: string, c: string, sep: char): string { a + [sep] + (b + [sep] + c) }

  lemma DateFields(y: string, m: string, d: string)
    requires |y| == 4 && AllDigits(y) && Short(m) && Short(d)
    requires 1 <= NatValue(m) <= 12 && 1 <= NatValue(d) <= 31
    ensures ReadDate(Joined(y, m, d, '-')) == Some((NatValue(y), NatValue(m), NatValue(d)))
  {
    CutConcat(y, '-', m + ['-'] + d);
    CutConcat(m, '-', d);
  }

  lemma ClockFields(h: string, m: string, s: string)
    requires Short(h) && Short(m) && Short(s) && NatValue(h) <= 23 && NatValue(m) <= 59 && NatValue(s) <= 61
    ensures ReadClock(Joined(h, m, s, ':')) == Some((NatValue(h), NatValue(m), NatValue(s)))
  {
    CutConcat(h, ':', m + [':'] + s);
    CutConcat(m, ':', s);
  }

  /** Characters of a date or a clock. */
  predicate Fieldlike(s: string, sep: char) { forall i | 0 <= i < |s| :: IsDigit(s[i]) || s[i] == sep }

  lemma JoinedIsFieldlike(a: string, b: string, c: string, sep: char)
    requires AllDigits(a) && AllDigits(b) && AllDigits(c)
    ensures Fieldlike(Joined(a, b, c, sep), sep)
  {
  }

  lemma CutAtT(date: string, clock: string, t: char)
    requires Fieldlike(date, '-') && Fieldlike(clock, ':') && (t == 'T' || t == 't')
    ensures CutT(date + [t] + clock) == Some((date, clock)) && '.' !in date + [t] + clock
  {
    CutConcat(date, t, clock);
    CutNone(date + [t] + clock, if t == 'T' then 't' else 'T');
  }

  lemma ZeroFraction()
    ensures FractionField("0") == Some(0)
  {
    assert NatValue("0"[..0]) == 0;
  }

  /** A date of four, one or two, and one or two digits; a T or t; a clock of three fields of one or two digits. */
  lemma ShortFieldsParse(y: string, mo: string, d: string, h: string, mi: string, s: string, t: char)
    requires |y| == 4 && AllDigits(y) && Short(mo) && Short(d) && Short(h) && Short(mi) && Short(s)
    requires t == 'T' || t == 't'
    requires Valid(DateTime(NatValue(y), NatValue(mo), NatValue(d), NatValue(h), NatValue(mi), NatValue(s), 0))
    ensures ReadTime(Joined(y, mo, d, '-') + [t] + Joined(h, mi, s, ':'))
         == Some(DateTime(NatValue(y), NatValue(mo), NatValue(d), NatValue(h), NatValue(mi), NatValue(s), 0))
  {
    DateFields(y, mo, d);
    ClockFields(h, mi, s);
    ZeroFraction();
    JoinedIsFieldlike(y, mo, d, '-');
    JoinedIsFieldlike(h, mi, s, ':');
    CutAtT(Joined(y, mo, d, '-'), Joined(h, mi, s, ':'), t);
  }

  /** A fraction of one to six digits counts as that many decimal places. */
  lemma FractionIs(f: string)
    requires 1 <= |f| <= 6 && AllDigits(f)
    ensures FractionField(f) == Some(
      NatValue(f) * if |f| == 1 then 100000 else if |f| == 2 then 10000 else if |f| == 3 then 1000
                    else if |f| == 4 then 100 else if |f| == 5 then 10 else 1)
  {
    assert Pow10(1) == 10 && Pow10(2) == 100 && Pow10(3) == 1000;
    assert Pow10(4) == 10 * Pow10(3) && Pow10(5) == 10 * Pow10(4);
  }

  /** Longer fractions are refused. */
  lemma LongFractionIsRefused(f: string)
    requires |f| > 6
    ensures FractionField(f) == None
  {
  }

  /** A day of one digit may have a blank in front of it. */
  lemma BlankDay(d: string)
    requires |d| == 1 && AllDigits(d) && NatValue(d) >= 1
    ensures DayField(" " + d) == Some(NatValue(d)) && DayField(d) == Some(NatValue(d))
  {
    assert (" " + d)[1..] == d && d[..0] == "";
    assert NatValue(d) == DigitValue(d[0]);
  }

  /** Where isoformat puts its separators, and how long its fraction is. */
  lemma PrintedShapeIs(t: DateTime)
    requires Valid(t)
    ensures 19 <= |Print(t)| && Print(t)[4] == Print(t)[7] == '-' && Print(t)[10] == 'T'
    ensures Print(t)[13] == Print(t)[16] == ':'
    ensures |Print(t)| == (if t.micro == 0 then 19 else 26) && (t.micro != 0 ==> Print(t)[19] == '.')
  {
    NatTextWidth(t.year, 4);
    TwoDigits(t.month);
    TwoDigits(t.day);
    TwoDigits(t.hour);
    TwoDigits(t.minute);
    TwoDigits(t.second);
    MicrosAreSix(t.micro);
  }

  lemma MicrosAreSix(micro: nat)
    requires micro < 1000000
    ensures |Padded(micro, 6)| == 6
  {
    assert Pow10(6) == 1000000 by {
      assert Pow10(3) == 1000;
    }
    NatTextWidth(micro, 6);
  }
}
