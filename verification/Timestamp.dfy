// timestamp_utils.py: the ISO-8601 parser, with isoformat() as its printer.

module Timestamp {
  import opened Text

  /** A naive datetime. */
  datatype DateTime = DateTime(year: int, month: int, day: int, hour: int, minute: int, second: int, micro: int)

  predicate IsLeap(y: int) { y % 4 == 0 && (y % 100 != 0 || y % 400 == 0) }

  function DaysInMonth(y: int, m: int): int {
    if m == 2 then (if IsLeap(y) then 29 else 28)
    else if m == 4 || m == 6 || m == 9 || m == 11 then 30
    else 31
  }

  predicate ValidDate(y: int, m: int, d: int) {
    1 <= y <= 9999 && 1 <= m <= 12 && 1 <= d <= DaysInMonth(y, m)
  }

  /** What the datetime constructor accepts. */
  predicate Valid(t: DateTime) {
    && ValidDate(t.year, t.month, t.day)
    && 0 <= t.hour < 24 && 0 <= t.minute < 60 && 0 <= t.second < 60 && 0 <= t.micro < 1000000
  }

  // ---------------------------------------------------------------- printing

  function ClockText(t: DateTime): string
    requires Valid(t)
  {
    Padded(t.hour, 2) + ":" + (Padded(t.minute, 2) + ":" + Padded(t.second, 2))
  }

  function FractionText(t: DateTime): string
    requires Valid(t)
  {
    if t.micro == 0 then "" else "." + Padded(t.micro, 6)
  }

  function DateText(t: DateTime): string
    requires Valid(t)
  {
    Padded(t.year, 4) + "-" + (Padded(t.month, 2) + "-" + Padded(t.day, 2))
  }

  /** datetime.isoformat() of a naive datetime. */
  function Print(t: DateTime): string
    requires Valid(t)
  {
    DateText(t) + "T" + (ClockText(t) + FractionText(t))
  }

  // ---------------------------------------------------------------- parsing

  /** Everything before and after the first sep in s. */
  function CutAt(s: string, sep: char): Option<(string, string)> {
    if s == "" then None
    else if s[0] == sep then Some(("", s[1..]))
    else
      match CutAt(s[1..], sep)
      case None => None
      case Some((head, tail)) => Some(([s[0]] + head, tail))
  }

  /** A strptime field of one or two digits with its range. */
  function Field2(s: string, lo: int, hi: int): Option<int> {
    if (|s| == 1 || |s| == 2) && AllDigits(s) && lo <= NatValue(s) <= hi then Some(NatValue(s)) else None
  }

  /** %d also accepts a blank before a single digit. */
  function DayField(s: string): Option<int> {
    if |s| == 2 && s[0] == ' ' then Field2(s[1..], 1, 9) else Field2(s, 1, 31)
  }

  function YearField(s: string): Option<int> {
    if |s| == 4 && AllDigits(s) then Some(NatValue(s)) else None
  }

  /** %f: one to six digits, read as millionths. */
  function FractionField(s: string): Option<int> {
    if 1 <= |s| <= 6 && AllDigits(s) then Some(NatValue(s) * Pow10(6 - |s|)) else None
  }

  /** Year, month and day of "%Y-%m-%d". */
  function ReadDate(s: string): Option<(int, int, int)> {
    match CutAt(s, '-')
    case None => None
    case Some((y, rest)) =>
      match CutAt(rest, '-')
      case None => None
      case Some((m, d)) =>
        var year, month, day := YearField(y), Field2(m, 1, 12), DayField(d);
        if year.Some? && month.Some? && day.Some? then Some((year.value, month.value, day.value)) else None
  }

  /** Hour, minute and second of "%H:%M:%S"; %S goes up to 61. */
  function ReadClock(s: string): Option<(int, int, int)> {
    match CutAt(s, ':')
    case None => None
    case Some((h, rest)) =>
      match CutAt(rest, ':')
      case None => None
      case Some((m, sec)) =>
        var hour, minute, second := Field2(h, 0, 23), Field2(m, 0, 59), Field2(sec, 0, 61);
        if hour.Some? && minute.Some? && second.Some? then Some((hour.value, minute.value, second.value)) else None
  }

  /** strptime matches its literal T without regard to case. */
  function CutT(s: string): Option<(string, string)> {
    var upper, lower := CutAt(s, 'T'), CutAt(s, 't');
    if upper.None? then lower
    else if lower.None? || |upper.value.0| < |lower.value.0| then upper
    else lower
  }

  /** The datetime of the three parts, unless one is malformed or the constructor refuses them. */
  function FromParts(d: string, clock: string, fraction: string): Option<DateTime> {
    var date, time, micro := ReadDate(d), ReadClock(clock), FractionField(fraction);
    if date.None? || time.None? || micro.None? then None
    else
      var t := DateTime(date.value.0, date.value.1, date.value.2,
                        time.value.0, time.value.1, time.value.2, micro.value);
      if Valid(t) then Some(t) else None
  }

  /** datetime.strptime with "%Y-%m-%dT%H:%M:%S", followed by ".%f" when fraction is set. */
  function Strptime(ts: string, fraction: bool): Option<DateTime> {
    match CutT(ts)
    case None => None
    case Some((d, rest)) =>
      if !fraction then FromParts(d, rest, "0")
      else
        match CutAt(rest, '.')
        case None => None
        case Some((clock, micros)) => FromParts(d, clock, micros)
  }

  /** ts.rsplit(sep, 1)[0] for a separator that occurs. */
  function BeforeLast(s: string, sep: char): string {
    if s == "" then ""
    else if s[|s| - 1] == sep then s[..|s| - 1]
    else BeforeLast(s[..|s| - 1], sep)
  }

  /** The suffix that the parser takes for a timezone is dropped, whatever it says. */
  function DropZone(ts: string): string {
    if ts != "" && ts[|ts| - 1] == 'Z' then ts[..|ts| - 1]
    else if |ts| > 10 && '+' in ts[10..] then BeforeLast(ts, '+')
    else if Count(ts, '-') > 2 then
      match CutAt(ts, 'T')
      case None => ts
      case Some((head, tail)) =>
        if head != "" && Count(tail, '-') > Count(tail, ':') then BeforeLast(ts, '-') else ts
    else ts
  }

  /** The two attempts behind the suffix rules, with and without microseconds. */
  function ReadTime(ts: string): (r: Option<DateTime>)
    ensures r.Some? ==> Valid(r.value)
  {
    var withFraction := if '.' in ts then Strptime(ts, true) else None;
    if withFraction.Some? then withFraction else Strptime(ts, false)
  }

  /** parse_iso_utc. */
  function Parse(text: string): (r: Option<DateTime>)
    ensures r.Some? ==> Valid(r.value)
  {
    if text == "" then None else ReadTime(DropZone(Strip(text)))
  }

  // ---------------------------------------------------------------- parsing undoes printing

  lemma {:induction false} CutConcat(a: string, sep: char, b: string)
    requires sep !in a
    ensures CutAt(a + [sep] + b, sep) == Some((a, b))
  {
    var s := a + [sep] + b;
    if a == "" {
      assert s == [sep] + b;
    } else {
      CutConcat(a[1..], sep, b);
      assert s[1..] == a[1..] + [sep] + b;
      assert a == [a[0]] + a[1..];
    }
  }

  lemma {:induction false} CutNone(s: string, sep: char)
    requires sep !in s
    ensures CutAt(s, sep) == None
  {
    if s != "" {
      CutNone(s[1..], sep);
    }
  }

  lemma TwoDigits(n: int)
    requires 0 <= n < 100
    ensures |Padded(n, 2)| == 2 && NatValue(Padded(n, 2)) == n
  {
    NatTextWidth(n, 2);
    PaddedRoundTrip(n, 2);
  }

  lemma DateRoundTrip(t: DateTime)
    requires Valid(t)
    ensures |DateText(t)| == 10
    ensures ReadDate(DateText(t)) == Some((t.year, t.month, t.day))
  {
    var y, m, d := Padded(t.year, 4), Padded(t.month, 2), Padded(t.day, 2);
    NatTextWidth(t.year, 4);
    PaddedRoundTrip(t.year, 4);
    TwoDigits(t.month);
    TwoDigits(t.day);
    CutConcat(y, '-', m + "-" + d);
    CutConcat(m, '-', d);
  }

  lemma ClockRoundTrip(t: DateTime)
    requires Valid(t)
    ensures ReadClock(ClockText(t)) == Some((t.hour, t.minute, t.second))
  {
    var h, m, s := Padded(t.hour, 2), Padded(t.minute, 2), Padded(t.second, 2);
    TwoDigits(t.hour);
    TwoDigits(t.minute);
    TwoDigits(t.second);
    CutConcat(h, ':', m + ":" + s);
    CutConcat(m, ':', s);
  }

  /** The characters of a printed date or clock. */
  lemma PrintedChars(t: DateTime)
    requires Valid(t)
    ensures forall c | c in DateText(t) :: IsDigit(c) || c == '-'
    ensures forall c | c in ClockText(t) :: IsDigit(c) || c == ':'
    ensures forall c | c in FractionText(t) :: IsDigit(c) || c == '.'
  {
  }

  /** A fraction printed with six digits is read as that many millionths. */
  lemma FractionRoundTrip(t: DateTime)
    requires Valid(t)
    ensures FractionField(Padded(t.micro, 6)) == Some(t.micro)
  {
    assert Pow10(6) == 1000000 by {
      assert Pow10(2) == 100;
      assert Pow10(4) == 10000;
    }
    NatTextWidth(t.micro, 6);
    PaddedRoundTrip(t.micro, 6);
  }

  lemma PartsRoundTrip(t: DateTime)
    requires Valid(t)
    ensures FromParts(DateText(t), ClockText(t), if t.micro == 0 then "0" else Padded(t.micro, 6)) == Some(t)
  {
    DateRoundTrip(t);
    ClockRoundTrip(t);
    if t.micro != 0 {
      FractionRoundTrip(t);
    } else {
      assert NatValue("0"[..0]) == 0;
    }
  }

  /** The printed date is cut off at its T. */
  lemma CutPrinted(t: DateTime, tail: string)
    requires Valid(t) && 't' !in tail
    ensures CutT(DateText(t) + "T" + tail) == Some((DateText(t), tail))
  {
    PrintedChars(t);
    CutConcat(DateText(t), 'T', tail);
    CutNone(DateText(t) + "T" + tail, 't');
  }

  /** The part without timezone is read back. */
  lemma StrptimeRoundTrip(t: DateTime)
    requires Valid(t)
    ensures Strptime(Print(t), t.micro != 0) == Some(t)
    ensures t.micro == 0 ==> '.' !in Print(t)
    ensures t.micro != 0 ==> '.' in Print(t)
  {
    PrintedChars(t);
    PartsRoundTrip(t);
    var rest := ClockText(t) + FractionText(t);
    CutPrinted(t, rest);
    if t.micro != 0 {
      CutConcat(ClockText(t), '.', Padded(t.micro, 6));
      assert rest == ClockText(t) + ['.'] + Padded(t.micro, 6);
      assert Print(t)[|DateText(t)| + 1 + |ClockText(t)|] == '.';
    } else {
      assert rest == ClockText(t);
    }
  }

  // ---------------------------------------------------------------- timezone suffixes

  lemma StripNothing(s: string)
    requires s != "" && !IsSpace(s[0]) && !IsSpace(s[|s| - 1])
    ensures Strip(s) == s
  {
  }

  lemma {:induction false} CountConcat(a: string, b: string, c: char)
    ensures Count(a + b, c) == Count(a, c) + Count(b, c)
  {
    if b == "" {
      assert a + b == a;
    } else {
      CountConcat(a, b[..|b| - 1], c);
      assert (a + b)[..|a + b| - 1] == a + b[..|b| - 1];
    }
  }

  /** What a printed datetime looks like to the suffix rules. */
  lemma PrintedShape(t: DateTime)
    requires Valid(t)
    ensures |DateText(t)| == 10 && |ClockText(t)| == 8
    ensures Count(DateText(t), '-') == 2 && Count(ClockText(t) + FractionText(t), '-') == 0
    ensures Count(ClockText(t), ':') == 2 && Count(FractionText(t), ':') == 0
    ensures forall c | c in Print(t) :: IsDigit(c) || c in "-T:."
    ensures IsDigit(Print(t)[0]) && IsDigit(Print(t)[|Print(t)| - 1])
  {
    var y, m, d := Padded(t.year, 4), Padded(t.month, 2), Padded(t.day, 2);
    var h, i, s := Padded(t.hour, 2), Padded(t.minute, 2), Padded(t.second, 2);
    PrintedChars(t);
    DateRoundTrip(t);
    TwoDigits(t.hour);
    TwoDigits(t.minute);
    TwoDigits(t.second);
    TwoSeparators(y, m, d, '-');
    TwoSeparators(h, i, s, ':');
    CountZero(ClockText(t) + FractionText(t), '-');
    CountZero(FractionText(t), ':');
  }

  lemma TwoSeparators(a: string, b: string, c: string, sep: char)
    requires AllDigits(a) && AllDigits(b) && AllDigits(c) && !IsDigit(sep)
    ensures Count(a + [sep] + (b + [sep] + c), sep) == 2
  {
    CountZero(a, sep);
    CountZero(b, sep);
    CountZero(c, sep);
    CountConcat(a + [sep], b + [sep] + c, sep);
    CountConcat(a, [sep], sep);
    CountConcat(b + [sep], c, sep);
    CountConcat(b, [sep], sep);
    assert Count([sep], sep) == Count([], sep) + 1 by {
      assert [sep][..0] == [];
    }
  }

  lemma {:induction false} BeforeLastConcat(a: string, sep: char, b: string)
    requires sep !in b
    ensures BeforeLast(a + [sep] + b, sep) == a
  {
    var s := a + [sep] + b;
    if b == "" {
      assert s[..|s| - 1] == a;
    } else {
      BeforeLastConcat(a, sep, b[..|b| - 1]);
      assert s[..|s| - 1] == a + [sep] + b[..|b| - 1];
    }
  }

  /** The digits and colons of an offset such as 03:00 or 0300. */
  predicate OffsetText(w: string) { w != "" && forall i | 0 <= i < |w| :: IsDigit(w[i]) || w[i] == ':' }

  /**
   * Parsing undoes printing for every datetime, with or without microseconds and with no suffix
   * or the suffix Z; and whatever offset follows a '+', it is dropped, not applied.
   */
  lemma ParseUndoesPrint(t: DateTime, zone: string)
    requires Valid(t) && zone != "" && zone[0] == '+' && OffsetText(zone[1..])
    ensures Parse(Print(t)) == Some(t)
    ensures Parse(Print(t) + "Z") == Some(t)
    ensures Parse(Print(t) + zone) == Some(t)
  {
    PrintedShape(t);
    var p := Print(t);
    NoZone(t);
    ParseDropped(t, p);
    DropSuffix(p, zone);
    ParseDropped(t, p + "Z");
    ParseDropped(t, p + zone);
  }

  /** A text that starts and ends with a visible character and loses its suffix to the zone rule. */
  lemma ParseDropped(t: DateTime, text: string)
    requires Valid(t) && text != "" && !IsSpace(text[0]) && !IsSpace(text[|text| - 1])
    requires DropZone(text) == Print(t)
    ensures Parse(text) == Some(t)
  {
    StripNothing(text);
    StrptimeRoundTrip(t);
  }

  /** What the zone rule drops behind a text of more than ten characters. */
  lemma DropSuffix(p: string, zone: string)
    requires |p| > 10 && zone != "" && zone[0] == '+' && OffsetText(zone[1..])
    ensures DropZone(p + "Z") == p && DropZone(p + zone) == p
  {
    assert (p + "Z")[..|p + "Z"| - 1] == p;
    var q := p + zone;
    assert q == p + ['+'] + zone[1..];
    BeforeLastConcat(p, '+', zone[1..]);
    assert q[10..][|p| - 10] == '+';
    assert q[|q| - 1] == zone[1..][|zone| - 2];
  }

  lemma NoZone(t: DateTime)
    requires Valid(t)
    ensures DropZone(Print(t)) == Print(t)
  {
    PrintedShape(t);
    CountConcat(DateText(t) + "T", ClockText(t) + FractionText(t), '-');
    CountConcat(DateText(t), "T", '-');
    CountZero("T", '-');
    assert Print(t)[10..] == "T" + (ClockText(t) + FractionText(t));
  }

  /** A negative offset appended to a printed datetime makes it unreadable, although the rule for it exists. */
  lemma NegativeOffsetRefused(t: DateTime, offset: string)
    requires Valid(t) && OffsetText(offset)
    ensures Parse(Print(t) + "-" + offset) == None
  {
    PrintedShape(t);
    PrintedChars(t);
    var tail := ClockText(t) + FractionText(t) + "-" + offset;
    var q := Print(t) + "-" + offset;
    assert q == DateText(t) + "T" + tail;
    StripNothing(q);
    NegativeKept(t, offset);
    CutPrinted(t, tail);
    NegativeClock(t, offset);
  }

  /** After the T there are two colons at least and one minus sign. */
  lemma NegativeCounts(t: DateTime, offset: string)
    requires Valid(t) && OffsetText(offset)
    ensures
      var tail := ClockText(t) + FractionText(t) + "-" + offset;
      Count(tail, '-') == 1 && Count(tail, ':') >= 2
  {
    PrintedShape(t);
    var c, f := ClockText(t), FractionText(t);
    CountConcat(c + f + "-", offset, '-');
    CountConcat(c + f, "-", '-');
    CountZero(offset, '-');
    assert Count("-", '-') == 1 by { assert "-"[..0] == ""; }
    CountConcat(c + f + "-", offset, ':');
    CountConcat(c + f, "-", ':');
    CountConcat(c, f, ':');
  }

  /** Here the rule for negative offsets does not fire: the clock has more colons than minus signs. */
  lemma NegativeKept(t: DateTime, offset: string)
    requires Valid(t) && OffsetText(offset)
    ensures DropZone(Print(t) + "-" + offset) == Print(t) + "-" + offset
  {
    PrintedShape(t);
    PrintedChars(t);
    NegativeCounts(t, offset);
    var tail := ClockText(t) + FractionText(t) + "-" + offset;
    var q := Print(t) + "-" + offset;
    assert q == DateText(t) + ['T'] + tail;
    CutConcat(DateText(t), 'T', tail);
    assert forall c | c in q :: c != '+' && c != 'Z';
  }

  lemma NegativeClock(t: DateTime, offset: string)
    requires Valid(t) && OffsetText(offset)
    ensures
      var tail := ClockText(t) + FractionText(t) + "-" + offset;
      && ReadClock(tail) == None
      && (CutAt(tail, '.').Some? ==> FractionField(CutAt(tail, '.').value.1) == None)
  {
    PrintedChars(t);
    var h, m, s := Padded(t.hour, 2), Padded(t.minute, 2), Padded(t.second, 2);
    var tail := ClockText(t) + FractionText(t) + "-" + offset;
    var end := s + FractionText(t) + "-" + offset;
    assert tail == h + [':'] + (m + [':'] + end);
    CutConcat(h, ':', m + [':'] + end);
    CutConcat(m, ':', end);
    assert end[|s| + |FractionText(t)|] == '-';
    if t.micro == 0 {
      CutNone(tail, '.');
    } else {
      var digits := Padded(t.micro, 6) + "-" + offset;
      assert tail == ClockText(t) + ['.'] + digits;
      CutConcat(ClockText(t), '.', digits);
      assert digits[|Padded(t.micro, 6)|] == '-';
    }
  }
}
