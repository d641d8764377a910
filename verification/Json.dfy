// The JSON that the player writes (json.dumps with sort_keys) and an RFC 8259
// reader for it: objects, strings, integers, booleans and null.

module Json {
  import opened Text

  datatype Value =
    | Null
    | Bool(b: bool)
    | Int(n: int)
    | Str(s: string)
    | Obj(fields: seq<Field>)

  datatype Field = Field(key: string, value: Value)

  /** json.dumps options: separators and ensure_ascii. */
  datatype Style = Style(comma: string, colon: string, ascii: bool)

  /** The separators in use are a comma and a colon, each followed by blanks only. */
  predicate ValidStyle(st: Style) {
    (st.comma == "," || st.comma == ", ") && (st.colon == ":" || st.colon == ": ")
  }

  const LINE_STYLE := Style(", ", ": ", false)
  const COMPACT_STYLE := Style(",", ":", true)

  // ---------------------------------------------------------------- strings

  function HexChar(d: int): char
    requires 0 <= d < 16
  {
    if d < 10 then ('0' as int + d) as char else ('a' as int + d - 10) as char
  }

  function HexValue(c: char): int {
    if '0' <= c <= '9' then c as int - '0' as int
    else if 'a' <= c <= 'f' then c as int - 'a' as int + 10
    else if 'A' <= c <= 'F' then c as int - 'A' as int + 10
    else -1
  }

  /** \uXXXX for one UTF-16 code unit. */
  function UnitEscape(u: int): (s: string)
    requires 0 <= u < 0x10000
    ensures |s| == 6
  {
    ['\\', 'u', HexChar(u / 4096), HexChar(u / 256 % 16), HexChar(u / 16 % 16), HexChar(u % 16)]
  }

  /** The surrogate pair of a character beyond the basic plane (UTF-16). */
  function HighUnit(c: char): (u: int)
    requires c as int >= 0x10000
    ensures 0xD800 <= u < 0xDC00
  {
    assert c as int < 0x110000;
    0xD800 + (c as int - 0x10000) / 1024
  }

  function LowUnit(c: char): (u: int)
    requires c as int >= 0x10000
    ensures 0xDC00 <= u < 0xE000
  {
    0xDC00 + (c as int - 0x10000) % 1024
  }

  function FromPair(hi: int, lo: int): char
    requires 0xD800 <= hi < 0xDC00 <= lo < 0xE000
  {
    (0x10000 + (hi - 0xD800) * 1024 + (lo - 0xDC00)) as char
  }

  /** The escaping of section 7 of RFC 8259, as json.dumps chooses it. */
  function EscapeChar(c: char, ascii: bool): (s: string)
    ensures s != "" && s[0] != '"'
    ensures |s| > 2 && c as int < 0x10000 ==> s == UnitEscape(c as int)
    ensures |s| > 2 && c as int >= 0x10000 ==> s == UnitEscape(HighUnit(c)) + UnitEscape(LowUnit(c))
  {
    if c == '"' then "\\\""
    else if c == '\\' then "\\\\"
    else if c == '\n' then "\\n"
    else if c == '\r' then "\\r"
    else if c == '\t' then "\\t"
    else if c == '\U{0008}' then "\\b"
    else if c == '\U{000C}' then "\\f"
    else if c < ' ' || (ascii && c > '~') then
      if c as int < 0x10000 then UnitEscape(c as int)
      else UnitEscape(HighUnit(c)) + UnitEscape(LowUnit(c))
    else [c]
  }

  function Escape(s: string, ascii: bool): string {
    if s == "" then "" else EscapeChar(s[0], ascii) + Escape(s[1..], ascii)
  }

  function EncodeString(s: string, ascii: bool): string {
    "\"" + Escape(s, ascii) + "\""
  }

  /** The four hex digits at the front of s; -1 when they are not there. */
  function HexUnit(s: string): int {
    if |s| < 4 || HexValue(s[0]) < 0 || HexValue(s[1]) < 0 || HexValue(s[2]) < 0 || HexValue(s[3]) < 0 then -1
    else HexValue(s[0]) * 4096 + HexValue(s[1]) * 256 + HexValue(s[2]) * 16 + HexValue(s[3])
  }

  /** What follows the backslash of an escape. */
  function ReadEscape(s: string): (r: Option<(char, string)>)
    ensures r.Some? ==> |r.value.1| < |s|
  {
    if s == "" then None
    else if s[0] == '"' || s[0] == '\\' || s[0] == '/' then Some((s[0], s[1..]))
    else if s[0] == 'n' then Some(('\n', s[1..]))
    else if s[0] == 'r' then Some(('\r', s[1..]))
    else if s[0] == 't' then Some(('\t', s[1..]))
    else if s[0] == 'b' then Some(('\U{0008}', s[1..]))
    else if s[0] == 'f' then Some(('\U{000C}', s[1..]))
    else if s[0] != 'u' then None
    else
      var u := HexUnit(s[1..]);
      if u < 0 || 0xDC00 <= u < 0xE000 then None
      else if u < 0xD800 || 0xE000 <= u then
        if u < 0x10000 then Some((u as char, s[5..])) else None
      else if |s| < 11 || s[5] != '\\' || s[6] != 'u' then None
      else
        var v := HexUnit(s[7..]);
        if 0xDC00 <= v < 0xE000
        then Some((FromPair(u, v), s[11..]))
        else None
  }

  /** One character of a string body; a raw control character or the closing quote is refused. */
  function ReadChar(s: string): (r: Option<(char, string)>)
    ensures r.Some? ==> |r.value.1| < |s|
  {
    if s == "" || s[0] < ' ' || s[0] == '"' then None
    else if s[0] == '\\' then ReadEscape(s[1..])
    else Some((s[0], s[1..]))
  }

  /** A string body up to and including its closing quote. */
  function ReadString(s: string): (r: Option<(string, string)>)
    ensures r.Some? ==> |r.value.1| < |s|
    decreases |s|
  {
    if s != "" && s[0] == '"' then Some(("", s[1..]))
    else
      match ReadChar(s)
      case None => None
      case Some((c, rest)) =>
        match ReadString(rest)
        case None => None
        case Some((tail, rest')) => Some(([c] + tail, rest'))
  }

  lemma UnitRoundTrip(u: int, rest: string)
    requires 0 <= u < 0x10000
    ensures HexUnit((UnitEscape(u) + rest)[2..]) == u
  {
    var t := (UnitEscape(u) + rest)[2..];
    assert t[0] == HexChar(u / 4096) && t[1] == HexChar(u / 256 % 16);
    assert t[2] == HexChar(u / 16 % 16) && t[3] == HexChar(u % 16);
    assert u / 16 == u / 256 * 16 + u / 16 % 16;
    assert u / 256 == u / 4096 * 16 + u / 256 % 16;
  }

  /** One \uXXXX escape outside the surrogate range. */
  lemma UnitCharRoundTrip(c: char, rest: string)
    requires c as int < 0x10000
    ensures ReadChar(UnitEscape(c as int) + rest) == Some((c, rest))
  {
    var u := c as int;
    var s := UnitEscape(u) + rest;
    UnitRoundTrip(u, rest);
    assert s[1..][1..] == s[2..] && s[1..][5..] == rest;
  }

  /** A surrogate pair of escapes. */
  lemma PairRoundTrip(hi: int, lo: int, rest: string)
    requires 0xD800 <= hi < 0xDC00 <= lo < 0xE000
    ensures ReadChar(UnitEscape(hi) + UnitEscape(lo) + rest)
         == Some((FromPair(hi, lo), rest))
  {
    var s := UnitEscape(hi) + UnitEscape(lo) + rest;
    var t := s[1..];
    UnitRoundTrip(hi, UnitEscape(lo) + rest);
    UnitRoundTrip(lo, rest);
    assert s == UnitEscape(hi) + (UnitEscape(lo) + rest);
    assert t[1..] == s[2..];
    assert t[7..] == (UnitEscape(lo) + rest)[2..];
    assert t[11..] == rest;
    assert t[0] == 'u' && t[5] == '\\' && t[6] == 'u';
    assert ReadEscape(t) == Some((FromPair(hi, lo), rest));
  }

  /** An escape of a backslash and one letter, or an unescaped character. */
  lemma ShortRoundTrip(c: char, ascii: bool, rest: string)
    requires |EscapeChar(c, ascii)| <= 2
    ensures ReadChar(EscapeChar(c, ascii) + rest) == Some((c, rest))
  {
    var e := EscapeChar(c, ascii);
    var s := e + rest;
    if |e| == 1 {
      assert s[1..] == rest;
    } else {
      assert s[1..][1..] == rest;
    }
  }

  lemma CharRoundTrip(c: char, ascii: bool, rest: string)
    ensures ReadChar(EscapeChar(c, ascii) + rest) == Some((c, rest))
  {
    if |EscapeChar(c, ascii)| <= 2 {
      ShortRoundTrip(c, ascii, rest);
    } else if c as int < 0x10000 {
      UnitCharRoundTrip(c, rest);
    } else {
      PairRoundTrip(HighUnit(c), LowUnit(c), rest);
    }
  }

  /** Reading an escaped string gives the string back, for every string. */
  lemma {:induction false} StringRoundTrip(s: string, ascii: bool, rest: string)
    ensures ReadString(Escape(s, ascii) + "\"" + rest) == Some((s, rest))
  {
    if s == "" {
      assert Escape(s, ascii) + "\"" + rest == ['"'] + rest;
    } else {
      var tail := Escape(s[1..], ascii) + "\"" + rest;
      assert Escape(s, ascii) + "\"" + rest == EscapeChar(s[0], ascii) + tail;
      CharRoundTrip(s[0], ascii, tail);
      StringRoundTrip(s[1..], ascii, rest);
      assert [s[0]] + s[1..] == s;
    }
  }

  // ---------------------------------------------------------------- values

  function EncodeInt(n: int): string {
    if n < 0 then "-" + NatText(-n) else NatText(n)
  }

  /** json.dumps. */
  function Encode(v: Value, st: Style): string {
    match v
    case Null => "null"
    case Bool(b) => if b then "true" else "false"
    case Int(n) => EncodeInt(n)
    case Str(s) => EncodeString(s, st.ascii)
    case Obj(fs) => "{" + EncodeFields(fs, st) + "}"
  }

  function EncodeField(f: Field, st: Style): string {
    EncodeString(f.key, st.ascii) + st.colon + Encode(f.value, st)
  }

  function EncodeFields(fs: seq<Field>, st: Style): string {
    if fs == [] then ""
    else if |fs| == 1 then EncodeField(fs[0], st)
    else EncodeField(fs[0], st) + st.comma + EncodeFields(fs[1..], st)
  }

  function SkipBlanks(s: string): (r: string)
    ensures |r| <= |s|
  {
    if s != "" && s[0] in " \t\n\r" then SkipBlanks(s[1..]) else s
  }

  /** The longest run of digits at the front of s. */
  function DigitRun(s: string): (k: nat)
    ensures k <= |s| && AllDigits(s[..k])
    ensures k < |s| ==> !IsDigit(s[k])
  {
    if s != "" && IsDigit(s[0]) then
      var k := DigitRun(s[1..]);
      assert s[..1 + k] == [s[0]] + s[1..][..k];
      1 + k
    else 0
  }

  /** An integer without sign, leading zero, fraction or exponent. */
  function ReadNat(s: string): (r: Option<(nat, string)>)
    ensures r.Some? ==> |r.value.1| < |s|
  {
    var k := DigitRun(s);
    if k == 0 || (k > 1 && s[0] == '0') || (k < |s| && s[k] in ".eE") then None
    else Some((NatValue(s[..k]), s[k..]))
  }

  /** A value other than an object, at the front of s. */
  function ReadScalar(s: string): (r: Option<(Value, string)>)
    ensures r.Some? ==> |r.value.1| < |s|
  {
    if s == "" then None
    else if s[0] == '"' then
      match ReadString(s[1..])
      case None => None
      case Some((t, rest)) => Some((Str(t), rest))
    else if "null" <= s then Some((Null, s[4..]))
    else if "true" <= s then Some((Bool(true), s[4..]))
    else if "false" <= s then Some((Bool(false), s[5..]))
    else
      var negative := s[0] == '-';
      match ReadNat(if negative then s[1..] else s)
      case None => None
      case Some((n, rest)) => Some((Int(Signed(negative, n)), rest))
  }

  function Signed(negative: bool, n: int): int { if negative then -n else n }

  /** json.loads on the front of text, for the values above. */
  function ReadValue(text: string): (r: Option<(Value, string)>)
    ensures r.Some? ==> |r.value.1| < |text|
    decreases |text|
  {
    var s := SkipBlanks(text);
    if s == "" || s[0] != '{' then ReadScalar(s)
    else
      var t := SkipBlanks(s[1..]);
      if t != "" && t[0] == '}' then Some((Obj([]), t[1..]))
      else
        match ReadFields(t)
        case None => None
        case Some((fs, rest)) => Some((Obj(fs), rest))
  }

  /** A key with its colon. */
  function ReadKey(s: string): (r: Option<(string, string)>)
    ensures r.Some? ==> |r.value.1| < |s|
  {
    if s == "" || s[0] != '"' then None
    else
      match ReadString(s[1..])
      case None => None
      case Some((key, rest)) =>
        var t := SkipBlanks(rest);
        if t != "" && t[0] == ':' then Some((key, t[1..])) else None
  }

  /** The members of an object from the first key to the closing brace. */
  function ReadFields(s: string): (r: Option<(seq<Field>, string)>)
    ensures r.Some? ==> |r.value.1| < |s|
    decreases |s|
  {
    match ReadKey(s)
    case None => None
    case Some((key, rest)) =>
      match ReadValue(rest)
      case None => None
      case Some((v, rest')) =>
        var t := SkipBlanks(rest');
        if t != "" && t[0] == '}' then Some(([Field(key, v)], t[1..]))
        else if t != "" && t[0] == ',' then
          match ReadFields(SkipBlanks(t[1..]))
          case None => None
          case Some((fs, rest'')) => Some(([Field(key, v)] + fs, rest''))
        else None
  }

  /** What may follow a value inside or after an object. */
  predicate Delimited(rest: string) { rest == "" || rest[0] in ",}\n" }

  lemma {:induction false} DigitRunStops(d: string, rest: string)
    requires AllDigits(d) && (rest == "" || !IsDigit(rest[0]))
    ensures DigitRun(d + rest) == |d|
  {
    if d == "" {
      assert d + rest == rest;
    } else {
      DigitRunStops(d[1..], rest);
      assert (d + rest)[1..] == d[1..] + rest;
    }
  }

  lemma NatRoundTrip(n: nat, rest: string)
    requires Delimited(rest)
    ensures ReadNat(NatText(n) + rest) == Some((n, rest))
  {
    var d := NatText(n);
    DigitRunStops(d, rest);
    assert (d + rest)[..|d|] == d && (d + rest)[|d|..] == rest;
    NatTextRoundTrip(n);
  }

  lemma WordRoundTrip(word: string, v: Value, rest: string)
    requires (word, v) in {("null", Null), ("true", Bool(true)), ("false", Bool(false))}
    ensures ReadScalar(word + rest) == Some((v, rest))
  {
    var s := word + rest;
    assert s[..|word|] == word && s[|word|..] == rest;
  }

  lemma IntRoundTrip(n: int, rest: string)
    requires Delimited(rest)
    ensures ReadScalar(EncodeInt(n) + rest) == Some((Int(n), rest))
  {
    if n < 0 {
      NatRoundTrip(-n, rest);
      Assoc("-", NatText(-n), rest, "");
      MinusStep(NatText(-n) + rest);
    } else {
      NatRoundTrip(n, rest);
      NumberStep(NatText(n) + rest);
    }
  }

  /** ReadScalar on a text that starts like a number, without and with its sign. */
  lemma NumberStep(s: string)
    requires s != "" && IsDigit(s[0]) && ReadNat(s).Some?
    ensures ReadScalar(s) == Some((Int(ReadNat(s).value.0), ReadNat(s).value.1))
  {
  }

  lemma MinusStep(s: string)
    requires ReadNat(s).Some?
    ensures ReadScalar("-" + s) == Some((Int(-(ReadNat(s).value.0 as int)), ReadNat(s).value.1))
  {
    assert ("-" + s)[1..] == s;
  }

  lemma TextRoundTrip(t: string, ascii: bool, rest: string)
    ensures ReadScalar(EncodeString(t, ascii) + rest) == Some((Str(t), rest))
  {
    StringRoundTrip(t, ascii, rest);
    Assoc("\"", Escape(t, ascii), "\"", rest);
    Assoc(Escape(t, ascii), "\"", rest, "");
    QuoteStep(Escape(t, ascii) + "\"" + rest);
  }

  lemma QuoteStep(s: string)
    requires ReadString(s).Some?
    ensures ReadScalar("\"" + s) == Some((Str(ReadString(s).value.0), ReadString(s).value.1))
  {
    assert ("\"" + s)[1..] == s;
  }

  lemma ScalarRoundTrip(v: Value, st: Style, rest: string)
    requires !v.Obj? && Delimited(rest)
    ensures Encode(v, st) != "" && Encode(v, st)[0] !in " \t\n\r{"
    ensures ReadScalar(Encode(v, st) + rest) == Some((v, rest))
  {
    match v
    case Null => WordRoundTrip("null", v, rest);
    case Bool(b) => WordRoundTrip(Encode(v, st), v, rest);
    case Int(n) => IntRoundTrip(n, rest);
    case Str(t) => TextRoundTrip(t, st.ascii, rest);
  }

  /** Reading a printed value gives the value back, whatever follows it. */
  lemma {:induction false} ValueRoundTrip(v: Value, st: Style, rest: string)
    requires ValidStyle(st) && Delimited(rest)
    ensures ReadValue(Encode(v, st) + rest) == Some((v, rest))
    decreases v, 1
  {
    if !v.Obj? {
      ScalarRoundTrip(v, st, rest);
    } else {
      var t := EncodeFields(v.fields, st) + "}" + rest;
      assert Encode(v, st) + rest == "{" + t;
      if v.fields == [] {
        assert t == "}" + rest;
      } else {
        FieldsRoundTrip(v.fields, st, rest);
      }
      ObjectStep(t, v.fields, rest);
    }
  }

  /** ReadValue on an object whose members are known. */
  lemma ObjectStep(t: string, fs: seq<Field>, rest: string)
    requires t != ""
    requires (t[0] == '}' && fs == [] && t[1..] == rest) || (t[0] == '"' && ReadFields(t) == Some((fs, rest)))
    ensures ReadValue("{" + t) == Some((Obj(fs), rest))
  {
    assert ("{" + t)[1..] == t;
  }

  /** What follows the first of the members fs inside an object. */
  function AfterFirst(fs: seq<Field>, st: Style, rest: string): string
    requires fs != []
  {
    if |fs| == 1 then "}" + rest else st.comma + (EncodeFields(fs[1..], st) + "}" + rest)
  }

  lemma Assoc(a: string, b: string, c: string, d: string)
    ensures a + b + c + d == a + (b + (c + d))
    ensures a + b + c == a + (b + c)
  {
  }

  lemma FieldsText(fs: seq<Field>, st: Style, rest: string)
    requires fs != []
    ensures EncodeFields(fs, st) != "" && EncodeFields(fs, st)[0] == '"'
    ensures EncodeFields(fs, st) + "}" + rest == EncodeField(fs[0], st) + AfterFirst(fs, st, rest)
  {
    if |fs| > 1 {
      Assoc(EncodeField(fs[0], st), st.comma, EncodeFields(fs[1..], st), "}" + rest);
    }
    Assoc(EncodeFields(fs, st), "}", rest, "");
    if |fs| > 1 {
      Assoc(EncodeFields(fs[1..], st), "}", rest, "");
    }
  }

  lemma {:induction false} FieldsRoundTrip(fs: seq<Field>, st: Style, rest: string)
    requires ValidStyle(st) && fs != []
    ensures EncodeFields(fs, st) != "" && EncodeFields(fs, st)[0] == '"'
    ensures ReadFields(EncodeFields(fs, st) + "}" + rest) == Some((fs, rest))
    decreases fs, 0
  {
    var Field(key, v) := fs[0];
    var more := AfterFirst(fs, st, rest);
    FieldsText(fs, st, rest);
    if |fs| == 1 {
      assert more[1..] == rest;
      assert fs == [Field(key, v)];
    } else {
      assert fs == [Field(key, v)] + fs[1..];
      FieldsRoundTrip(fs[1..], st, rest);
      BlankAfterComma(st, EncodeFields(fs[1..], st) + "}" + rest);
    }
    ValueRoundTrip(v, st, more);
    FieldRoundTrip(key, v, st, more);
  }

  /** Reading the members that start with a printed one. */
  lemma FieldRoundTrip(key: string, v: Value, st: Style, more: string)
    requires ValidStyle(st) && ReadValue(Encode(v, st) + more) == Some((v, more))
    requires more != "" && (more[0] == '}' || more[0] == ',')
    ensures more[0] == '}' ==>
      ReadFields(EncodeField(Field(key, v), st) + more) == Some(([Field(key, v)], more[1..]))
    ensures more[0] == ',' && ReadFields(SkipBlanks(more[1..])).Some? ==>
      var (fs, rest) := ReadFields(SkipBlanks(more[1..])).value;
      ReadFields(EncodeField(Field(key, v), st) + more) == Some(([Field(key, v)] + fs, rest))
  {
    KeyRoundTrip(key, v, st, more);
    FieldsStep(EncodeField(Field(key, v), st) + more, v, more);
  }

  /** ReadFields on a text whose first member is known. */
  lemma FieldsStep(s: string, v: Value, more: string)
    requires ReadKey(s).Some? && ReadValue(ReadKey(s).value.1) == Some((v, more))
    requires more != "" && (more[0] == '}' || more[0] == ',')
    ensures more[0] == '}' ==> ReadFields(s) == Some(([Field(ReadKey(s).value.0, v)], more[1..]))
    ensures more[0] == ',' && ReadFields(SkipBlanks(more[1..])).Some? ==>
      var (fs, rest) := ReadFields(SkipBlanks(more[1..])).value;
      ReadFields(s) == Some(([Field(ReadKey(s).value.0, v)] + fs, rest))
  {
  }

  lemma KeyRoundTrip(key: string, v: Value, st: Style, more: string)
    requires ValidStyle(st)
    ensures
      var r := ReadKey(EncodeField(Field(key, v), st) + more);
      r.Some? && r.value.0 == key && ReadValue(r.value.1) == ReadValue(Encode(v, st) + more)
  {
    var s := EncodeField(Field(key, v), st) + more;
    var afterColon := Encode(v, st) + more;
    FieldText(key, v, st, more);
    StringRoundTrip(key, st.ascii, st.colon + afterColon);
    BlankAfterColon(st, afterColon);
  }

  lemma FieldText(key: string, v: Value, st: Style, more: string)
    ensures
      var s := EncodeField(Field(key, v), st) + more;
      && s != "" && s[0] == '"'
      && s[1..] == Escape(key, st.ascii) + "\"" + (st.colon + (Encode(v, st) + more))
  {
    var s := EncodeField(Field(key, v), st) + more;
    assert s == "\"" + (Escape(key, st.ascii) + "\"" + (st.colon + (Encode(v, st) + more)));
  }

  lemma BlankAfterComma(st: Style, t: string)
    requires ValidStyle(st) && t != "" && t[0] == '"'
    ensures (st.comma + t)[0] == ','
    ensures SkipBlanks((st.comma + t)[1..]) == t
  {
    var s := st.comma + t;
    if st.comma == "," {
      assert s[1..] == t;
    } else {
      assert s[1..] == " " + t;
      assert s[1..][1..] == t;
    }
  }

  /** The blank of ": " is skipped before the value. */
  lemma BlankAfterColon(st: Style, s: string)
    requires ValidStyle(st)
    ensures (st.colon + s)[0] == ':'
    ensures ReadValue((st.colon + s)[1..]) == ReadValue(s)
  {
    var t := st.colon + s;
    if st.colon == ":" {
      assert t[1..] == s;
    } else {
      assert t[1..] == " " + s;
      assert t[1..][1..] == s;
      assert SkipBlanks(t[1..]) == SkipBlanks(s);
    }
  }

  // ---------------------------------------------------------------- no control characters

  predicate NoControl(s: string) { forall i | 0 <= i < |s| :: s[i] >= ' ' }

  lemma {:induction false} EscapeNoControl(s: string, ascii: bool)
    ensures NoControl(Escape(s, ascii))
  {
    if s != "" {
      EscapeNoControl(s[1..], ascii);
    }
  }

  /** No printed value contains a raw control character, in particular no newline. */
  lemma {:induction false} EncodeNoControl(v: Value, st: Style)
    requires ValidStyle(st)
    ensures NoControl(Encode(v, st))
    decreases v, 1
  {
    match v
    case Null =>
    case Bool(_) =>
    case Int(n) =>
    case Str(s) => EscapeNoControl(s, st.ascii);
    case Obj(fs) => FieldsNoControl(fs, st);
  }

  lemma {:induction false} FieldsNoControl(fs: seq<Field>, st: Style)
    requires ValidStyle(st)
    ensures NoControl(EncodeFields(fs, st))
    decreases fs, 0
  {
    if fs != [] {
      var Field(key, v) := fs[0];
      EscapeNoControl(key, st.ascii);
      EncodeNoControl(v, st);
      FieldsNoControl(fs[1..], st);
    }
  }

  /** Two values that print alike are equal. */
  lemma EncodeInjective(v: Value, w: Value, st: Style)
    requires ValidStyle(st) && Encode(v, st) == Encode(w, st)
    ensures v == w
  {
    ValueRoundTrip(v, st, "");
    ValueRoundTrip(w, st, "");
  }

  // ---------------------------------------------------------------- the text itself

  predicate Ascii(s: string) { forall i | 0 <= i < |s| :: s[i] as int < 0x80 }

  lemma UnitIsAscii(u: int)
    requires 0 <= u < 0x10000
    ensures Ascii(UnitEscape(u))
  {
  }

  lemma {:induction false} EscapeIsAscii(s: string)
    ensures Ascii(Escape(s, true))
  {
    if s != "" {
      var c := s[0];
      EscapeIsAscii(s[1..]);
      if c as int < 0x10000 {
        UnitIsAscii(c as int);
      } else {
        UnitIsAscii(HighUnit(c));
        UnitIsAscii(LowUnit(c));
      }
    }
  }

  /** In the compact style every character of the text is ASCII. */
  lemma {:induction false} CompactIsAscii(v: Value)
    ensures Ascii(Encode(v, COMPACT_STYLE))
    decreases v, 1
  {
    match v
    case Null =>
    case Bool(b) =>
    case Int(n) =>
    case Str(s) => EscapeIsAscii(s);
    case Obj(fs) => FieldsAreAscii(fs);
  }

  lemma {:induction false} FieldsAreAscii(fs: seq<Field>)
    ensures Ascii(EncodeFields(fs, COMPACT_STYLE))
    decreases fs, 0
  {
    if fs != [] {
      EscapeIsAscii(fs[0].key);
      CompactIsAscii(fs[0].value);
      FieldsAreAscii(fs[1..]);
    }
  }

  /** In the style of the log a character is kept, unless RFC 8259 wants it escaped. */
  lemma {:induction false} LineKeepsText(s: string)
    requires forall i | 0 <= i < |s| :: s[i] >= ' ' && s[i] != '"' && s[i] != '\\'
    ensures Escape(s, false) == s
  {
    if s != "" {
      LineKeepsText(s[1..]);
      assert s == [s[0]] + s[1..];
    }
  }

  /** The short escapes, and the long one in lower case. */
  lemma EscapesAre(c: char, ascii: bool)
    ensures c == '"' ==> EscapeChar(c, ascii) == "\\\""
    ensures c == '\\' ==> EscapeChar(c, ascii) == "\\\\"
    ensures c == '\n' ==> EscapeChar(c, ascii) == "\\n"
    ensures c == '\r' ==> EscapeChar(c, ascii) == "\\r"
    ensures c == '\t' ==> EscapeChar(c, ascii) == "\\t"
    ensures UnitEscape(0x2014) == "\\u2014" && UnitEscape(0xFEBA) == "\\ufeba" && UnitEscape(0x1F) == "\\u001f"
  {
  }

  lemma TwoFields(a: Field, b: Field, st: Style)
    ensures EncodeFields([a, b], st) == EncodeField(a, st) + st.comma + EncodeField(b, st)
  {
    assert [a, b][1..] == [b];
  }

  /** How an object of two members is printed for the log: a blank behind every comma and every colon. */
  lemma LineText(a: Field, b: Field)
    ensures Encode(Obj([a, b]), LINE_STYLE)
         == "{" + (MemberText(a, ": ", false) + ", " + MemberText(b, ": ", false)) + "}"
  {
    TwoFields(a, b, LINE_STYLE);
  }

  /** And for the shell: no blanks. */
  lemma CompactText(a: Field, b: Field)
    ensures Encode(Obj([a, b]), COMPACT_STYLE)
         == "{" + (MemberText(a, ":", true) + "," + MemberText(b, ":", true)) + "}"
  {
    TwoFields(a, b, COMPACT_STYLE);
  }

  /** A quoted key, the colon, and the value in the same style. */
  function MemberText(f: Field, colon: string, ascii: bool): string {
    "\"" + Escape(f.key, ascii) + "\"" + colon + Encode(f.value, if ascii then COMPACT_STYLE else LINE_STYLE)
  }
}
