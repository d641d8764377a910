// UTF-8 (RFC 3629): the bytes of an encoded line, with their decoder.

module Utf8 {
  import opened Text

  type Byte = b: int | 0 <= b < 256

  const NEWLINE: Byte := 10

  function EncodeChar(c: char): (bs: seq<Byte>)
    ensures 1 <= |bs| <= 4
    ensures c != '\n' ==> NEWLINE !in bs
  {
    var u := c as int;
    if u < 0x80 then [u]
    else if u < 0x800 then [0xC0 + u / 64, 0x80 + u % 64]
    else if u < 0x10000 then [0xE0 + u / 4096, 0x80 + u / 64 % 64, 0x80 + u % 64]
    else [0xF0 + u / 262144, 0x80 + u / 4096 % 64, 0x80 + u / 64 % 64, 0x80 + u % 64]
  }

  function Encode(s: string): seq<Byte> {
    if s == "" then [] else EncodeChar(s[0]) + Encode(s[1..])
  }

  predicate IsScalar(u: int) { 0 <= u < 0xD800 || 0xE000 <= u < 0x110000 }

  /** The number of bytes that a lead byte announces, 0 when it is not one. */
  function SequenceLength(lead: Byte): nat {
    if lead < 0x80 then 1
    else if lead < 0xC0 then 0
    else if lead < 0xE0 then 2
    else if lead < 0xF0 then 3
    else 4
  }

  function Low6(b: Byte): int { b - 0x80 }

  /** The scalar value that one complete sequence spells. */
  function SequenceValue(bs: seq<Byte>): int
    requires |bs| > 0 && |bs| == SequenceLength(bs[0])
  {
    var lead: int := bs[0];
    if |bs| == 1 then lead
    else if |bs| == 2 then (lead - 0xC0) * 64 + Low6(bs[1])
    else if |bs| == 3 then (lead - 0xE0) * 4096 + Low6(bs[1]) * 64 + Low6(bs[2])
    else (lead - 0xF0) * 262144 + Low6(bs[1]) * 4096 + Low6(bs[2]) * 64 + Low6(bs[3])
  }

  /** Strict decoding: stray, overlong and surrogate sequences are refused. */
  function Decode(bs: seq<Byte>): Option<string> {
    if bs == [] then Some("")
    else
      var n := SequenceLength(bs[0]);
      if n == 0 || n > |bs| then None
      else
        var u := SequenceValue(bs[..n]);
        if !IsScalar(u) || EncodeChar(u as char) != bs[..n] then None
        else
          match Decode(bs[n..])
          case None => None
          case Some(s) => Some([u as char] + s)
  }

  lemma CharValue(c: char)
    ensures |EncodeChar(c)| == SequenceLength(EncodeChar(c)[0])
    ensures SequenceValue(EncodeChar(c)) == c as int
  {
    var u := c as int;
    assert u < 0x110000;
    assert u == u / 64 * 64 + u % 64;
    assert u / 64 == u / 4096 * 64 + u / 64 % 64;
    assert u / 4096 == u / 262144 * 64 + u / 4096 % 64;
  }

  /** Decoding undoes encoding, for every string. */
  lemma {:induction false} RoundTrip(s: string)
    ensures Decode(Encode(s)) == Some(s)
  {
    if s != "" {
      var head, tail := EncodeChar(s[0]), Encode(s[1..]);
      var bs := head + tail;
      CharValue(s[0]);
      RoundTrip(s[1..]);
      assert bs[..|head|] == head && bs[|head|..] == tail;
      assert [s[0]] + s[1..] == s;
    }
  }

  /** A newline byte comes only from a newline character. */
  lemma {:induction false} NoNewline(s: string)
    requires '\n' !in s
    ensures NEWLINE !in Encode(s)
  {
    if s != "" {
      NoNewline(s[1..]);
    }
  }

  lemma {:induction false} EncodeConcat(a: string, b: string)
    ensures Encode(a + b) == Encode(a) + Encode(b)
  {
    if a == "" {
      assert a + b == b;
    } else {
      EncodeConcat(a[1..], b);
      assert (a + b)[1..] == a[1..] + b;
      Assoc(EncodeChar(a[0]), Encode(a[1..]), Encode(b));
    }
  }

  lemma Assoc<T>(x: seq<T>, y: seq<T>, z: seq<T>)
    ensures x + (y + z) == (x + y) + z
  {
  }

  /** A character takes as few bytes as section 3 of RFC 3629 allows. */
  lemma ShortestForm(c: char)
    ensures |EncodeChar(c)| == 1 <==> c as int < 0x80
    ensures |EncodeChar(c)| == 2 <==> 0x80 <= c as int < 0x800
    ensures |EncodeChar(c)| == 3 <==> 0x800 <= c as int < 0x10000
    ensures |EncodeChar(c)| == 4 <==> c as int >= 0x10000
  {
  }

  /** The lead byte says how many bytes there are, and the others are marked as such. */
  lemma LeadAndTail(c: char)
    ensures
      var bs := EncodeChar(c);
      && (|bs| == 1 ==> bs[0] < 0x80) && (|bs| == 2 ==> 0xC2 <= bs[0] < 0xE0)
      && (|bs| == 3 ==> 0xE0 <= bs[0] < 0xF0) && (|bs| == 4 ==> 0xF0 <= bs[0] < 0xF5)
      && forall i | 1 <= i < |bs| :: 0x80 <= bs[i] < 0xC0
  {
  }
}
