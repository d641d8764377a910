// Which call's record a reader of the log finds, among torn appends of other calls.

module LogFinds {
  import opened PopLock
  import opened PopLog
  import opened PopRecord
  import opened PopRuns
  import opened Text
  import opened Utf8

  // ---------------------------------------------------------------- the log, cut at a turn

  lemma {:induction false} FlattenConcat(a: seq<seq<Byte>>, b: seq<seq<Byte>>)
    ensures Flatten(a + b) == Flatten(a) + Flatten(b)
  {
    if a == [] {
      assert a + b == b && Flatten(a) == [];
    } else {
      FlattenConcat(a[1..], b);
      assert (a + b)[1..] == a[1..] + b;
      Assoc(a[0], Flatten(a[1..]), Flatten(b));
    }
  }

  /** The log in front of turn m. */
  function Before(s: State, m: nat): seq<Byte>
    requires WritersOk(s) && TurnsOk(s) && m <= |s.turns|
  {
    s.base + Flatten(Chunks(s)[..m])
  }

  /** The log behind turn m. */
  function After(s: State, m: nat): seq<Byte>
    requires WritersOk(s) && TurnsOk(s) && m < |s.turns|
  {
    Flatten(Chunks(s)[m + 1..])
  }

  lemma BeforeStep(s: State, m: nat)
    requires WritersOk(s) && TurnsOk(s) && m < |s.turns|
    ensures Before(s, m + 1) == Before(s, m) + Chunk(s, s.turns[m])
  {
    assert Chunks(s)[..m + 1] == Chunks(s)[..m] + [Chunk(s, s.turns[m])];
    FlattenAppend(Chunks(s)[..m], Chunk(s, s.turns[m]));
    Assoc(s.base, Flatten(Chunks(s)[..m]), Chunk(s, s.turns[m]));
  }

  lemma LogAt(s: State, m: nat)
    requires Inv(s) && m < |s.turns|
    ensures s.log == Before(s, m) + (Chunk(s, s.turns[m]) + After(s, m))
  {
    var cs := Chunks(s);
    assert cs == cs[..m + 1] + cs[m + 1..];
    FlattenConcat(cs[..m + 1], cs[m + 1..]);
    Assoc(s.base, Flatten(cs[..m + 1]), Flatten(cs[m + 1..]));
    BeforeStep(s, m);
    Assoc(Before(s, m), Chunk(s, s.turns[m]), After(s, m));
  }

  /** No line is unfinished behind these appends: the last one that left any bytes was complete. */
  predicate Clear(base: seq<Byte>, cs: seq<seq<Byte>>) {
    if cs == [] then Tail(base) == []
    else if cs[|cs| - 1] == [] then Clear(base, cs[..|cs| - 1])
    else IsLine(cs[|cs| - 1])
  }

  lemma {:induction false} TailBehind(base: seq<Byte>, rest: seq<Byte>)
    ensures Tail(base + rest) == Tail(Tail(base) + rest)
    decreases |base|
  {
    if NEWLINE in base {
      var k := FirstNewline(base);
      var head, behind := base[..k], base[k + 1..];
      assert base == head + [NEWLINE] + behind;
      assert base + rest == head + [NEWLINE] + (behind + rest);
      TailSplit(head, behind);
      TailSplit(head, behind + rest);
      TailBehind(behind, rest);
    }
  }

  lemma TailOfLast(log: seq<Byte>, c: seq<Byte>)
    requires c != [] && (IsLine(c) || IsFragment(c))
    ensures Tail(log + c) == [] <==> IsLine(c)
  {
    TailBehind(log, c);
    if IsLine(c) {
      var body := c[..|c| - 1];
      assert Tail(log) + c == (Tail(log) + body) + [NEWLINE] + [];
      TailSplit(Tail(log) + body, []);
    }
  }

  lemma {:induction false} ClearExactly(base: seq<Byte>, cs: seq<seq<Byte>>)
    requires AreChunks(cs)
    ensures Tail(base + Flatten(cs)) == [] <==> Clear(base, cs)
    decreases |cs|
  {
    if cs == [] {
      assert base + Flatten(cs) == base;
    } else {
      var n := |cs| - 1;
      assert cs == cs[..n] + [cs[n]];
      FlattenAppend(cs[..n], cs[n]);
      Assoc(base, Flatten(cs[..n]), cs[n]);
      if cs[n] == [] {
        ClearExactly(base, cs[..n]);
        assert base + Flatten(cs[..n]) + cs[n] == base + Flatten(cs[..n]);
      } else {
        TailOfLast(base + Flatten(cs[..n]), cs[n]);
      }
    }
  }

  // ---------------------------------------------------------------- what a reader finds

  /** Bytes without a newline in front of a text make no line of their own. */
  lemma FragmentAddsNone(p: seq<Byte>, rest: seq<Byte>)
    requires NEWLINE !in p
    ensures |Lines(p + rest)| == |Lines(rest)|
  {
    if NEWLINE in rest {
      var k := FirstNewline(rest);
      var head, tail := rest[..k], rest[k + 1..];
      assert rest == head + [NEWLINE] + tail;
      assert p + rest == (p + head) + [NEWLINE] + tail;
      LinesSplit(p + head, tail);
      LinesSplit(head, tail);
    }
  }

  /** Behind these bytes a reader finds a line, and then what it would find in the rest alone. */
  predicate FindsBetween(before: seq<Byte>, chunk: seq<Byte>, after: seq<Byte>, body: seq<Byte>) {
    Lines(before + (chunk + after)) == Lines(before) + ([body] + Lines(after))
  }

  lemma SameTail<T>(xs: seq<T>, ys: seq<T>, zs: seq<T>)
    ensures xs + ys == xs + zs <==> ys == zs
  {
    assert (xs + ys)[|xs|..] == ys && (xs + zs)[|xs|..] == zs;
  }

  lemma FindsLine(before: seq<Byte>, body: seq<Byte>, after: seq<Byte>)
    requires NEWLINE !in body
    ensures FindsBetween(before, body + [NEWLINE], after, body) <==> Tail(before) == []
  {
    LinesBehind(before, body + [NEWLINE] + after);
    assert Tail(before) + (body + [NEWLINE] + after) == Tail(before) + body + [NEWLINE] + after;
    LineFirst(Tail(before), body, after, Lines(after));
    SameTail(Lines(before), Lines(Tail(before) + (body + [NEWLINE] + after)), [body] + Lines(after));
  }

  lemma FindsNoLine(before: seq<Byte>, fragment: seq<Byte>, after: seq<Byte>, body: seq<Byte>)
    requires IsFragment(fragment)
    ensures !FindsBetween(before, fragment, after, body)
  {
    LinesBehind(before, fragment + after);
    assert Tail(before) + (fragment + after) == (Tail(before) + fragment) + after;
    FragmentAddsNone(Tail(before) + fragment, after);
    assert |Lines(before) + ([body] + Lines(after))| == |Lines(before)| + 1 + |Lines(after)|;
  }

  /**
   * A reader finds the record of turn m: its lines are those in front of the turn, then the line of
   * this call, then those behind it.
   */
  predicate FindsTurn(s: State, m: nat)
    requires WritersOk(s) && TurnsOk(s) && m < |s.turns|
  {
    Lines(s.log) == Lines(Before(s, m)) + ([Body(s.writers[s.turns[m]].line)] + Lines(After(s, m)))
  }

  /** It does exactly if the append of the turn is complete and no unfinished line stands in front of it. */
  lemma FindsTurnExactly(s: State, m: nat)
    requires Inv(s) && m < |s.turns|
    ensures
      var w := s.writers[s.turns[m]];
      FindsTurn(s, m) <==> w.sent == |w.line| && Clear(s.base, Chunks(s)[..m])
  {
    var w := s.writers[s.turns[m]];
    LogAt(s, m);
    BodiesOfTurns(Chunks(s), s.writers, s.turns);
    ClearExactly(s.base, Chunks(s)[..m]);
    PrefixOfLine(w.line, w.sent);
    if w.sent == |w.line| {
      assert w.line == Body(w.line) + [NEWLINE];
      FindsLine(Before(s, m), Body(w.line), After(s, m));
    } else {
      FindsNoLine(Before(s, m), w.line[..w.sent], After(s, m), Body(w.line));
    }
  }

  /** A reader finds the record of call i. */
  predicate Found(s: State, i: nat)
    requires WritersOk(s) && TurnsOk(s)
  {
    exists m | 0 <= m < |s.turns| :: s.turns[m] == i && FindsTurn(s, m)
  }

  /** Nothing unfinished stands in front of the turn of call i. */
  predicate ClearTurn(s: State, i: nat)
    requires WritersOk(s) && TurnsOk(s)
  {
    exists m | 0 <= m < |s.turns| :: s.turns[m] == i && Clear(s.base, Chunks(s)[..m])
  }

  /**
   * In every state of every run, a reader finds the record of a call exactly if the call's append is
   * complete and the nearest append in front of it that left any bytes, or else the log before all
   * of them, ended its line; torn appends elsewhere do not matter.
   */
  lemma FoundExactly(s: State, i: nat)
    requires Inv(s)
    ensures Found(s, i) <==> i in Appended(s.writers, s.turns) && ClearTurn(s, i)
  {
    AppendedExactly(s.writers, s.turns, i);
    forall m | 0 <= m < |s.turns| && s.turns[m] == i
      ensures FindsTurn(s, m) <==> s.writers[i].sent == |s.writers[i].line| && Clear(s.base, Chunks(s)[..m])
    {
      FindsTurnExactly(s, m);
    }
  }

  /** What is found decodes to the record of the call. */
  lemma FoundDecodes(s: State, i: nat, r: Record) returns (m: nat)
    requires Inv(s) && Found(s, i) && i < |s.writers| && s.writers[i].line == LineBytes(r)
    ensures m < |s.turns| && s.turns[m] == i && |Lines(Before(s, m))| < |Lines(s.log)|
    ensures DecodeLine(Lines(s.log)[|Lines(Before(s, m))|]) == Some(r)
  {
    m :| m < |s.turns| && s.turns[m] == i && FindsTurn(s, m);
    assert Lines(s.log)[|Lines(Before(s, m))|] == Body(s.writers[i].line);
    DecodeBody(s.writers[i].line, r);
  }

  lemma LinesGrow(base: seq<Byte>, rest: seq<Byte>)
    ensures |Lines(base)| <= |Lines(base + rest)|
  {
    LinesBehind(base, rest);
  }

  lemma LineCounts(base: seq<Byte>, line: seq<Byte>)
    requires IsLine(line)
    ensures |Lines(base + line)| == |Lines(base)| + 1
  {
    var body := line[..|line| - 1];
    LinesBehind(base, line);
    assert Tail(base) + line == (Tail(base) + body) + [NEWLINE] + [];
    LinesSplit(Tail(base) + body, []);
  }

  lemma MoreLines(base: seq<Byte>, cs: seq<seq<Byte>>, m: nat, n: nat)
    requires m <= n <= |cs|
    ensures |Lines(base + Flatten(cs[..m]))| <= |Lines(base + Flatten(cs[..n]))|
  {
    assert cs[..n] == cs[..m] + cs[m..n];
    FlattenConcat(cs[..m], cs[m..n]);
    Assoc(base, Flatten(cs[..m]), Flatten(cs[m..n]));
    LinesGrow(base + Flatten(cs[..m]), Flatten(cs[m..n]));
  }

  /** The records of different calls are found at different lines, in the order of their turns. */
  lemma FoundApart(s: State, m: nat, n: nat)
    requires Inv(s) && m < n < |s.turns| && FindsTurn(s, m)
    ensures |Lines(Before(s, m))| < |Lines(Before(s, n))|
  {
    var w := s.writers[s.turns[m]];
    FindsTurnExactly(s, m);
    BeforeStep(s, m);
    WholeChunk(s, s.turns[m]);
    LineCounts(Before(s, m), w.line);
    MoreLines(s.base, Chunks(s), m + 1, n);
  }

  lemma WholeChunk(s: State, i: nat)
    requires WritersOk(s) && i < |s.writers| && s.writers[i].sent == |s.writers[i].line|
    ensures Chunk(s, i) == s.writers[i].line && IsLine(s.writers[i].line)
  {
    assert WriterOk(s.writers[i]);
  }

  /** The end of two calls, of which the first was torn after n bytes. */
  function TornEnd(a: seq<Byte>, b: seq<Byte>, n: nat): State
    requires n <= |a|
  {
    State(false, [], a[..n] + b, [Writer(a, Returned(WasError, WriteFailed), n, false),
                                  Writer(b, Returned(WasWritten, ReasonWritten), |b|, false)], [0, 1])
  }

  lemma TornEndIsSound(a: seq<Byte>, b: seq<Byte>, n: nat)
    requires IsLine(a) && IsLine(b) && n <= |a|
    ensures WritersOk(TornEnd(a, b, n)) && Exclusive(TornEnd(a, b, n)) && TurnsOk(TornEnd(a, b, n))
  {
  }

  lemma FlattenTwo(a: seq<Byte>, b: seq<Byte>)
    ensures [] + Flatten([a, b]) == a + b
  {
    assert [a, b][1..] == [b] && Flatten([b]) == b + Flatten([b][1..]) && [b][1..] == [];
    assert b + [] == b;
  }

  lemma TornEndInv(a: seq<Byte>, b: seq<Byte>, n: nat)
    requires IsLine(a) && IsLine(b) && n <= |a|
    ensures Inv(TornEnd(a, b, n)) && Chunks(TornEnd(a, b, n)) == [a[..n], b]
  {
    TornEndIsSound(a, b, n);
    assert b[..|b|] == b;
    FlattenTwo(a[..n], b);
    assert Chunks(TornEnd(a, b, n)) == [a[..n], b];
  }

  lemma NotClear(p: seq<Byte>)
    requires p != [] && !IsLine(p)
    ensures !Clear([], [p])
  {
  }

  /** A record that was written behind a torn append is complete, and is not found. */
  lemma SwallowedIsNotFound(torn: Record, next: Record, n: nat)
    requires 0 < n < |LineBytes(torn)|
    ensures
      var t := TornThenWhole(LineBytes(torn), LineBytes(next), n);
      && t.Some? && Inv(t.value)
      && 1 in Appended(t.value.writers, t.value.turns) && !Found(t.value, 1)
  {
    var a, b := LineBytes(torn), LineBytes(next);
    LineIsLine(torn);
    LineIsLine(next);
    TornThenWholeLog(a, b, n);
    TornEndInv(a, b, n);
    var t := TornEnd(a, b, n);
    PrefixOfLine(a, n);
    assert [a[..n], b][..1] == [a[..n]];
    NotClear(a[..n]);
    AppendedExactly(t.writers, t.turns, 1);
    FindsTurnExactly(t, 1);
  }
}
