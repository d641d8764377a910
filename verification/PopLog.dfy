// The log as a reader sees it: bytes split into lines at the newline byte.

module PopLog {
  import opened Utf8

  /** A complete line: no newline but the one that ends it. */
  predicate IsLine(chunk: seq<Byte>) {
    chunk != [] && chunk[|chunk| - 1] == NEWLINE && NEWLINE !in chunk[..|chunk| - 1]
  }

  /** What a failed or interrupted append may leave: part of a line, without its newline. */
  predicate IsFragment(chunk: seq<Byte>) { NEWLINE !in chunk }

  predicate AreChunks(chunks: seq<seq<Byte>>) {
    forall i | 0 <= i < |chunks| :: IsLine(chunks[i]) || IsFragment(chunks[i])
  }

  function Flatten(chunks: seq<seq<Byte>>): seq<Byte> {
    if chunks == [] then [] else chunks[0] + Flatten(chunks[1..])
  }

  /** The position of the first newline. */
  function FirstNewline(log: seq<Byte>): (k: nat)
    requires NEWLINE in log
    ensures k < |log| && log[k] == NEWLINE && NEWLINE !in log[..k]
  {
    if log[0] == NEWLINE then 0
    else
      var k := FirstNewline(log[1..]);
      assert log[..1 + k] == [log[0]] + log[1..][..k];
      1 + k
  }

  /** The complete lines of a log, without their newlines. */
  function Lines(log: seq<Byte>): seq<seq<Byte>>
    decreases |log|
  {
    if NEWLINE !in log then []
    else
      var k := FirstNewline(log);
      [log[..k]] + Lines(log[k + 1..])
  }

  /** The bodies of the chunks that are complete lines, in order. */
  function Bodies(chunks: seq<seq<Byte>>): seq<seq<Byte>> {
    if chunks == [] then []
    else (if IsLine(chunks[0]) then [chunks[0][..|chunks[0]| - 1]] else []) + Bodies(chunks[1..])
  }

  predicate NoLine(chunks: seq<seq<Byte>>) { forall i | 0 <= i < |chunks| :: !IsLine(chunks[i]) }

  /** No non-empty fragment is followed by a complete line. */
  predicate Unbroken(chunks: seq<seq<Byte>>) {
    chunks == [] || ((chunks[0] != [] && !IsLine(chunks[0]) ==> NoLine(chunks[1..])) && Unbroken(chunks[1..]))
  }

  lemma FirstNewlineIsAt(log: seq<Byte>, k: nat)
    requires k < |log| && log[k] == NEWLINE && NEWLINE !in log[..k]
    ensures FirstNewline(log) == k
  {
    var j := FirstNewline(log);
    NoneBefore(log, k);
    NoneBefore(log, j);
  }

  lemma NoneBefore(log: seq<Byte>, k: nat)
    requires k <= |log| && NEWLINE !in log[..k]
    ensures forall j | 0 <= j < k :: log[j] != NEWLINE
  {
    forall j | 0 <= j < k ensures log[j] != NEWLINE {
      assert log[..k][j] == log[j];
    }
  }

  lemma LinesSplit(head: seq<Byte>, rest: seq<Byte>)
    requires NEWLINE !in head
    ensures Lines(head + [NEWLINE] + rest) == [head] + Lines(rest)
  {
    var log := head + [NEWLINE] + rest;
    assert log[..|head|] == head && log[|head| + 1..] == rest;
    FirstNewlineIsAt(log, |head|);
  }

  /** What follows the last newline. */
  function Tail(log: seq<Byte>): (t: seq<Byte>)
    ensures NEWLINE !in t
    decreases |log|
  {
    if NEWLINE !in log then log else Tail(log[FirstNewline(log) + 1..])
  }

  lemma TailSplit(head: seq<Byte>, rest: seq<Byte>)
    requires NEWLINE !in head
    ensures Tail(head + [NEWLINE] + rest) == Tail(rest)
  {
    var log := head + [NEWLINE] + rest;
    assert log[..|head|] == head && log[|head| + 1..] == rest;
    FirstNewlineIsAt(log, |head|);
  }

  /** Appending can only change the unfinished last line. */
  lemma {:induction false} LinesBehind(base: seq<Byte>, rest: seq<Byte>)
    ensures Lines(base + rest) == Lines(base) + Lines(Tail(base) + rest)
    decreases |base|
  {
    if NEWLINE in base {
      var k := FirstNewline(base);
      var head, behind := base[..k], base[k + 1..];
      assert base == head + [NEWLINE] + behind;
      LinesBehind(behind, rest);
      LinesBehindStep(head, behind, rest);
    }
  }

  lemma LinesBehindStep(head: seq<Byte>, behind: seq<Byte>, rest: seq<Byte>)
    requires NEWLINE !in head
    requires Lines(behind + rest) == Lines(behind) + Lines(Tail(behind) + rest)
    ensures
      var base := head + [NEWLINE] + behind;
      Lines(base + rest) == Lines(base) + Lines(Tail(base) + rest)
  {
    var base := head + [NEWLINE] + behind;
    LinesSplit(head, behind);
    TailSplit(head, behind);
    LinesSplit(head, behind + rest);
    assert base + rest == head + [NEWLINE] + (behind + rest);
    ConsBehind(head, Lines(behind), Lines(Tail(behind) + rest));
  }

  lemma ConsBehind<T>(x: T, xs: seq<T>, ys: seq<T>)
    ensures [x] + (xs + ys) == ([x] + xs) + ys
  {
  }

  /**
   * A reader gets back exactly the complete lines, in order, if and only if no fragment precedes
   * one: a fragment is glued to the line behind it, whose writer was told that it was written.
   */
  lemma LinesAreRecoveredExactly(base: seq<Byte>, chunks: seq<seq<Byte>>)
    requires AreChunks(chunks)
    ensures Lines(base + Flatten(chunks)) == Lines(base) + Bodies(chunks)
      <==> (Tail(base) == [] || NoLine(chunks)) && Unbroken(chunks)
  {
    LinesBehind(base, Flatten(chunks));
    RecoveredBehind(Tail(base), chunks);
    var ours := Lines(Tail(base) + Flatten(chunks));
    assert (Lines(base) + ours)[|Lines(base)|..] == ours;
    assert (Lines(base) + Bodies(chunks))[|Lines(base)|..] == Bodies(chunks);
  }

  /** What a reader finds behind an unfinished line. */
  predicate RecoveredIff(pending: seq<Byte>, chunks: seq<seq<Byte>>) {
    Lines(pending + Flatten(chunks)) == Bodies(chunks) <==> (pending == [] || NoLine(chunks)) && Unbroken(chunks)
  }

  lemma {:induction false} RecoveredBehind(pending: seq<Byte>, chunks: seq<seq<Byte>>)
    requires AreChunks(chunks) && IsFragment(pending)
    ensures RecoveredIff(pending, chunks)
    decreases |chunks|
  {
    if chunks == [] {
      assert pending + Flatten(chunks) == pending;
    } else {
      assert AreChunks(chunks[1..]);
      if IsLine(chunks[0]) {
        RecoveredBehind([], chunks[1..]);
        RecoveredLine(pending, chunks);
      } else {
        RecoveredBehind(pending + chunks[0], chunks[1..]);
        RecoveredFragment(pending, chunks);
      }
    }
  }

  lemma RecoveredFragment(pending: seq<Byte>, chunks: seq<seq<Byte>>)
    requires chunks != [] && !IsLine(chunks[0]) && RecoveredIff(pending + chunks[0], chunks[1..])
    ensures RecoveredIff(pending, chunks)
  {
    NoLineStep(chunks);
    Assoc(pending, chunks[0], Flatten(chunks[1..]));
    NothingAdded(Bodies(chunks[1..]));
    assert Bodies(chunks) == Bodies(chunks[1..]);
    assert |pending + chunks[0]| == 0 <==> |pending| == 0 && |chunks[0]| == 0;
  }

  lemma NothingAdded<T>(xs: seq<T>)
    ensures [] + xs == xs
  {
  }

  lemma RecoveredLine(pending: seq<Byte>, chunks: seq<seq<Byte>>)
    requires NEWLINE !in pending && chunks != [] && IsLine(chunks[0]) && RecoveredIff([], chunks[1..])
    ensures RecoveredIff(pending, chunks)
  {
    var body, rest := chunks[0][..|chunks[0]| - 1], chunks[1..];
    NoLineStep(chunks);
    assert chunks[0] == body + [NEWLINE];
    assert pending + Flatten(chunks) == pending + body + [NEWLINE] + Flatten(rest);
    LineFirst(pending, body, Flatten(rest), Bodies(rest));
    assert [] + Flatten(rest) == Flatten(rest);
  }

  lemma NoLineStep(chunks: seq<seq<Byte>>)
    requires chunks != []
    ensures NoLine(chunks) <==> !IsLine(chunks[0]) && NoLine(chunks[1..])
  {
    if !IsLine(chunks[0]) && NoLine(chunks[1..]) {
      forall i | 0 <= i < |chunks| ensures !IsLine(chunks[i]) {
        assert i > 0 ==> chunks[i] == chunks[1..][i - 1];
      }
    }
  }

  lemma LineFirst(pending: seq<Byte>, body: seq<Byte>, rest: seq<Byte>, bodies: seq<seq<Byte>>)
    requires NEWLINE !in pending && NEWLINE !in body
    ensures Lines(pending + body + [NEWLINE] + rest) == [body] + bodies <==> pending == [] && Lines(rest) == bodies
  {
    LinesSplit(pending + body, rest);
    assert pending == [] ==> pending + body == body;
    SameHead(pending + body, body, Lines(rest), bodies);
  }

  lemma SameHead<T>(x: T, y: T, xs: seq<T>, ys: seq<T>)
    ensures [x] + xs == [y] + ys <==> x == y && xs == ys
  {
    assert ([x] + xs)[0] == x && ([y] + ys)[0] == y;
    assert ([x] + xs)[1..] == xs && ([y] + ys)[1..] == ys;
  }

  lemma {:induction false} FlattenAppend(chunks: seq<seq<Byte>>, c: seq<Byte>)
    ensures Flatten(chunks + [c]) == Flatten(chunks) + c
  {
    if chunks == [] {
      assert chunks + [c] == [c];
      assert [c][1..] == [];
    } else {
      FlattenAppend(chunks[1..], c);
      assert (chunks + [c])[1..] == chunks[1..] + [c];
      Assoc(chunks[0], Flatten(chunks[1..]), c);
    }
  }

  /** When the last chunk grows, the whole grows at its end. */
  lemma {:induction false} FlattenGrows(cs: seq<seq<Byte>>, more: seq<seq<Byte>>, d: seq<Byte>)
    requires |cs| == |more| > 0
    requires forall k | 0 <= k < |cs| - 1 :: cs[k] == more[k]
    requires more[|cs| - 1] == cs[|cs| - 1] + d
    ensures Flatten(more) == Flatten(cs) + d
  {
    if |cs| == 1 {
      assert Flatten(cs[1..]) == [] && Flatten(more[1..]) == [];
      Assoc(cs[0], d, []);
      assert cs[0] + [] == cs[0] && d + [] == d;
    } else {
      FlattenGrows(cs[1..], more[1..], d);
      Assoc(cs[0], Flatten(cs[1..]), d);
    }
  }
}
