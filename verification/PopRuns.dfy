// What holds over whole runs of any number of write_pop_event calls.

module PopRuns {
  import opened PopLock
  import opened PopLog
  import opened PopRecord
  import opened Text
  import opened Utf8

  // ---------------------------------------------------------------- every reachable state

  lemma RunStep(states: seq<State>, schedule: seq<Move>, k: nat)
    requires IsRun(states, schedule) && k < |schedule|
    ensures Step(states[k], schedule[k].call, schedule[k].action) == Some(states[k + 1])
  {
  }

  lemma {:induction false} RunKeepsInv(states: seq<State>, schedule: seq<Move>, k: nat)
    requires IsRun(states, schedule) && k < |states|
    ensures Inv(states[k]) && states[k].base == states[0].base && |states[k].writers| == |states[0].writers|
    ensures forall i | 0 <= i < |states[0].writers| :: states[k].writers[i].line == states[0].writers[i].line
  {
    if k == 0 {
      assert Chunks(states[0]) == [];
    } else {
      RunKeepsInv(states, schedule, k - 1);
      RunStep(states, schedule, k - 1);
      StepKeepsInv(states[k - 1], schedule[k - 1].call, schedule[k - 1].action);
    }
  }

  /**
   * At any time at most one call is between creating the lock file and removing it, the lock file
   * exists while one is, and a step that changes the log is taken by that call, at the end of the log.
   */
  lemma OneWriterAtATime(states: seq<State>, schedule: seq<Move>, k: nat)
    requires IsRun(states, schedule) && k < |states|
    ensures
      var s := states[k];
      && (forall i, j | 0 <= i < j < |s.writers| :: !(InSection(s.writers[i].phase) && InSection(s.writers[j].phase)))
      && (forall i | 0 <= i < |s.writers| && InSection(s.writers[i].phase) :: s.lock)
      && (k < |schedule| && states[k + 1].log != s.log ==>
            s.log <= states[k + 1].log && InSection(s.writers[schedule[k].call].phase))
  {
    RunKeepsInv(states, schedule, k);
    if k < |schedule| {
      RunStep(states, schedule, k);
      StepKeepsInv(states[k], schedule[k].call, schedule[k].action);
    }
  }

  lemma StepExtendsLog(states: seq<State>, schedule: seq<Move>, k: nat)
    requires IsRun(states, schedule) && k < |schedule|
    ensures states[k].log <= states[k + 1].log
  {
    OneWriterAtATime(states, schedule, k);
  }

  /** Every earlier log is a prefix of every later one. */
  lemma {:induction false} LogOnlyGrows(states: seq<State>, schedule: seq<Move>, j: nat, k: nat)
    requires IsRun(states, schedule) && j <= k < |states|
    ensures states[j].log <= states[k].log
    decreases k
  {
    if j < k {
      LogOnlyGrows(states, schedule, j, k - 1);
      StepExtendsLog(states, schedule, k - 1);
    }
  }

  /**
   * What a result says about the log: behind the bytes it started with, the log is the chunks of
   * the calls in the order of their turns. A written call has one turn and its chunk is its whole
   * line; a skipped call has no turn; a failed one has at most one, with a prefix of its line.
   */
  lemma ResultsMean(states: seq<State>, schedule: seq<Move>, k: nat, i: nat)
    requires IsRun(states, schedule) && k < |states| && i < |states[0].writers|
    ensures Inv(states[k]) && i < |states[k].writers|
    ensures
      var s, w := states[k], states[k].writers[i];
      && s.log == s.base + Flatten(Chunks(s))
      && (forall a, b | 0 <= a < b < |s.turns| :: !(s.turns[a] == i && s.turns[b] == i))
      && (forall a | 0 <= a < |s.turns| && s.turns[a] == i :: Chunks(s)[a] <= w.line)
      && (w.phase.Returned? && w.phase.status == WasWritten ==>
            exists a | 0 <= a < |s.turns| :: s.turns[a] == i && Chunks(s)[a] == w.line)
      && (w.phase.Returned? && w.phase.status == WasSkipped ==> i !in s.turns && w.phase.reason == LockUnavailable)
  {
    RunKeepsInv(states, schedule, k);
    var s, w := states[k], states[k].writers[i];
    if w.phase.Returned? && w.phase.status == WasWritten {
      assert i in s.turns;
      var a :| 0 <= a < |s.turns| && s.turns[a] == i;
      assert Chunks(s)[a] == w.line;
    }
    if w.phase.Returned? && w.phase.status == WasSkipped {
      assert !TookTurn(w.phase);
    }
  }

  // ---------------------------------------------------------------- a lock file that nobody will remove

  /** The lock file exists but no call that could remove it is under way. */
  predicate Orphaned(s: State) {
    s.lock && forall i | 0 <= i < |s.writers| :: !InSection(s.writers[i].phase)
  }

  /** The ways to leave the section without removing the lock file. */
  predicate Leaks(a: Action) {
    a == Crash || a == WriteMarker(MarkerRaises) || a == CloseMarker(false) || a == Release(false)
    || (a.DropMarker? && !(a.closed && a.unlinked))
  }

  lemma LocalLeaks(w: Writer, lock: bool, a: Action)
    requires InSection(w.phase) && w.holds && lock && Local(w, lock, a).Some?
    ensures
      var e := Local(w, lock, a).value;
      (!InSection(e.writer.phase) && e.lock <==> Leaks(a)) && (InSection(e.writer.phase) ==> e.lock)
  {
  }

  /** A step of the call that holds the lock orphans it exactly if it is a crash or one of the leaks. */
  lemma OrphanedExactly(s: State, i: nat, a: Action)
    requires Inv(s) && Step(s, i, a).Some? && InSection(s.writers[i].phase)
    ensures Orphaned(Step(s, i, a).value) <==> Leaks(a)
  {
    LocalLeaks(s.writers[i], s.lock, a);
    var t := Step(s, i, a).value;
    forall j | 0 <= j < |s.writers| && j != i ensures !InSection(t.writers[j].phase) {
      assert s.writers[i].holds;
    }
    assert t.writers[i] == Local(s.writers[i], s.lock, a).value.writer;
  }

  predicate Blocked(p: Phase) {
    p == Phase.Start || p == Crashed || p == Returned(WasSkipped, LockUnavailable) ||
      p == Returned(WasError, WriteFailed)
  }

  lemma LocalBlocked(w: Writer, a: Action)
    requires !InSection(w.phase) && Local(w, true, a).Some?
    ensures
      var e := Local(w, true, a).value;
      && e.lock && e.appended == [] && w.phase == Phase.Start && Blocked(e.writer.phase)
      && (a == OpenLock(false) ==> e.writer.phase == Returned(WasSkipped, LockUnavailable))
      && (a == MkdirFails || a == OpenLock(false) || a == Crash)
  {
  }

  lemma StepKeepsOrphaned(s: State, i: nat, a: Action)
    requires Orphaned(s) && Step(s, i, a).Some?
    ensures
      var t := Step(s, i, a).value;
      && Orphaned(t) && t.log == s.log && t.turns == s.turns && |t.writers| == |s.writers|
      && (forall j | 0 <= j < |s.writers| && Blocked(s.writers[j].phase) :: Blocked(t.writers[j].phase))
      && (a == OpenLock(false) ==> t.writers[i].phase == Returned(WasSkipped, LockUnavailable))
      && (a == MkdirFails || a == OpenLock(false) || a == Crash)
  {
    LocalBlocked(s.writers[i], a);
    var t := Step(s, i, a).value;
    assert t.writers[i] == Local(s.writers[i], true, a).value.writer;
  }

  /**
   * An orphaned lock is final: from then on no step appends to the log, and a call that had not
   * tried the lock yet crashes, fails before it tries, or returns lock_unavailable.
   */
  lemma {:induction false} OrphanedForever(states: seq<State>, schedule: seq<Move>, j: nat, k: nat)
    requires IsRun(states, schedule) && j <= k < |states| && Orphaned(states[j])
    ensures Orphaned(states[k]) && states[k].log == states[j].log && |states[k].writers| == |states[j].writers|
    ensures forall i | 0 <= i < |states[j].writers| && states[j].writers[i].phase == Phase.Start ::
        Blocked(states[k].writers[i].phase)
    ensures k < |schedule| && schedule[k].action.OpenLock? ==>
              states[k + 1].writers[schedule[k].call].phase == Returned(WasSkipped, LockUnavailable)
    decreases k
  {
    if j < k {
      OrphanedForever(states, schedule, j, k - 1);
      RunStep(states, schedule, k - 1);
      StepKeepsOrphaned(states[k - 1], schedule[k - 1].call, schedule[k - 1].action);
      assert forall i | 0 <= i < |states[j].writers| && states[j].writers[i].phase == Phase.Start ::
          Blocked(states[k - 1].writers[i].phase);
    }
    if k < |schedule| {
      RunStep(states, schedule, k);
      StepKeepsOrphaned(states[k], schedule[k].call, schedule[k].action);
    }
  }

  // ---------------------------------------------------------------- from the log back to the records

  /** The calls whose whole line is in the log, in the order of their turns. */
  function Appended(writers: seq<Writer>, turns: seq<nat>): (full: seq<nat>)
    requires forall k | 0 <= k < |turns| :: turns[k] < |writers|
  {
    if turns == [] then []
    else
      var rest := Appended(writers, turns[1..]);
      if writers[turns[0]].sent == |writers[turns[0]].line| then [turns[0]] + rest else rest
  }

  lemma {:induction false} AppendedExactly(writers: seq<Writer>, turns: seq<nat>, i: nat)
    requires forall k | 0 <= k < |turns| :: turns[k] < |writers|
    ensures i in Appended(writers, turns) <==> i in turns && writers[i].sent == |writers[i].line|
  {
    if turns != [] {
      AppendedExactly(writers, turns[1..], i);
      assert i in turns <==> i == turns[0] || i in turns[1..];
    }
  }

  predicate ChunksOf(cs: seq<seq<Byte>>, writers: seq<Writer>, turns: seq<nat>) {
    && |cs| == |turns|
    && forall k | 0 <= k < |turns| ::
         && turns[k] < |writers| && writers[turns[k]].sent <= |writers[turns[k]].line| && IsLine(writers[turns[k]].line)
         && cs[k] == writers[turns[k]].line[..writers[turns[k]].sent]
  }

  lemma PrefixOfLine(line: seq<Byte>, n: nat)
    requires IsLine(line) && n <= |line|
    ensures if n == |line| then line[..n] == line else IsFragment(line[..n]) && !IsLine(line[..n])
  {
    if n < |line| {
      assert line[..n] == line[..|line| - 1][..n];
    }
  }

  function Body(line: seq<Byte>): seq<Byte> { if line == [] then [] else line[..|line| - 1] }

  /** The bodies are those of the lines of the listed calls. */
  predicate BodiesOf(bodies: seq<seq<Byte>>, writers: seq<Writer>, full: seq<nat>) {
    |bodies| == |full| && forall k | 0 <= k < |full| :: full[k] < |writers| && bodies[k] == Body(writers[full[k]].line)
  }

  lemma {:induction false} BodiesOfTurns(cs: seq<seq<Byte>>, writers: seq<Writer>, turns: seq<nat>)
    requires ChunksOf(cs, writers, turns)
    ensures AreChunks(cs) && BodiesOf(Bodies(cs), writers, Appended(writers, turns))
    decreases |cs|
  {
    if cs != [] {
      var w := writers[turns[0]];
      BodiesOfTurns(cs[1..], writers, turns[1..]);
      PrefixOfLine(w.line, w.sent);
      forall k | 0 <= k < |cs| ensures IsLine(cs[k]) || IsFragment(cs[k]) {
        assert k > 0 ==> cs[k] == cs[1..][k - 1];
      }
      BodiesStep(Bodies(cs[1..]), writers, Appended(writers, turns[1..]), turns[0]);
    }
  }

  lemma BodiesStep(bodies: seq<seq<Byte>>, writers: seq<Writer>, full: seq<nat>, i: nat)
    requires BodiesOf(bodies, writers, full) && i < |writers|
    ensures BodiesOf([Body(writers[i].line)] + bodies, writers, [i] + full)
    ensures [] + bodies == bodies
  {
  }

  /** The earlier log ended with a newline or nothing complete followed, and no torn append precedes a complete one. */
  predicate Untorn(s: State)
    requires WritersOk(s) && TurnsOk(s)
  {
    (Tail(s.base) == [] || NoLine(Chunks(s))) && Unbroken(Chunks(s))
  }

  lemma StateLines(s: State)
    requires Inv(s)
    ensures Lines(s.log) == Lines(s.base) + Bodies(Chunks(s)) <==> Untorn(s)
    ensures BodiesOf(Bodies(Chunks(s)), s.writers, Appended(s.writers, s.turns))
  {
    BodiesOfTurns(Chunks(s), s.writers, s.turns);
    LinesAreRecoveredExactly(s.base, Chunks(s));
  }

  /** Every call appends the line of its record. */
  predicate Carry(writers: seq<Writer>, records: seq<Record>) {
    |records| == |writers| && forall i | 0 <= i < |records| :: writers[i].line == LineBytes(records[i])
  }

  /** Behind the first lines, the lines decode to the records of the listed calls. */
  predicate Decoded(lines: seq<seq<Byte>>, before: nat, full: seq<nat>, records: seq<Record>) {
    && |lines| == before + |full|
    && forall j | 0 <= j < |full| :: full[j] < |records| && DecodeLine(lines[before + j]) == Some(records[full[j]])
  }

  lemma BodiesDecode(earlier: seq<seq<Byte>>, bodies: seq<seq<Byte>>, writers: seq<Writer>, full: seq<nat>,
                     records: seq<Record>)
    requires Carry(writers, records) && BodiesOf(bodies, writers, full)
    ensures Decoded(earlier + bodies, |earlier|, full, records)
  {
    forall j | 0 <= j < |full|
      ensures full[j] < |records| && DecodeLine((earlier + bodies)[|earlier| + j]) == Some(records[full[j]])
    {
      DecodeBody(writers[full[j]].line, records[full[j]]);
    }
  }

  lemma RunKeepsRecords(states: seq<State>, schedule: seq<Move>, records: seq<Record>, k: nat)
    requires IsRun(states, schedule) && k < |states| && Carry(states[0].writers, records)
    ensures Inv(states[k]) && Carry(states[k].writers, records)
  {
    RunKeepsInv(states, schedule, k);
  }

  /**
   * The round trip of the log. In every state of every run, reading the log line by line yields
   * what was there before and then the lines of the completed appends, in the order of their
   * turns, if and only if no torn append precedes a complete one; and then decoding these lines
   * gives back the records of those calls.
   */
  lemma LogIsTheAppendedRecords(states: seq<State>, schedule: seq<Move>, records: seq<Record>, k: nat)
    requires IsRun(states, schedule) && k < |states| && Carry(states[0].writers, records)
    ensures Inv(states[k])
    ensures Lines(states[k].log) == Lines(states[k].base) + Bodies(Chunks(states[k])) <==> Untorn(states[k])
    ensures Untorn(states[k]) ==>
      Decoded(Lines(states[k].log), |Lines(states[k].base)|, Appended(states[k].writers, states[k].turns), records)
  {
    RunKeepsRecords(states, schedule, records, k);
    var s := states[k];
    StateLines(s);
    if Untorn(s) {
      BodiesDecode(Lines(s.base), Bodies(Chunks(s)), s.writers, Appended(s.writers, s.turns), records);
    }
  }

  /** Every call that returned written is among the completed appends. */
  lemma WrittenIsAppended(s: State, i: nat)
    requires Inv(s) && i < |s.writers| && s.writers[i].phase == Returned(WasWritten, ReasonWritten)
    ensures i in Appended(s.writers, s.turns)
  {
    AppendedExactly(s.writers, s.turns, i);
  }

  lemma DecodeBody(line: seq<Byte>, r: Record)
    requires line == LineBytes(r)
    ensures DecodeLine(Body(line)) == Some(r)
  {
    LineShape(r);
    LineRoundTrip(r);
    assert Body(line) == LineBody(r);
  }

  // ---------------------------------------------------------------- a call that is not disturbed

  function Exec(s: State, i: nat, actions: seq<Action>): Option<State>
    decreases |actions|
  {
    if actions == [] then Some(s)
    else
      match Step(s, i, actions[0])
      case None => None
      case Some(t) => Exec(t, i, actions[1..])
  }

  /** A whole call: n bytes of its line reach the log, and the append ends well or fails. */
  function Call(n: nat, ok: bool): seq<Action> {
    [OpenLock(true)] + ([WriteMarker(MarkerOk)] + ([CloseMarker(true)] + Write(n, ok)))
  }

  function Write(n: nat, ok: bool): seq<Action> {
    [OpenLog(true)] + ([Append(n)] + ([FinishAppend(ok)] + ([Release(true)] + [])))
  }

  /** The state in which only call i has moved. */
  function With(s: State, i: nat, w: Writer, lock: bool, appended: seq<Byte>, turns: seq<nat>): State
    requires i < |s.writers|
  {
    State(lock, s.base, s.log + appended, s.writers[i := w], s.turns + turns)
  }

  lemma ExecStep(s: State, i: nat, w: Writer, lock: bool, appended: seq<Byte>, turns: seq<nat>, a: Action,
                 rest: seq<Action>)
    requires i < |s.writers| && Local(w, lock, a).Some?
    ensures
      var e := Local(w, lock, a).value;
      Exec(With(s, i, w, lock, appended, turns), i, [a] + rest)
        == Exec(With(s, i, e.writer, e.lock, appended + e.appended, if a == OpenLog(true) then turns + [i] else turns),
                i, rest)
  {
    var e := Local(w, lock, a).value;
    assert s.writers[i := w][i := e.writer] == s.writers[i := e.writer];
    assert s.log + (appended + e.appended) == s.log + appended + e.appended;
    assert s.turns + (turns + [i]) == s.turns + turns + [i];
    assert ([a] + rest)[1..] == rest;
  }

  lemma AcquireAlone(s: State, i: nat, rest: seq<Action>)
    requires i < |s.writers| && !s.lock && s.writers[i].phase == Phase.Start
    ensures Exec(s, i, [OpenLock(true)] + ([WriteMarker(MarkerOk)] + ([CloseMarker(true)] + rest)))
         == Exec(With(s, i, s.writers[i].(phase := Locked, holds := true), true, [], []), i, rest)
  {
    var w := s.writers[i].(holds := true);
    var none: seq<Byte> := [];
    assert none + none == none;
    assert s == With(s, i, s.writers[i], false, none, []);
    ExecStep(s, i, s.writers[i], false, none, [], OpenLock(true),
             [WriteMarker(MarkerOk)] + ([CloseMarker(true)] + rest));
    ExecStep(s, i, w.(phase := Marking), true, none, [], WriteMarker(MarkerOk), [CloseMarker(true)] + rest);
    ExecStep(s, i, w.(phase := Marked), true, none, [], CloseMarker(true), rest);
  }

  function ResultOf(ok: bool): Phase {
    if ok then Returned(WasWritten, ReasonWritten) else Returned(WasError, WriteFailed)
  }

  lemma WriteAlone(s: State, i: nat, line: seq<Byte>, n: nat, ok: bool)
    requires i < |s.writers| && n <= |line| && (ok ==> n == |line|)
    ensures Exec(With(s, i, Writer(line, Locked, 0, true), true, [], []), i, Write(n, ok))
         == Some(With(s, i, Writer(line, ResultOf(ok), n, false), false, line[..n], [i]))
  {
    var none: seq<Byte>, noTurn: seq<nat> := [], [];
    assert none + none == none && none + line[0..n] == line[..n] && noTurn + [i] == [i];
    var last := [FinishAppend(ok)] + ([Release(true)] + []);
    ExecStep(s, i, Writer(line, Locked, 0, true), true, none, noTurn, OpenLog(true), [Append(n)] + last);
    ExecStep(s, i, Writer(line, Appending, 0, true), true, none, [i], Append(n), last);
    FinishAlone(s, i, line, n, ok);
  }

  lemma FinishAlone(s: State, i: nat, line: seq<Byte>, n: nat, ok: bool)
    requires i < |s.writers| && n <= |line| && (ok ==> n == |line|)
    ensures Exec(With(s, i, Writer(line, Appending, n, true), true, line[..n], [i]), i,
                 [FinishAppend(ok)] + ([Release(true)] + []))
         == Some(With(s, i, Writer(line, ResultOf(ok), n, false), false, line[..n], [i]))
  {
    assert line[..n] + [] == line[..n];
    ExecStep(s, i, Writer(line, Appending, n, true), true, line[..n], [i], FinishAppend(ok), [Release(true)] + []);
    ExecStep(s, i, Writer(line, Releasing(ok), n, true), true, line[..n], [i], Release(true), []);
  }

  /**
   * A call that finds no lock file and is not disturbed while it puts n bytes of its line into the
   * log: the log grows by these bytes, the lock file is gone again, and the result is written if
   * the append went well, and an error if it did not.
   */
  lemma UndisturbedCall(s: State, i: nat, n: nat, ok: bool)
    requires i < |s.writers| && !s.lock && s.writers[i] == Writer(s.writers[i].line, Phase.Start, 0, false)
    requires n <= |s.writers[i].line| && (ok ==> n == |s.writers[i].line|)
    ensures
      var line := s.writers[i].line;
      Exec(s, i, Call(n, ok)) == Some(With(s, i, Writer(line, ResultOf(ok), n, false), false, line[..n], [i]))
  {
    AcquireAlone(s, i, Write(n, ok));
    WriteAlone(s, i, s.writers[i].line, n, ok);
  }

  /** Two calls, one after the other, of which the first stops after n bytes. */
  function TornThenWhole(a: seq<Byte>, b: seq<Byte>, n: nat): Option<State> {
    match Exec(TwoCalls(a, b), 0, Call(n, false))
    case None => None
    case Some(s) => Exec(s, 1, Call(|b|, true))
  }

  function TwoCalls(a: seq<Byte>, b: seq<Byte>): State {
    State(false, [], [], [Writer(a, Phase.Start, 0, false), Writer(b, Phase.Start, 0, false)], [])
  }

  lemma TornThenWholeLog(a: seq<Byte>, b: seq<Byte>, n: nat)
    requires n <= |a|
    ensures TornThenWhole(a, b, n)
         == Some(State(false, [], a[..n] + b, [Writer(a, Returned(WasError, WriteFailed), n, false),
                                               Writer(b, Returned(WasWritten, ReasonWritten), |b|, false)], [0, 1]))
  {
    var s := TwoCalls(a, b);
    UndisturbedCall(s, 0, n, false);
    var s1 := With(s, 0, Writer(a, ResultOf(false), n, false), false, a[..n], [0]);
    assert s1.log == a[..n] && s1.turns == [0] && b[..|b|] == b && s1.turns + [1] == [0, 1];
    UndisturbedCall(s1, 1, |b|, true);
    var done := [Writer(a, ResultOf(false), n, false), Writer(b, ResultOf(true), |b|, false)];
    assert s1.writers[1 := done[1]] == done;
    assert With(s1, 1, done[1], false, b[..|b|], [1]) == State(false, [], a[..n] + b, done, [0, 1]);
  }

  /**
   * A torn append swallows the record behind it: after one call has failed in the middle of its
   * line, the next one returns written, but a reader finds one line, and it is not that record's.
   */
  lemma TornAppendSwallowsNext(torn: Record, next: Record, n: nat)
    requires 0 < n < |LineBytes(torn)|
    ensures Init(TwoCalls(LineBytes(torn), LineBytes(next)))
    ensures
      var t := TornThenWhole(LineBytes(torn), LineBytes(next), n);
      && t.Some? && |t.value.writers| == 2 && t.value.writers[1].phase == Returned(WasWritten, ReasonWritten)
      && Lines(t.value.log) == [LineBytes(torn)[..n] + LineBody(next)] && Lines(t.value.log) != [LineBody(next)]
  {
    LineIsLine(torn);
    LineIsLine(next);
    TornThenWholeLog(LineBytes(torn), LineBytes(next), n);
    LineShape(next);
    GluedLine(LineBytes(torn), LineBody(next), n);
  }

  lemma GluedLine(line: seq<Byte>, body: seq<Byte>, n: nat)
    requires IsLine(line) && 0 < n < |line| && NEWLINE !in body
    ensures Lines(line[..n] + (body + [NEWLINE])) == [line[..n] + body] && [line[..n] + body] != [body]
  {
    PrefixOfLine(line, n);
    LinesSplit(line[..n] + body, []);
    assert line[..n] + (body + [NEWLINE]) == line[..n] + body + [NEWLINE] + [];
    assert |line[..n] + body| == n + |body|;
  }

  lemma LineIsLine(r: Record)
    ensures IsLine(LineBytes(r))
  {
    LineShape(r);
    assert LineBytes(r)[..|LineBytes(r)| - 1] == LineBody(r);
  }
}
