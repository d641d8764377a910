// pop_writer.py: the lock-file protocol of write_pop_event, as interleaved steps of any
// number of calls over the lock file and the log.

module PopLock {
  import opened PopLog
  import opened PopRecord
  import opened Text
  import opened Utf8

  /** Where a call is. Each phase ends with one file operation, which may fail in its own way. */
  datatype Phase =
    | Start          // record built; before mkdir and os.open(O_CREAT | O_EXCL)
    | Marking        // lock file created; before the marker is written
    | Marked         // marker written; before os.close
    | Unmarking      // the marker write raised OSError; before close and unlink
    | Locked         // lock acquired; before open(log, "a")
    | Appending      // log open; bytes of the line reach the file, in any pieces
    | Releasing(ok: bool)  // finally: before the unlink of the lock file
    | Returned(status: WriteStatus, reason: WriteReason)
    | Crashed

  /**
   * One call: its line, how many bytes of it have reached the log, and whether it created the lock file
   * that exists.
   */
  datatype Writer = Writer(line: seq<Byte>, phase: Phase, sent: nat, holds: bool)

  /**
   * The shared state is the lock file and the log; base is the log at the start, turns the order in
   * which calls opened it.
   */
  datatype State = State(lock: bool, base: seq<Byte>, log: seq<Byte>, writers: seq<Writer>, turns: seq<nat>)

  datatype MarkerOutcome = MarkerOk | MarkerOsError | MarkerRaises

  datatype Action =
    | MkdirFails
    | OpenLock(ok: bool)
    | WriteMarker(outcome: MarkerOutcome)
    | CloseMarker(ok: bool)
    | DropMarker(closed: bool, unlinked: bool)
    | OpenLog(ok: bool)
    | Append(n: nat)
    | FinishAppend(ok: bool)
    | Release(unlinked: bool)
    | Crash

  datatype Effect = Effect(writer: Writer, lock: bool, appended: seq<Byte>)

  function Return(w: Writer, status: WriteStatus, reason: WriteReason): Writer {
    w.(phase := Returned(status, reason))
  }

  /**
   * One step of one call. An os.open of the lock file succeeds only if it does not exist. An
   * exception other than an OSError of the marker write, and an os.close that fails, leave
   * _acquire_lock with the lock file in place; an unlink that fails is ignored.
   */
  function Local(w: Writer, lock: bool, a: Action): Option<Effect> {
    match (w.phase, a)
    case (Start, MkdirFails) => Some(Effect(Return(w, WasError, WriteFailed), lock, []))
    case (Start, OpenLock(ok)) =>
      if !ok then Some(Effect(Return(w, WasSkipped, LockUnavailable), lock, []))
      else if lock then None
      else Some(Effect(w.(phase := Marking, holds := true), true, []))
    case (Marking, WriteMarker(MarkerOk)) => Some(Effect(w.(phase := Marked), lock, []))
    case (Marking, WriteMarker(MarkerOsError)) => Some(Effect(w.(phase := Unmarking), lock, []))
    case (Marking, WriteMarker(MarkerRaises)) => Some(Effect(Return(w, WasError, WriteFailed), lock, []))
    case (Marked, CloseMarker(ok)) =>
      Some(Effect(if ok then w.(phase := Locked) else Return(w, WasError, WriteFailed), lock, []))
    case (Unmarking, DropMarker(closed, unlinked)) =>
      if !closed then Some(Effect(Return(w, WasError, WriteFailed), lock, []))
      else if !unlinked then Some(Effect(Return(w, WasSkipped, LockUnavailable), lock, []))
      else Some(Effect(Return(w, WasSkipped, LockUnavailable).(holds := false), false, []))
    case (Locked, OpenLog(ok)) =>
      Some(Effect(w.(phase := if ok then Appending else Releasing(false)), lock, []))
    case (Appending, Append(n)) =>
      if w.sent + n > |w.line| then None
      else Some(Effect(w.(sent := w.sent + n), lock, w.line[w.sent..w.sent + n]))
    case (Appending, FinishAppend(ok)) =>
      if ok && w.sent != |w.line| then None else Some(Effect(w.(phase := Releasing(ok)), lock, []))
    case (Releasing(ok), Release(unlinked)) =>
      var done := if ok then Return(w, WasWritten, ReasonWritten) else Return(w, WasError, WriteFailed);
      if unlinked then Some(Effect(done.(holds := false), false, [])) else Some(Effect(done, lock, []))
    case (_, Crash) =>
      if w.phase.Returned? || w.phase.Crashed? then None else Some(Effect(w.(phase := Crashed), lock, []))
    case _ => None
  }

  function Apply(s: State, i: nat, a: Action, e: Effect): State
    requires i < |s.writers|
  {
    State(e.lock, s.base, s.log + e.appended, s.writers[i := e.writer],
          if a == OpenLog(true) then s.turns + [i] else s.turns)
  }

  function Step(s: State, i: nat, a: Action): Option<State> {
    if i >= |s.writers| then None
    else
      match Local(s.writers[i], s.lock, a)
      case None => None
      case Some(e) => Some(Apply(s, i, a, e))
  }

  /** Any number of calls before their first file operation; a lock file may have been left by an earlier crash. */
  predicate Init(s: State) {
    && s.log == s.base && s.turns == []
    && forall i | 0 <= i < |s.writers| ::
         s.writers[i].phase == Start && s.writers[i].sent == 0 && !s.writers[i].holds && IsLine(s.writers[i].line)
  }

  /** A schedule says which call takes its next step, and how that step goes. */
  datatype Move = Move(call: nat, action: Action)

  /** A run: an initial state and one step of one call after another. */
  predicate IsRun(states: seq<State>, schedule: seq<Move>) {
    && |states| == |schedule| + 1 && Init(states[0])
    && forall k | 0 <= k < |schedule| :: Step(states[k], schedule[k].call, schedule[k].action) == Some(states[k + 1])
  }

  // ---------------------------------------------------------------- the invariant

  /** Between the creation of the lock file and its unlink. */
  predicate InSection(p: Phase) {
    p.Marking? || p.Marked? || p.Unmarking? || p.Locked? || p.Appending? || p.Releasing?
  }

  predicate WriterOk(w: Writer) {
    && IsLine(w.line) && w.sent <= |w.line|
    && (InSection(w.phase) ==> w.holds)
    && (w.phase.Start? ==> !w.holds)
    && (w.phase.Start? || w.phase.Marking? || w.phase.Marked? || w.phase.Unmarking? || w.phase.Locked? ==> w.sent == 0)
    && (w.phase == Releasing(true) ==> w.sent == |w.line|)
    && (w.phase.Returned? && w.phase.status == WasWritten ==> w.sent == |w.line|)
    && (w.phase.Returned? && w.phase.status == WasSkipped ==> w.sent == 0 && w.phase.reason == LockUnavailable)
    && (w.phase.Returned? ==> (w.phase.status == WasWritten <==> w.phase.reason == ReasonWritten))
  }

  /** The bytes that call i has put into the log. */
  function Chunk(s: State, i: nat): seq<Byte>
    requires i < |s.writers| && s.writers[i].sent <= |s.writers[i].line|
  {
    s.writers[i].line[..s.writers[i].sent]
  }

  predicate TurnsOk(s: State) {
    && (forall k | 0 <= k < |s.turns| :: s.turns[k] < |s.writers|)
    && (forall j, k | 0 <= j < k < |s.turns| :: s.turns[j] != s.turns[k])
    && (forall i | 0 <= i < |s.writers| && s.writers[i].sent > 0 :: i in s.turns)
    && (forall k | 0 <= k < |s.turns| :: TookTurn(s.writers[s.turns[k]].phase))
    && (forall i | 0 <= i < |s.writers| && s.writers[i].phase.Appending? ::
          s.turns != [] && s.turns[|s.turns| - 1] == i)
  }

  predicate TookTurn(p: Phase) {
    p.Appending? || p.Releasing? || p.Crashed? || (p.Returned? && p.status != WasSkipped)
  }

  function Chunks(s: State): (cs: seq<seq<Byte>>)
    requires WritersOk(s) && TurnsOk(s)
    ensures |cs| == |s.turns|
    ensures forall k | 0 <= k < |cs| :: cs[k] == Chunk(s, s.turns[k])
  {
    seq(|s.turns|, k requires 0 <= k < |s.turns| => Chunk(s, s.turns[k]))
  }

  predicate WritersOk(s: State) { forall i | 0 <= i < |s.writers| :: WriterOk(s.writers[i]) }

  /** At most one call has a lock file in place, and while it has one, the lock file exists. */
  predicate Exclusive(s: State) {
    && (forall i | 0 <= i < |s.writers| && s.writers[i].holds :: s.lock)
    && (forall i, j | 0 <= i < j < |s.writers| :: !(s.writers[i].holds && s.writers[j].holds))
  }

  predicate Inv(s: State) {
    && WritersOk(s) && Exclusive(s) && TurnsOk(s)
    && s.log == s.base + Flatten(Chunks(s))
  }

  /** What a step of one call does to the call, to the lock file and to the log. */
  predicate Allowed(w: Writer, lock: bool, a: Action, e: Effect) {
    && WriterOk(e.writer) && (e.writer.holds ==> e.lock)
    && e.writer.line == w.line && w.sent <= e.writer.sent
    && e.appended == w.line[w.sent..e.writer.sent]
    && (e.lock != lock ==> e.writer.holds || w.holds)
    && (e.writer.holds && !w.holds ==> !lock)
    && (w.phase.Start? || w.phase.Marking? || w.phase.Marked? || w.phase.Unmarking? ==> a != OpenLog(true))
    && (TookTurn(w.phase) ==> TookTurn(e.writer.phase) && a != OpenLog(true))
    && (e.writer.sent > w.sent ==> w.phase.Appending? && w.holds)
    && (e.writer.phase.Appending? ==> w.phase.Appending? || a == OpenLog(true))
    && (a == OpenLog(true) ==> e.writer.phase.Appending? && w.holds && e.appended == [])
  }

  lemma LocalIsAllowed(w: Writer, lock: bool, a: Action)
    requires WriterOk(w) && (w.holds ==> lock) && Local(w, lock, a).Some?
    ensures Allowed(w, lock, a, Local(w, lock, a).value)
  {
  }

  lemma ApplyKeepsExclusive(s: State, i: nat, a: Action, e: Effect)
    requires i < |s.writers| && WritersOk(s) && Exclusive(s) && Allowed(s.writers[i], s.lock, a, e)
    ensures WritersOk(Apply(s, i, a, e)) && Exclusive(Apply(s, i, a, e))
  {
  }

  lemma TurnTaken(s: State, i: nat, e: Effect)
    requires i < |s.writers| && WritersOk(s) && Exclusive(s) && TurnsOk(s) &&
        Allowed(s.writers[i], s.lock, OpenLog(true), e)
    ensures TurnsOk(Apply(s, i, OpenLog(true), e))
  {
    var t := Apply(s, i, OpenLog(true), e);
    assert i !in s.turns by {
      assert !TookTurn(s.writers[i].phase);
    }
    assert t.turns[|s.turns|] == i;
    forall j | 0 <= j < |t.writers| && t.writers[j].sent > 0 ensures j in t.turns {
      assert j != i ==> j in s.turns;
    }
  }

  lemma ApplyKeepsTurns(s: State, i: nat, a: Action, e: Effect)
    requires i < |s.writers| && WritersOk(s) && Exclusive(s) && TurnsOk(s) && Allowed(s.writers[i], s.lock, a, e)
    ensures TurnsOk(Apply(s, i, a, e))
  {
    if a == OpenLog(true) {
      TurnTaken(s, i, e);
    } else {
      var t := Apply(s, i, a, e);
      forall k | 0 <= k < |t.turns| ensures TookTurn(t.writers[t.turns[k]].phase) {
        assert TookTurn(s.writers[s.turns[k]].phase);
      }
    }
  }

  /** The chunk of the call whose turn it is, the last one, grows at its end. */
  lemma GrowLast(s: State, i: nat, a: Action, e: Effect)
    requires i < |s.writers| && WritersOk(s) && TurnsOk(s) && Allowed(s.writers[i], s.lock, a, e) && a != OpenLog(true)
    requires s.writers[i].phase.Appending?
    requires WritersOk(Apply(s, i, a, e)) && TurnsOk(Apply(s, i, a, e))
    ensures Flatten(Chunks(Apply(s, i, a, e))) == Flatten(Chunks(s)) + e.appended
  {
    var t := Apply(s, i, a, e);
    assert Chunk(t, i) == Chunk(s, i) + e.appended;
    FlattenGrows(Chunks(s), Chunks(t), e.appended);
  }

  lemma ApplyKeepsLog(s: State, i: nat, a: Action, e: Effect)
    requires i < |s.writers| && Inv(s) && Allowed(s.writers[i], s.lock, a, e)
    requires WritersOk(Apply(s, i, a, e)) && TurnsOk(Apply(s, i, a, e))
    ensures Apply(s, i, a, e).log == s.base + Flatten(Chunks(Apply(s, i, a, e)))
  {
    var t := Apply(s, i, a, e);
    Assoc(s.base, Flatten(Chunks(s)), e.appended);
    if a == OpenLog(true) {
      assert Chunks(t) == Chunks(s) + [[]] by {
        assert Chunk(t, i) == [];
      }
      FlattenAppend(Chunks(s), []);
    } else if s.writers[i].phase.Appending? {
      GrowLast(s, i, a, e);
    } else {
      assert Chunks(t) == Chunks(s);
    }
  }

  /** What one step keeps and what it may change: only the call that holds the lock extends the log. */
  lemma StepKeepsInv(s: State, i: nat, a: Action)
    requires Inv(s) && Step(s, i, a).Some?
    ensures
      var t := Step(s, i, a).value;
      && Inv(t) && t.base == s.base && |t.writers| == |s.writers|
      && (forall j | 0 <= j < |s.writers| :: t.writers[j].line == s.writers[j].line)
      && s.log <= t.log
      && (t.log != s.log ==> s.lock && s.writers[i].holds && s.writers[i].phase.Appending?)
  {
    LocalIsAllowed(s.writers[i], s.lock, a);
    var e := Local(s.writers[i], s.lock, a).value;
    ApplyKeepsExclusive(s, i, a, e);
    ApplyKeepsTurns(s, i, a, e);
    ApplyKeepsLog(s, i, a, e);
  }

  /**
   * How each call ends: it is skipped if the lock could not be had, an error if anything raised that
   * is not caught before, and written exactly if its append was finished and then the lock released.
   */
  lemma ReturnsExactly(w: Writer, lock: bool, a: Action)
    requires Local(w, lock, a).Some? && !w.phase.Returned?
    ensures
      var p := Local(w, lock, a).value.writer.phase;
      && (p == Returned(WasSkipped, LockUnavailable) <==> a == OpenLock(false) || (a.DropMarker? && a.closed))
      && (p == Returned(WasError, WriteFailed) <==>
            || a == MkdirFails || a == WriteMarker(MarkerRaises) || a == CloseMarker(false)
            || (a.DropMarker? && !a.closed) || (a.Release? && w.phase == Releasing(false)))
      && (p == Returned(WasWritten, ReasonWritten) <==> a.Release? && w.phase == Releasing(true))
      && (p.Returned? <==>
            || a == OpenLock(false) || a == MkdirFails || a == WriteMarker(MarkerRaises) || a == CloseMarker(false)
            || a.DropMarker? || a.Release?)
  {
  }

  /** And how it goes on otherwise: what failed on the way to the release is remembered. */
  lemma GoesOnExactly(w: Writer, lock: bool, a: Action)
    requires Local(w, lock, a).Some?
    ensures
      var e := Local(w, lock, a).value;
      && (e.writer.phase == Releasing(true) <==> a == FinishAppend(true))
      && (e.writer.phase == Releasing(false) <==> a == FinishAppend(false) || a == OpenLog(false))
      && (a == FinishAppend(true) ==> w.sent == |w.line|)
      && (e.writer.phase.Marking? <==> a == OpenLock(true)) && (a == OpenLock(true) ==> !lock && e.lock)
      && (lock && !e.lock <==> lock && (a == Release(true) || a == DropMarker(true, true)))
  {
  }
}
