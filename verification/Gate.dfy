// runtime_gate.py: may the player show advertising now?

module Gate {
  import opened Calendar
  import opened Parsed
  import opened Text
  import opened Timestamp

  /** One read of state/kso_state.json. Bytes that are not UTF-8 raise an exception the gate does not catch. */
  datatype StateFile = NoState | StateUnreadable | StateNotUtf8 | StateNotJson | StateJson(raw: Raw)

  datatype Action = Play | Hold | Stop

  datatype Level = Fine | Warning | Error

  datatype GateReason =
    | PlayAllowed | MissingStateFile | InvalidJson | SchemaMismatch | InvalidState | MissingUpdatedAt
    | InvalidUpdatedAt | StaleState | FutureTimestamp | NonIdleState | ReadFailed | InvalidArgs

  datatype GateResult = GateResult(
    status: Level,
    playAllowed: bool,
    action: Action,
    state: string,
    stateValid: bool,
    isFresh: bool,
    reason: GateReason,
    ageSeconds: int)

  const KNOWN_STATES: set<string> := {
    "idle", "transaction", "payment", "receipt", "service", "error", "maintenance", "offline", "unknown"}

  /** A hold before any usable timestamp has been seen. */
  function HoldEarly(status: Level, state: string, stateValid: bool, reason: GateReason): GateResult {
    GateResult(status, false, Hold, state, stateValid, false, reason, 0)
  }

  /** The state field, normalised; None when it is missing or not a string. */
  function StateOf(m: map<string, Raw>): Option<string> {
    var raw := Get(m, "state", RNull);
    if raw.RStr? then Some(Lower(Strip(raw.s))) else None
  }

  /** The microseconds of the updated_at_utc field; None when it cannot be parsed. */
  function UpdatedAt(m: map<string, Raw>): Option<int> {
    var raw := Get(m, "updated_at_utc", RNull);
    if !raw.RStr? then None
    else
      match Parse(Strip(raw.s))
      case None => None
      case Some(t) => Some(Micros(t))
  }

  /** int((now - updated).total_seconds()): truncated to whole seconds. */
  function AgeSeconds(updated: int, now: int): int
    requires updated <= now
  {
    (now - updated) / 1000000
  }

  /** evaluate_kso_runtime_gate on one read of the state file, at `now` in microseconds. */
  function Evaluate(file: StateFile, staleSeconds: int, now: int): Read<GateResult> {
    if staleSeconds <= 0 then Got(HoldEarly(Error, "unknown", false, InvalidArgs))
    else
      match file
      case NoState => Got(HoldEarly(Warning, "unknown", false, MissingStateFile))
      case StateUnreadable => Got(HoldEarly(Error, "unknown", false, ReadFailed))
      case StateNotUtf8 => Raises
      case StateNotJson => Got(HoldEarly(Warning, "unknown", false, InvalidJson))
      case StateJson(raw) =>
        if !raw.RObj? then Got(HoldEarly(Warning, "unknown", false, SchemaMismatch))
        else
          match StateOf(raw.m)
          case None => Got(HoldEarly(Warning, "unknown", false, InvalidState))
          case Some(state) =>
            Got(JudgeAt(state, Get(raw.m, "updated_at_utc", RNull).RNull?, UpdatedAt(raw.m), staleSeconds, now))
  }

  /** The checks behind the state field; the result always carries the state. */
  function JudgeAt(state: string, unstamped: bool, updated: Option<int>, staleSeconds: int, now: int): (g: GateResult)
    ensures g.state == state
  {
    if state !in KNOWN_STATES then HoldEarly(Warning, state, false, InvalidState)
    else if unstamped then HoldEarly(Warning, state, true, MissingUpdatedAt)
    else
      match updated
      case None => HoldEarly(Warning, state, true, InvalidUpdatedAt)
      case Some(u) => Judge(state, u, staleSeconds, now)
  }

  /** The verdict on a known state with a readable timestamp. */
  function Judge(state: string, updated: int, staleSeconds: int, now: int): GateResult {
    if updated > now then HoldEarly(Warning, state, true, FutureTimestamp)
    else
      var age := AgeSeconds(updated, now);
      var recent := age <= staleSeconds;
      if state != "idle" then GateResult(Warning, false, Hold, state, true, recent, NonIdleState, age)
      else if !recent then GateResult(Warning, false, Hold, state, true, false, StaleState, age)
      else GateResult(Fine, true, Play, state, true, true, PlayAllowed, age)
  }

  /** What every gate result satisfies: the play flag and the action agree, and play means a fresh idle state. */
  predicate Sane(g: GateResult) {
    && (g.playAllowed <==> g.action == Play)
    && (g.playAllowed ==> g.state == "idle" && g.isFresh && g.reason == PlayAllowed)
    && g.action != Stop
  }

  lemma EvaluateIsSane(file: StateFile, staleSeconds: int, now: int)
    requires Evaluate(file, staleSeconds, now).Got?
    ensures Sane(Evaluate(file, staleSeconds, now).value)
  {
  }

  lemma IdleIsNormal()
    ensures Lower(Strip("idle")) == "idle" && Strip("idle") == "idle"
  {
    assert Strip("idle") == "idle" && Lower("idle") == "idle";
  }

  /** The file names the idle state and carries a readable timestamp. */
  predicate IdleSince(file: StateFile, updated: int) {
    && file.StateJson? && file.raw.RObj?
    && StateOf(file.raw.m) == Some("idle") && UpdatedAt(file.raw.m) == Some(updated)
  }

  /** The file names the idle state, whatever it says about its age. */
  predicate NamesIdle(file: StateFile) { file.StateJson? && file.raw.RObj? && StateOf(file.raw.m) == Some("idle") }

  /** It carries a readable timestamp, and now lies in its window. */
  predicate InWindow(file: StateFile, staleSeconds: int, now: int) {
    exists updated :: IdleSince(file, updated) && updated <= now < updated + (staleSeconds + 1) * 1000000
  }

  predicate PlaysAt(file: StateFile, staleSeconds: int, now: int) {
    Evaluate(file, staleSeconds, now).Got? && Evaluate(file, staleSeconds, now).value.playAllowed
  }

  /** A state file as a writer of the idle state leaves it. */
  function IdleFile(t: DateTime): StateFile
    requires Valid(t)
  {
    StateJson(RObj(map["state" := RStr("idle"), "updated_at_utc" := RStr(Print(t) + "Z")]))
  }

  lemma StampReads(t: DateTime)
    requires Valid(t)
    ensures Strip(Print(t) + "Z") == Print(t) + "Z" && Parse(Print(t) + "Z") == Some(t)
  {
    PrintedShape(t);
    StripNothing(Print(t) + "Z");
    ParseUndoesPrint(t, "+00:00");
  }

  lemma IdleFileSince(t: DateTime)
    requires Valid(t)
    ensures IdleSince(IdleFile(t), Micros(t))
  {
    var m := IdleFile(t).raw.m;
    IdleIsNormal();
    StampReads(t);
    assert Get(m, "state", RNull) == RStr("idle");
    assert Get(m, "updated_at_utc", RNull) == RStr(Print(t) + "Z");
  }

  /**
   * The gate says play exactly for an idle file and exactly on one interval of times: from its
   * timestamp, for staleSeconds and the whole second that truncation adds.
   */
  lemma PlayWindow(file: StateFile, staleSeconds: int, now: int)
    ensures PlaysAt(file, staleSeconds, now) <==> staleSeconds > 0 && InWindow(file, staleSeconds, now)
  {
    if staleSeconds > 0 && file.StateJson? && file.raw.RObj? {
      var m := file.raw.m;
      if StateOf(m) == Some("idle") && UpdatedAt(m).Some? {
        var updated := UpdatedAt(m).value;
        assert !Get(m, "updated_at_utc", RNull).RNull?;
        assert IdleSince(file, updated);
        assert updated <= now ==>
          (AgeSeconds(updated, now) <= staleSeconds <==> now < updated + (staleSeconds + 1) * 1000000);
      }
    }
  }

  /** The state that a file names. */
  function NamedState(file: StateFile): string {
    if file.StateJson? && file.raw.RObj? && StateOf(file.raw.m).Some? then StateOf(file.raw.m).value else "unknown"
  }

  lemma EchoesState(file: StateFile, staleSeconds: int, now: int)
    requires staleSeconds > 0 && !file.StateNotUtf8?
    ensures Evaluate(file, staleSeconds, now).Got? && Evaluate(file, staleSeconds, now).value.state == NamedState(file)
  {
  }

  lemma NamedIsNormal(file: StateFile)
    ensures Lower(Strip(NamedState(file))) == "idle" <==> NamesIdle(file)
    ensures NamesIdle(file) ==> NamedState(file) == "idle"
  {
    UnknownIsNotIdle();
    if file.StateJson? && file.raw.RObj? && Get(file.raw.m, "state", RNull).RStr? {
      NormalizeTwice(Get(file.raw.m, "state", RNull).s);
    }
  }

  /** The state that a gate result carries is idle exactly if the file names it, also where the verdict is hold. */
  lemma StateIsIdleExactly(file: StateFile, staleSeconds: int, now: int)
    requires staleSeconds > 0
    ensures NamesIdle(file) ==>
      Evaluate(file, staleSeconds, now).Got? && Evaluate(file, staleSeconds, now).value.state == "idle"
    ensures Evaluate(file, staleSeconds, now).Got? ==>
      (Lower(Strip(Evaluate(file, staleSeconds, now).value.state)) == "idle" <==> NamesIdle(file))
  {
    if !file.StateNotUtf8? {
      EchoesState(file, staleSeconds, now);
      NamedIsNormal(file);
    }
  }

  lemma UnknownIsNotIdle()
    ensures Lower(Strip("unknown")) != "idle"
  {
    assert Strip("unknown") == "unknown" && |Lower("unknown")| == 7 && |"idle"| == 4;
  }

  /**
   * What becomes of a file that names the idle state: it plays in its window, and holds, still with
   * the idle state, when its timestamp is missing, cannot be read, lies in the future, or is stale.
   */
  lemma IdleHoldsExactly(file: StateFile, staleSeconds: int, now: int)
    requires NamesIdle(file) && staleSeconds > 0
    ensures Evaluate(file, staleSeconds, now).Got?
    ensures
      var g := Evaluate(file, staleSeconds, now).value;
      var m := file.raw.m;
      && g.state == "idle" && (g.action == Play <==> InWindow(file, staleSeconds, now))
      && (g.action != Play ==> g.action == Hold)
      && (g.reason == MissingUpdatedAt <==> Get(m, "updated_at_utc", RNull).RNull?)
      && (g.reason == InvalidUpdatedAt <==> !Get(m, "updated_at_utc", RNull).RNull? && UpdatedAt(m).None?)
      && (g.reason == FutureTimestamp <==> UpdatedAt(m).Some? && now < UpdatedAt(m).value)
      && (g.reason == StaleState <==> UpdatedAt(m).Some? && now >= UpdatedAt(m).value + (staleSeconds + 1) * 1000000)
  {
    StateIsIdleExactly(file, staleSeconds, now);
    EvaluateIsSane(file, staleSeconds, now);
    PlayWindow(file, staleSeconds, now);
  }

  /** A file stamped now with the idle state plays now. */
  lemma IdleFilePlays(t: DateTime, staleSeconds: int)
    requires Valid(t) && staleSeconds > 0
    ensures PlaysAt(IdleFile(t), staleSeconds, Micros(t))
  {
    IdleFileSince(t);
    PlayWindow(IdleFile(t), staleSeconds, Micros(t));
  }

  /** Once an unchanged file has played and then held, it never plays again. */
  lemma StaleStaysOnHold(file: StateFile, staleSeconds: int, played: int, held: int, later: int)
    requires played <= held <= later
    requires PlaysAt(file, staleSeconds, played) && !PlaysAt(file, staleSeconds, held)
    ensures !PlaysAt(file, staleSeconds, later)
  {
    PlayWindow(file, staleSeconds, played);
    PlayWindow(file, staleSeconds, held);
    PlayWindow(file, staleSeconds, later);
    var updated :| IdleSince(file, updated) && updated <= played < updated + (staleSeconds + 1) * 1000000;
  }

  /** One of the nine states of the screen. */
  predicate IsKnown(s: string) {
    s in {"idle", "transaction", "payment", "receipt", "service", "error", "maintenance", "offline", "unknown"}
  }

  /** The file is an object whose state is a text, in any case and with blanks around it. */
  predicate NamesState(file: StateFile) { file.StateJson? && file.raw.RObj? && StateOf(file.raw.m).Some? }

  lemma KnownExactly(s: string)
    ensures s in KNOWN_STATES <==> IsKnown(s)
  {
  }

  /** The answer to a file that cannot be read, or names no known state. */
  lemma UnknownStateExactly(file: StateFile, staleSeconds: int, now: int)
    requires !file.StateNotUtf8?
    requires staleSeconds <= 0 || !NamesState(file) || !IsKnown(NamedState(file))
    ensures Evaluate(file, staleSeconds, now).Got?
    ensures
      var g := Evaluate(file, staleSeconds, now).value;
      && !g.playAllowed && g.action == Hold && !g.stateValid && !g.isFresh
      && (g.status == Error <==> staleSeconds <= 0 || file.StateUnreadable?)
      && (g.status == Warning <==> staleSeconds > 0 && !file.StateUnreadable?)
      && (g.reason == InvalidArgs <==> staleSeconds <= 0)
      && (g.reason == MissingStateFile <==> staleSeconds > 0 && file.NoState?)
      && (g.reason == ReadFailed <==> staleSeconds > 0 && file.StateUnreadable?)
      && (g.reason == InvalidJson <==> staleSeconds > 0 && file.StateNotJson?)
      && (g.reason == SchemaMismatch <==> staleSeconds > 0 && file.StateJson? && !file.raw.RObj?)
      && (g.reason == InvalidState <==> staleSeconds > 0 && file.StateJson? && file.raw.RObj?)
  {
    if NamesState(file) {
      KnownExactly(NamedState(file));
    }
  }

  /** The answer to a known state. */
  lemma KnownStateExactly(state: string, unstamped: bool, updated: Option<int>, staleSeconds: int, now: int)
    requires IsKnown(state) && staleSeconds > 0
    ensures
      var g := JudgeAt(state, unstamped, updated, staleSeconds, now);
      var dated := !unstamped && updated.Some? && updated.value <= now;
      var recent := dated && now < updated.value + (staleSeconds + 1) * 1000000;
      && g.stateValid && (g.isFresh <==> recent)
      && (g.status == Fine <==> state == "idle" && recent) && (g.status == Warning <==> !(state == "idle" && recent))
      && (g.action == Play <==> state == "idle" && recent) && (g.action == Hold <==> !(state == "idle" && recent))
      && (g.playAllowed <==> state == "idle" && recent)
      && (g.reason == PlayAllowed <==> state == "idle" && recent)
      && (g.reason == MissingUpdatedAt <==> unstamped)
      && (g.reason == InvalidUpdatedAt <==> !unstamped && updated.None?)
      && (g.reason == FutureTimestamp <==> !unstamped && updated.Some? && updated.value > now)
      && (g.reason == NonIdleState <==> dated && state != "idle")
      && (g.reason == StaleState <==> dated && state == "idle" && !recent)
  {
    KnownExactly(state);
    if updated.Some? && updated.value <= now {
      assert AgeSeconds(updated.value, now) <= staleSeconds <==> now < updated.value + (staleSeconds + 1) * 1000000;
    }
  }

  /** These are the two answers that there are. */
  lemma EvaluateIsEither(file: StateFile, staleSeconds: int, now: int)
    requires staleSeconds > 0 && NamesState(file) && IsKnown(NamedState(file))
    ensures Evaluate(file, staleSeconds, now)
      == Got(JudgeAt(NamedState(file), !("updated_at_utc" in file.raw.m) || file.raw.m["updated_at_utc"].RNull?,
                     UpdatedAt(file.raw.m), staleSeconds, now))
  {
  }
}
