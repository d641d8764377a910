// runtime_daemon.py: the long-running loop.

module Daemon {
  import opened Gate
  import opened Playlist
  import opened Runtime
  import opened Text

  datatype StopCheck = NoStop | StopNow | StopRaises

  /** What one round of the loop meets: the stop check and, if it is reached, the cycle's readings and failures. */
  datatype Round = Round(
    stop: StopCheck,
    playlist: Read<PlayerPlaylist>,
    before: Read<GateResult>,
    snapshot: SnapshotWrite,
    sleepOk: bool,   // false: sleep_fn raises
    after: Read<GateResult>,
    pop: PopInput)

  predicate Real(r: Round) {
    RealPlaylist(r.playlist) && RealGate(r.before) && RealGate(r.after) && RealPlaylist(r.pop.playlist)
  }

  datatype Config = Config(staleSeconds: int, confirm: bool, maxCycles: Option<int>, maxErrors: int)

  datatype DaemonReason =
    | StoppedReason | StopCheckReason | MaxErrors | InvalidDaemonArgs | DaemonInternalError | PrepareFailed

  // ---------------------------------------------------------------- one cycle

  /** _run_one_daemon_cycle on the readings of a round; an escaping exception is CycleError. */
  function CycleOf(cfg: Config, r: Round, cycle: nat): Cycle {
    match r.playlist
    case Raises => Cycle(CycleError, [])
    case Got(playlist) =>
      if !playlist.ready || playlist.items == [] then Quiet(NoItemsYet, [], r)
      else
        match r.before
        case Raises => Cycle(CycleError, [GateFailed])
        case Got(gate) =>
          if gate.action != Play then Quiet(Held, [GateRead(false)], r)
          else ItemTurn(cfg, r, playlist.items[cycle % |playlist.items|])
  }

  /** A cycle that ends with a hold snapshot. */
  function Quiet(status: CycleStatus, first: seq<Effect>, r: Round): Cycle {
    Cycle(if r.snapshot == NoDirectory then CycleError else status, first + [SnapshotTried(OnHold, r.snapshot)])
  }

  /** The turn of an item. */
  function ItemTurn(cfg: Config, r: Round, item: Item): Cycle {
    var shown := [GateRead(true), SnapshotTried(Showing(item), r.snapshot)];
    if r.snapshot == NoDirectory || !r.sleepOk then Cycle(CycleError, shown)
    else
      var slept := shown + [Slept(ClampMs(item.durationMs))];
      match r.after
      case Raises => Cycle(CycleError, slept + [GateFailed])
      case Got(gate) =>
        if gate.action != Play then Cycle(Rendered, slept + [GateRead(false)])
        else if cfg.confirm then Cycle(RenderedWithPop, slept + [GateRead(true), PopTried(gate.state, r.pop)])
        else Cycle(Rendered, slept + [GateRead(true)])
  }

  /** The round gives a turn to an item. */
  predicate Turns(r: Round) { HasItems(r.playlist) && SaysPlay(r.before) }

  /** The item of the turn gets onto the screen. */
  predicate Displays(r: Round) { Turns(r) && r.snapshot == Installed }

  function ItemOf(r: Round, cycle: nat): Item
    requires HasItems(r.playlist)
  {
    r.playlist.value.items[cycle % |r.playlist.value.items|]
  }

  /**
   * Exactly when a cycle gives a turn to an item, and exactly when it then attempts a PoP record, with
   * all that it did.
   */
  lemma CycleExactly(cfg: Config, r: Round, cycle: nat)
    requires Real(r)
    ensures
      var c := CycleOf(cfg, r, cycle);
      && (Turns(r) <==> |c.effects| >= 2 && c.effects[1].SnapshotTried? && c.effects[1].content.Showing?)
      && (Turns(r) ==> c.effects[1] == SnapshotTried(Showing(ItemOf(r, cycle)), r.snapshot))
      && (c.status == RenderedWithPop <==>
            Turns(r) && r.snapshot != NoDirectory && r.sleepOk && SaysPlay(r.after) && cfg.confirm)
      && (c.status == RenderedWithPop ==> c.effects == DisplayWithPop(ItemOf(r, cycle), r.snapshot, "idle", r.pop))
      && (c.status != RenderedWithPop ==> forall e | e in c.effects :: !e.PopTried?)
  {
  }

  /** Exactly when a cycle holds, finds no items or raises. */
  lemma QuietCycleExactly(cfg: Config, r: Round, cycle: nat)
    ensures
      var c := CycleOf(cfg, r, cycle);
      && (c.status == NoItemsYet <==> r.playlist.Got? && !HasItems(r.playlist) && r.snapshot != NoDirectory)
      && (c.status == NoItemsYet ==> c.effects == [SnapshotTried(OnHold, r.snapshot)])
      && (c.status == Held <==>
            HasItems(r.playlist) && r.before.Got? && !SaysPlay(r.before) && r.snapshot != NoDirectory)
      && (c.status == Held ==> c.effects == [GateRead(false), SnapshotTried(OnHold, r.snapshot)])
      && (c.status == CycleError <==>
            || r.playlist.Raises? || (HasItems(r.playlist) && r.before.Raises?) || r.snapshot == NoDirectory
            || (Turns(r) && (!r.sleepOk || r.after.Raises?)))
  {
  }

  // ---------------------------------------------------------------- many cycles

  /** What each round comes to when its turn is reached. */
  function Outcomes(cfg: Config, rounds: seq<Round>): (outs: seq<Cycle>)
    ensures |outs| == |rounds|
    ensures forall j {:trigger CycleOf(cfg, rounds[j], j)} | 0 <= j < |outs| :: outs[j] == CycleOf(cfg, rounds[j], j)
  {
    seq(|rounds|, j requires 0 <= j < |rounds| => CycleOf(cfg, rounds[j], j))
  }

  /** The last n attempts all raised. */
  predicate AllErrors(s: seq<CycleStatus>, n: int) {
    n <= |s| && forall j | |s| - n <= j < |s| && 0 <= j :: s[j] == CycleError
  }

  /** Exactly the last n attempts raised. */
  predicate Streak(s: seq<CycleStatus>, n: nat) {
    AllErrors(s, n) && (n < |s| ==> s[|s| - n - 1] != CycleError)
  }

  lemma StreakStep(s: seq<CycleStatus>, n: nat, x: CycleStatus)
    requires Streak(s, n)
    ensures Streak(s + [x], if x == CycleError then n + 1 else 0)
  {
  }

  lemma StreakDecides(s: seq<CycleStatus>, n: nat, limit: int)
    requires Streak(s, n) && limit >= 1
    ensures AllErrors(s, limit) <==> n >= limit
  {
    if n < limit && n < |s| {
      assert s[|s| - n - 1] != CycleError;
    }
  }

  predicate StopsBefore(cfg: Config, rounds: seq<Round>, k: nat)
    requires k < |rounds|
  {
    rounds[k].stop == StopNow || (cfg.maxCycles.Some? && k >= cfg.maxCycles.value)
  }

  /** Before the last of these attempts the error limit was never met. */
  predicate NeverBroke(s: seq<CycleStatus>, limit: int) {
    s == [] || (!AllErrors(s[..|s| - 1], limit) && NeverBroke(s[..|s| - 1], limit))
  }

  /** The loop gets as far as making n attempts. */
  predicate Reaches(cfg: Config, rounds: seq<Round>, outs: seq<Cycle>, n: nat)
    requires |outs| == |rounds|
  {
    && n <= |rounds|
    && (forall k | 0 <= k < n :: !StopsBefore(cfg, rounds, k))
    && NeverBroke(Statuses(outs[..n]), cfg.maxErrors)
  }

  lemma MaxCyclesBounds(cfg: Config, rounds: seq<Round>, n: nat)
    requires n <= |rounds| && forall k | 0 <= k < n :: !StopsBefore(cfg, rounds, k)
    ensures cfg.maxCycles.Some? && cfg.maxCycles.value >= 0 ==> n <= cfg.maxCycles.value
  {
    assert n > 0 ==> !StopsBefore(cfg, rounds, n - 1);
  }

  lemma ReachesStep(cfg: Config, rounds: seq<Round>, outs: seq<Cycle>, n: nat)
    requires |outs| == |rounds| && n < |rounds| && Reaches(cfg, rounds, outs, n)
    requires !StopsBefore(cfg, rounds, n) && !AllErrors(Statuses(outs[..n]), cfg.maxErrors)
    ensures Reaches(cfg, rounds, outs, n + 1)
  {
    StatusesStep(outs, n);
    assert Statuses(outs[..n + 1])[..n] == Statuses(outs[..n]);
  }

  /** The loop is at the head of round n, with e consecutive errors behind it. */
  predicate Running(cfg: Config, rounds: seq<Round>, outs: seq<Cycle>, n: nat, e: nat)
    requires |outs| == |rounds|
  {
    && Reaches(cfg, rounds, outs, n) && e < cfg.maxErrors
    && Streak(Statuses(outs[..n]), e) && !AllErrors(Statuses(outs[..n]), cfg.maxErrors)
  }

  lemma RunningStep(cfg: Config, rounds: seq<Round>, outs: seq<Cycle>, n: nat, e: nat)
    requires |outs| == |rounds| && n < |rounds| && Running(cfg, rounds, outs, n, e) && !StopsBefore(cfg, rounds, n)
    ensures Reaches(cfg, rounds, outs, n + 1)
    ensures
      var next := if outs[n].status == CycleError then e + 1 else 0;
      if next >= cfg.maxErrors then AllErrors(Statuses(outs[..n + 1]), cfg.maxErrors)
      else Running(cfg, rounds, outs, n + 1, next)
  {
    var next := if outs[n].status == CycleError then e + 1 else 0;
    ReachesStep(cfg, rounds, outs, n);
    StatusesStep(outs, n);
    StreakStep(Statuses(outs[..n]), e, outs[n].status);
    StreakDecides(Statuses(outs[..n + 1]), next, cfg.maxErrors);
  }

  predicate ValidConfig(cfg: Config) {
    cfg.staleSeconds > 0 && (cfg.maxCycles.Some? ==> cfg.maxCycles.value >= 0) && cfg.maxErrors >= 1
  }

  /** Why the loop ended after attempts with these statuses, and what the result then says. */
  predicate Ended(cfg: Config, rounds: seq<Round>, s: seq<CycleStatus>, finished: bool,
                  status: Level, reason: DaemonReason, last: CycleStatus) {
    && (AllErrors(s, cfg.maxErrors) <==> reason == MaxErrors)
    && (status == Error <==> reason == MaxErrors)
    && (reason == MaxErrors ==> finished && last == CycleError)
    && (reason == StopCheckReason ==> finished && last == Stopped && |s| < |rounds| && rounds[|s|].stop == StopNow)
    && (reason == StoppedReason && finished ==> cfg.maxCycles.Some? && |s| >= cfg.maxCycles.value)
    && (!finished ==> |s| == |rounds|)
    && reason in {MaxErrors, StopCheckReason, StoppedReason}
  }

  lemma CycleKinds(cfg: Config, r: Round, cycle: nat)
    ensures IsAttempt(CycleOf(cfg, r, cycle).status)
  {
  }

  class Runner {
    const cfg: Config
    var status: Level
    var reason: DaemonReason
    var lastStatus: CycleStatus
    var cyclesCompleted: nat
    var renderedCount: nat
    var holdCount: nat
    var popCount: nat
    var errorCount: nat
    ghost var trace: seq<Effect>

    constructor (cfg: Config)
      ensures this.cfg == cfg && trace == []
      ensures cyclesCompleted == renderedCount == holdCount == popCount == errorCount == 0
      ensures status == Fine && reason == StoppedReason && lastStatus == NotYet
    {
      this.cfg := cfg;
      status, reason, lastStatus := Fine, StoppedReason, NotYet;
      cyclesCompleted, renderedCount, holdCount, popCount, errorCount := 0, 0, 0, 0, 0;
      trace := [];
    }

    /** _run_one_daemon_cycle. */
    method RunOneCycle(r: Round, cycle: nat) returns (result: CycleStatus)
      modifies this`trace
      ensures result == CycleOf(cfg, r, cycle).status
      ensures trace == old(trace) + CycleOf(cfg, r, cycle).effects
    {
      var playlist := r.playlist;
      if playlist.Raises? { return CycleError; }
      if !playlist.value.ready || playlist.value.items == [] {
        trace := trace + [SnapshotTried(OnHold, r.snapshot)];
        return if r.snapshot == NoDirectory then CycleError else NoItemsYet;
      }
      var items := playlist.value.items;
      var before := r.before;
      if before.Raises? {
        trace := trace + [GateFailed];
        return CycleError;
      }
      if before.value.action != Play {
        trace := trace + [GateRead(false), SnapshotTried(OnHold, r.snapshot)];
        return if r.snapshot == NoDirectory then CycleError else Held;
      }
      result := ShowItem(r, items[cycle % |items|]);
    }

    /** Its second half, from the render snapshot on. */
    method ShowItem(r: Round, item: Item) returns (result: CycleStatus)
      modifies this`trace
      ensures result == ItemTurn(cfg, r, item).status
      ensures trace == old(trace) + ItemTurn(cfg, r, item).effects
    {
      trace := trace + [GateRead(true), SnapshotTried(Showing(item), r.snapshot)];
      if r.snapshot == NoDirectory { return CycleError; }
      var durationMs := if item.durationMs > 0 then item.durationMs else DURATION_MIN;
      durationMs := Min(Max(durationMs, DURATION_MIN), DURATION_MAX);
      if !r.sleepOk { return CycleError; }
      trace := trace + [Slept(durationMs)];
      var after := r.after;
      if after.Raises? {
        trace := trace + [GateFailed];
        return CycleError;
      }
      if after.value.action != Play {
        trace := trace + [GateRead(false)];
        return Rendered;
      }
      trace := trace + [GateRead(true)];
      if cfg.confirm {
        trace := trace + [PopTried(after.value.state, r.pop)];
        return RenderedWithPop;
      }
      return Rendered;
    }

    ghost function Result(): Counters
      reads this
    {
      Counters(cyclesCompleted, renderedCount, holdCount, popCount, errorCount)
    }

    /** The counters and the trace are those of these cycles. */
    ghost predicate Tallies(outs: seq<Cycle>)
      reads this
    {
      Result() == Tally(Statuses(outs)) && trace == Effects(outs)
    }

    /** One attempt and its counting; the loop itself keeps the number of consecutive errors. */
    method Attempt(rounds: seq<Round>, cycle: nat) returns (raised: bool)
      requires cycle < |rounds| && Tallies(Outcomes(cfg, rounds)[..cycle])
      modifies this`trace, this`cyclesCompleted, this`lastStatus
      modifies this`renderedCount, this`popCount, this`holdCount, this`errorCount
      ensures Tallies(Outcomes(cfg, rounds)[..cycle + 1])
      ensures raised <==> Outcomes(cfg, rounds)[cycle].status == CycleError
      ensures lastStatus == if raised then old(lastStatus) else Outcomes(cfg, rounds)[cycle].status
    {
      CycleStep(Outcomes(cfg, rounds), cycle);
      CycleKinds(cfg, rounds[cycle], cycle);
      var cycleStatus := RunOneCycle(rounds[cycle], cycle);
      if cycleStatus == CycleError {
        errorCount := errorCount + 1;
        return true;
      }
      cyclesCompleted := cyclesCompleted + 1;
      lastStatus := cycleStatus;
      if cycleStatus == Rendered {
        renderedCount := renderedCount + 1;
      } else if cycleStatus == RenderedWithPop {
        renderedCount := renderedCount + 1;
        popCount := popCount + 1;
      } else if cycleStatus == Held {
        holdCount := holdCount + 1;
      }
      return false;
    }

    /** The end of a run: the last fields are set, and then the health file is written. */
    method Finish(status: Level, reason: DaemonReason, lastStatus: CycleStatus)
      modifies this`status, this`reason, this`lastStatus
      ensures this.status == status && this.reason == reason && this.lastStatus == lastStatus
    {
      this.status, this.reason, this.lastStatus := status, reason, lastStatus;
    }

    /** One pass through the loop body. If it finishes the run, `attempts` cycles have been made. */
    method PassThrough(rounds: seq<Round>, cycle: nat, consecutiveErrors: nat)
      returns (finished: bool, errors: nat, ghost attempts: nat)
      requires cycle < |rounds| && status == Fine && reason == StoppedReason
      requires Running(cfg, rounds, Outcomes(cfg, rounds), cycle, consecutiveErrors)
      requires Tallies(Outcomes(cfg, rounds)[..cycle])
      modifies this
      ensures attempts <= |rounds| && Tallies(Outcomes(cfg, rounds)[..attempts])
      ensures finished ==>
                && Reaches(cfg, rounds, Outcomes(cfg, rounds), attempts)
                && Ended(cfg, rounds, Statuses(Outcomes(cfg, rounds)[..attempts]), true, status, reason, lastStatus)
      ensures !finished ==>
                && attempts == cycle + 1 && status == Fine && reason == StoppedReason
                && Running(cfg, rounds, Outcomes(cfg, rounds), cycle + 1, errors)
    {
      errors := consecutiveErrors;
      if rounds[cycle].stop == StopNow {
        Finish(Fine, StopCheckReason, Stopped);
        return true, errors, cycle;
      }
      if cfg.maxCycles.Some? && cycle >= cfg.maxCycles.value {
        Finish(Fine, StoppedReason, lastStatus);
        return true, errors, cycle;
      }
      RunningStep(cfg, rounds, Outcomes(cfg, rounds), cycle, consecutiveErrors);
      var raised := Attempt(rounds, cycle);
      errors := if raised then consecutiveErrors + 1 else 0;
      if raised && errors >= cfg.maxErrors {
        Finish(Error, MaxErrors, CycleError);
        return true, errors, cycle + 1;
      }
      return false, errors, cycle + 1;
    }

    /** The loop; it is not finished if the rounds ran out. */
    method Loop(rounds: seq<Round>) returns (finished: bool, ghost attempts: nat)
      requires ValidConfig(cfg) && Tallies([]) && status == Fine && reason == StoppedReason
      modifies this
      ensures Reaches(cfg, rounds, Outcomes(cfg, rounds), attempts) && Tallies(Outcomes(cfg, rounds)[..attempts])
      ensures Ended(cfg, rounds, Statuses(Outcomes(cfg, rounds)[..attempts]), finished, status, reason, lastStatus)
    {
      finished, attempts := false, 0;
      var cycle: nat, consecutiveErrors: nat := 0, 0;
      ghost var outs := Outcomes(cfg, rounds);
      assert outs[..0] == [];
      while cycle < |rounds|
        invariant cycle == attempts <= |rounds| && !finished
        invariant Running(cfg, rounds, outs, cycle, consecutiveErrors)
        invariant Tallies(outs[..cycle]) && status == Fine && reason == StoppedReason
      {
        finished, consecutiveErrors, attempts := PassThrough(rounds, cycle, consecutiveErrors);
        if finished { return; }
        cycle := cycle + 1;
      }
    }

    /**
     * run_kso_runtime_daemon, for as long as there are rounds: behind the last one the process is
     * taken to be still running, or killed.
     */
    method Run(start: StartUp, rounds: seq<Round>) returns (finished: bool, ghost attempts: nat)
      requires Tallies([]) && status == Fine && reason == StoppedReason
      modifies this
      ensures Reaches(cfg, rounds, Outcomes(cfg, rounds), attempts) && Tallies(Outcomes(cfg, rounds)[..attempts])
      ensures !ValidConfig(cfg) ==> finished && attempts == 0 && status == Error && reason == InvalidDaemonArgs
      ensures ValidConfig(cfg) && !start.Started? ==>
                finished && attempts == 0 && status == Error
                && reason == if start.StartRaises? then DaemonInternalError else PrepareFailed
      ensures ValidConfig(cfg) && start.Started? ==>
          Ended(cfg, rounds, Statuses(Outcomes(cfg, rounds)[..attempts]), finished, status, reason, lastStatus)
      ensures ValidConfig(cfg) && start.Started? && cfg.maxCycles.Some? ==>
                attempts <= cfg.maxCycles.value && (|rounds| > cfg.maxCycles.value ==> finished)
    {
      assert Outcomes(cfg, rounds)[..0] == [];
      if !ValidConfig(cfg) {
        status, reason := Error, InvalidDaemonArgs;
        return true, 0;
      }
      if !start.Started? {
        status, reason := Error, if start.StartRaises? then DaemonInternalError else PrepareFailed;
        return true, 0;
      }
      if cfg.maxCycles == Some(0) { return true, 0; }
      finished, attempts := Loop(rounds);
      MaxCyclesBounds(cfg, rounds, attempts);
    }
  }
}
