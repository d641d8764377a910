// runtime_loop.py: the loop over a playlist that is read once.

module Loop {
  import opened Gate
  import opened Playlist
  import opened Runtime
  import opened Text

  /** What one cycle meets. */
  datatype Turnover = Turnover(
    before: Read<GateResult>,
    snapshot: SnapshotWrite,
    sleepOk: bool,
    after: Read<GateResult>,
    pop: PopInput)

  predicate RealTurnover(t: Turnover) { RealGate(t.before) && RealGate(t.after) && RealPlaylist(t.pop.playlist) }

  datatype LoopReason = LoopCompleted | NoPlayableItems | LoopInvalidArgs | LoopInternalError | LoopPrepareFailed

  /** How the call ends: with a result, or with the one exception it does not catch. */
  datatype Exit = Returns | Escapes

  /** One cycle on one item; CycleError ends the run, by returning an error unless the snapshot raised. */
  function LoopCycle(confirm: bool, item: Item, t: Turnover): Cycle {
    match t.before
    case Raises => Cycle(CycleError, [GateFailed])
    case Got(gate) =>
      if gate.action != Play then
        Cycle(if t.snapshot == NoDirectory then CycleError else Held,
              [GateRead(false), SnapshotTried(OnHold, t.snapshot)])
      else
        var shown := [GateRead(true), SnapshotTried(Showing(item), t.snapshot)];
        if t.snapshot == NoDirectory || !t.sleepOk then Cycle(CycleError, shown)
        else
          var slept := shown + [Slept(ClampMs(item.durationMs))];
          match t.after
          case Raises => Cycle(Rendered, slept + [GateFailed])
          case Got(again) =>
            if again.action != Play then Cycle(Rendered, slept + [GateRead(false)])
            else if confirm then Cycle(RenderedWithPop, slept + [GateRead(true), PopTried(again.state, t.pop)])
            else Cycle(Rendered, slept + [GateRead(true)])
  }

  /** The first n cycles over these items. */
  function LoopOutcomes(confirm: bool, items: seq<Item>, turns: nat -> Turnover, n: nat): (outs: seq<Cycle>)
    requires items != []
    ensures |outs| == n
    ensures forall j {:trigger turns(j)} | 0 <= j < n :: outs[j] == LoopCycle(confirm, items[j % |items|], turns(j))
  {
    seq(n, j requires 0 <= j < n => LoopCycle(confirm, items[j % |items|], turns(j)))
  }

  lemma LoopOutcomeAt(confirm: bool, items: seq<Item>, turns: nat -> Turnover, n: nat, j: nat)
    requires items != [] && j < n
    ensures LoopOutcomes(confirm, items, turns, n)[j] == LoopCycle(confirm, items[j % |items|], turns(j))
  {
  }

  /** The item of the cycle gets onto the screen. */
  predicate LoopDisplays(t: Turnover) { SaysPlay(t.before) && t.snapshot == Installed }

  /** Exactly when a cycle gives its item a turn, when it attempts a PoP record, and when it ends the run. */
  lemma LoopCycleExactly(confirm: bool, item: Item, t: Turnover)
    requires RealTurnover(t)
    ensures
      var c := LoopCycle(confirm, item, t);
      && (SaysPlay(t.before) ==> |c.effects| >= 2 && c.effects[1] == SnapshotTried(Showing(item), t.snapshot))
      && (c.status == RenderedWithPop <==>
            SaysPlay(t.before) && t.snapshot != NoDirectory && t.sleepOk && SaysPlay(t.after) && confirm)
      && (c.status == RenderedWithPop ==> c.effects == DisplayWithPop(item, t.snapshot, "idle", t.pop))
      && (c.status != RenderedWithPop ==> forall e | e in c.effects :: !e.PopTried?)
      && (c.status == Held <==> t.before.Got? && !SaysPlay(t.before) && t.snapshot != NoDirectory)
      && (c.status == Held ==> c.effects == [GateRead(false), SnapshotTried(OnHold, t.snapshot)])
      && (c.status == CycleError <==>
            t.before.Raises? || t.snapshot == NoDirectory || (SaysPlay(t.before) && !t.sleepOk))
  {
  }

  /** The first n cycles did not end the run. */
  predicate WentOn(outs: seq<Cycle>, n: nat) {
    n <= |outs| && forall j | 0 <= j < n :: outs[j].status != CycleError
  }

  /**
   * How a run over these cycles ended: all went on, or the last attempt did not, and then it let the
   * exception escape exactly if the snapshot directory could not be made.
   */
  predicate LoopEnded(outs: seq<Cycle>,
                      turns: nat -> Turnover, attempts: nat, exit: Exit, status: Level, reason: LoopReason) {
    if status == Fine then exit == Returns && reason == LoopCompleted && attempts == |outs| && WentOn(outs, attempts)
    else
      && 0 < attempts <= |outs| && WentOn(outs, attempts - 1) && outs[attempts - 1].status == CycleError
      && (exit == Escapes <==> turns(attempts - 1).before.Got? && turns(attempts - 1).snapshot == NoDirectory)
      && (exit == Returns ==> reason == LoopInternalError)
  }

  lemma WentOnStep(outs: seq<Cycle>, n: nat)
    requires n < |outs| && WentOn(outs, n) && outs[n].status != CycleError
    ensures WentOn(outs, n + 1)
  {
  }

  class LoopRunner {
    const confirm: bool
    const maxCycles: int
    var status: Level
    var reason: LoopReason
    var itemsInPlaylist: nat
    var cyclesCompleted: nat
    var renderedCount: nat
    var holdCount: nat
    var popCount: nat
    ghost var trace: seq<Effect>

    constructor (confirm: bool, maxCycles: int)
      ensures this.confirm == confirm && this.maxCycles == maxCycles && Fresh()
    {
      this.confirm, this.maxCycles := confirm, maxCycles;
      status, reason, itemsInPlaylist := Error, LoopInvalidArgs, 0;
      cyclesCompleted, renderedCount, holdCount, popCount := 0, 0, 0, 0;
      trace := [];
    }

    ghost predicate Fresh()
      reads this
    {
      status == Error && reason == LoopInvalidArgs && itemsInPlaylist == 0 && Tallied([])
    }

    ghost function Result(errors: nat): Counters
      reads this`cyclesCompleted, this`renderedCount, this`holdCount, this`popCount
    {
      Counters(cyclesCompleted, renderedCount, holdCount, popCount, errors)
    }

    /** The counters and the trace are those of these cycles; an error is not counted. */
    ghost predicate Tallied(outs: seq<Cycle>)
      reads this`cyclesCompleted, this`renderedCount, this`holdCount, this`popCount, this`trace
    {
      var c := Tally(Statuses(outs));
      Result(c.errors) == c && trace == Effects(outs)
    }

    /** Waiting and re-checking, behind the snapshot of an item; `ok` is false if the sleep raised. */
    method Wait(item: Item, t: Turnover) returns (ok: bool)
      modifies this`status, this`reason, this`popCount, this`trace
      ensures ok == t.sleepOk
      ensures !ok ==> trace == old(trace) && status == Error && reason == LoopInternalError
      ensures ok ==> status == old(status) && reason == old(reason)
      ensures
        var pop := ok && SaysPlay(t.after) && confirm;
        && popCount == old(popCount) + (if pop then 1 else 0)
        && (ok ==> trace == old(trace) + [Slept(ClampMs(item.durationMs)),
                                          if t.after.Raises? then GateFailed else GateRead(SaysPlay(t.after))]
                            + if pop then [PopTried(t.after.value.state, t.pop)] else [])
    {
      var durationMs := if item.durationMs > 0 then item.durationMs else DURATION_MIN;
      durationMs := Min(Max(durationMs, DURATION_MIN), DURATION_MAX);
      if !t.sleepOk {
        status, reason := Error, LoopInternalError;
        return false;
      }
      trace := trace + [Slept(durationMs)];
      if t.after.Raises? {
        trace := trace + [GateFailed];
        return true;
      }
      trace := trace + [GateRead(t.after.value.action == Play)];
      if t.after.value.action == Play && confirm {
        trace := trace + [PopTried(t.after.value.state, t.pop)];
        popCount := popCount + 1;
      }
      return true;
    }

    /** The body of the loop; `ended` tells whether it returned, or raised, instead of going on. */
    method OneCycle(item: Item, t: Turnover) returns (ended: bool, exit: Exit)
      modifies this
      ensures trace == old(trace) + LoopCycle(confirm, item, t).effects
      ensures Result(0) == Bump(old(Result(0)), LoopCycle(confirm, item, t).status).(errors := 0)
      ensures itemsInPlaylist == old(itemsInPlaylist)
      ensures ended <==> LoopCycle(confirm, item, t).status == CycleError
      ensures exit == if ended && t.before.Got? && t.snapshot == NoDirectory then Escapes else Returns
      ensures ended && exit == Returns ==> status == Error && reason == LoopInternalError
      ensures !ended || exit == Escapes ==> status == old(status) && reason == old(reason)
    {
      if t.before.Raises? {
        trace := trace + [GateFailed];
        status, reason := Error, LoopInternalError;
        return true, Returns;
      }
      if t.before.value.action != Play {
        trace := trace + [GateRead(false), SnapshotTried(OnHold, t.snapshot)];
        if t.snapshot == NoDirectory { return true, Escapes; }
        holdCount := holdCount + 1;
        cyclesCompleted := cyclesCompleted + 1;
        return false, Returns;
      }
      trace := trace + [GateRead(true), SnapshotTried(Showing(item), t.snapshot)];
      if t.snapshot == NoDirectory { return true, Escapes; }
      var ok := Wait(item, t);
      if !ok { return true, Returns; }
      cyclesCompleted := cyclesCompleted + 1;
      renderedCount := renderedCount + 1;
      return false, Returns;
    }

    /** One cycle, as part of a run. */
    method TallyCycle(item: Item, t: Turnover, ghost outs: seq<Cycle>, ghost n: nat) returns (ended: bool, exit: Exit)
      requires n < |outs| && outs[n] == LoopCycle(confirm, item, t)
      requires Tallied(outs[..n]) && Tally(Statuses(outs[..n])).errors == 0
      modifies this
      ensures Tallied(outs[..n + 1]) && (!ended ==> Tally(Statuses(outs[..n + 1])).errors == 0)
      ensures itemsInPlaylist == old(itemsInPlaylist)
      ensures ended <==> outs[n].status == CycleError
      ensures exit == if ended && t.before.Got? && t.snapshot == NoDirectory then Escapes else Returns
      ensures ended && exit == Returns ==> status == Error && reason == LoopInternalError
      ensures !ended || exit == Escapes ==> status == old(status) && reason == old(reason)
    {
      CycleStep(outs, n);
      ended, exit := OneCycle(item, t);
    }

    method Cycles(items: seq<Item>, turns: nat -> Turnover) returns (exit: Exit, ghost attempts: nat)
      requires items != [] && maxCycles >= 0 && Tallied([]) && status == Error && reason == LoopInvalidArgs
      modifies this
      ensures attempts <= maxCycles && Tallied(LoopOutcomes(confirm, items, turns, maxCycles)[..attempts])
      ensures itemsInPlaylist == old(itemsInPlaylist)
      ensures LoopEnded(LoopOutcomes(confirm, items, turns, maxCycles), turns, attempts, exit, status, reason)
    {
      exit, attempts := Returns, 0;
      ghost var outs := LoopOutcomes(confirm, items, turns, maxCycles);
      assert outs[..0] == [];
      for cycle := 0 to maxCycles
        invariant attempts == cycle && exit == Returns && status == Error && reason == LoopInvalidArgs
        invariant itemsInPlaylist == old(itemsInPlaylist)
        invariant WentOn(outs, cycle) && Tallied(outs[..cycle]) && Tally(Statuses(outs[..cycle])).errors == 0
      {
        var ended;
        LoopOutcomeAt(confirm, items, turns, maxCycles, cycle);
        ended, exit := TallyCycle(items[cycle % |items|], turns(cycle), outs, cycle);
        attempts := attempts + 1;
        if ended { return; }
        WentOnStep(outs, cycle);
      }
      assert outs[..maxCycles] == outs;
      status, reason := Fine, LoopCompleted;
    }

    /** run_kso_runtime_loop, with the one reading of the playlist it makes. */
    method Run(staleSeconds: int, start: StartUp, playlist: Read<PlayerPlaylist>, turns: nat -> Turnover)
      returns (exit: Exit, ghost attempts: nat)
      requires Fresh()
      modifies this
      ensures HasItems(playlist) && maxCycles >= 0 ==>
                && attempts <= maxCycles
                && Tallied(LoopOutcomes(confirm, playlist.value.items, turns, maxCycles)[..attempts])
      ensures !(HasItems(playlist) && maxCycles >= 0) ==> attempts == 0 && Tallied([])
      ensures staleSeconds <= 0 || maxCycles < 0 ==>
          attempts == 0 && exit == Returns && status == Error && reason == LoopInvalidArgs
      ensures staleSeconds > 0 && maxCycles >= 0 && (!start.Started? || !HasItems(playlist)) ==>
                && attempts == 0 && exit == Returns && (status == Fine <==> reason == NoPlayableItems)
                && reason == (if start.StartError? then LoopPrepareFailed
                              else if start.StartRaises? || playlist.Raises? then LoopInternalError
                              else NoPlayableItems)
      ensures staleSeconds > 0 && maxCycles >= 0 && start.Started? && HasItems(playlist) ==>
        && itemsInPlaylist == |playlist.value.items|
        && LoopEnded(LoopOutcomes(confirm, playlist.value.items, turns, maxCycles),
                     turns, attempts, exit, status, reason)
    {
      if HasItems(playlist) && maxCycles >= 0 {
        assert LoopOutcomes(confirm, playlist.value.items, turns, maxCycles)[..0] == [];
      }
      if staleSeconds <= 0 || maxCycles < 0 { return Returns, 0; }
      if start.StartRaises? {
        reason := LoopInternalError;
        return Returns, 0;
      }
      if start.StartError? {
        reason := LoopPrepareFailed;
        return Returns, 0;
      }
      if playlist.Raises? {
        reason := LoopInternalError;
        return Returns, 0;
      }
      var items := playlist.value.items;
      itemsInPlaylist := |items|;
      if !playlist.value.ready || items == [] {
        status, reason := Fine, NoPlayableItems;
        return Returns, 0;
      }
      exit, attempts := Cycles(items, turns);
    }
  }
}
