// runtime_cycle.py and display_cycle.py: one display, with or without waiting for it.

module Cycle {
  import opened Events
  import opened Gate
  import opened Pipeline
  import opened Playlist
  import opened PopRecord
  import opened Recordable
  import opened Runtime
  import opened Text

  /** What the lock and the log make of an admissible line. */
  datatype IoOutcome = IoWritten | IoLocked | IoFailed

  datatype WriteResult = WriteResult(status: WriteStatus, reason: WriteReason, record: Option<Record>)

  /** write_pop_event: the result, and the record that was appended if it says written. */
  function WriteEvent(e: Event, state: string, io: IoOutcome): WriteResult {
    match Prepare(e, Some(state))
    case Rejected(status, reason) => WriteResult(status, reason, None)
    case Prepared(record) =>
      match io
      case IoWritten => WriteResult(WasWritten, ReasonWritten, Some(record))
      case IoLocked => WriteResult(WasSkipped, LockUnavailable, None)
      case IoFailed => WriteResult(WasError, WriteFailed, None)
  }

  // ---------------------------------------------------------------- display_cycle.py

  datatype DisplayReason =
    | DisplayInvalidArgs | DisplayInternalError | DisplayHold | NotConfirmed | PopWritten
    | PopRefused(reason: WriteReason)

  datatype DisplayResult = DisplayResult(
    status: Level, renderReady: bool, popWritten: bool, reason: DisplayReason, record: Option<Record>)

  /**
   * run_kso_display_cycle_once (draft) and run_kso_display_completion_once (completed): the render
   * plan, a second gate reading, of which only the state is used, and another playlist reading.
   */
  function DisplayOnce(staleSeconds: int, plan: RenderPlan, confirm: bool, gate: Read<GateResult>,
                       playlist: Read<PlayerPlaylist>, completed: bool, started: string, created: string,
                       io: IoOutcome): DisplayResult {
    if staleSeconds <= 0 then DisplayResult(Error, false, false, DisplayInvalidArgs, None)
    else if !plan.render then DisplayResult(plan.status, false, false, DisplayHold, None)
    else if !confirm then DisplayResult(Fine, true, false, NotConfirmed, None)
    else if gate.Raises? || playlist.Raises? then DisplayResult(Error, true, false, DisplayInternalError, None)
    else
      match EventFor(playlist.value, gate.value.state, completed, started, created)
      case Raises => DisplayResult(Error, true, false, DisplayInternalError, None)
      case Got(event) =>
        var w := WriteEvent(event, gate.value.state, io);
        if w.status == WasWritten then DisplayResult(Fine, true, true, PopWritten, w.record)
        else DisplayResult(Warning, true, false, PopRefused(w.reason), None)
  }

  /**
   * A record is written only behind a render plan and a confirmation. It claims playback exactly
   * if the second gate reading has the idle state and the playlist is ready: the verdict of that
   * reading is not asked.
   */
  lemma DisplayRecordExactly(staleSeconds: int, plan: RenderPlan, confirm: bool, gate: Read<GateResult>,
                             playlist: Read<PlayerPlaylist>, completed: bool, started: string, created: string,
                             io: IoOutcome)
    requires RealPlaylist(playlist)
    ensures
      var d := DisplayOnce(staleSeconds, plan, confirm, gate, playlist, completed, started, created, io);
      && (d.popWritten <==> d.record.Some?)
      && (d.popWritten ==>
            && plan.render && confirm && gate.Got? && playlist.Got? && io == IoWritten && Admissible(d.record.value)
            && d.record.value.eventStatus == (if completed then "completed" else "draft")
            && (d.record.value.playbackAllowed <==> Lower(Strip(gate.value.state)) == "idle" && playlist.value.ready)
            && (d.record.value.eventType == "would_play" <==> d.record.value.playbackAllowed))
  {
    var d := DisplayOnce(staleSeconds, plan, confirm, gate, playlist, completed, started, created, io);
    if d.popWritten {
      ChainRecord(playlist.value, gate.value.state, completed, started, created);
      PreparedIsAdmissible(EventFor(playlist.value, gate.value.state, completed, started, created).value,
                           Some(gate.value.state));
    }
  }

  /**
   * Behind a render plan and an idle state, the record is exactly the one that the chain yields, if the
   * log takes it.
   */
  lemma DisplayRecordsTheChain(staleSeconds: int, plan: RenderPlan, gate: Read<GateResult>, playlist: PlayerPlaylist,
                               completed: bool, started: string, created: string, io: IoOutcome)
    requires staleSeconds > 0 && plan.render && gate.Got? && gate.value.state == "idle"
    ensures
      var d := DisplayOnce(staleSeconds, plan, true, gate, Got(playlist), completed, started, created, io);
      && d.record == (if io.IoWritten? then ChainFor(playlist, completed, started, created) else None)
      && (d.popWritten <==> d.record.Some?)
  {
  }

  /** What a display reports: why it wrote nothing, or that it wrote. */
  lemma DisplaySays(staleSeconds: int, plan: RenderPlan, confirm: bool, gate: Read<GateResult>,
                    playlist: Read<PlayerPlaylist>, completed: bool, started: string, created: string, io: IoOutcome)
    ensures
      var d := DisplayOnce(staleSeconds, plan, confirm, gate, playlist, completed, started, created, io);
      var asked := staleSeconds > 0 && plan.render && confirm;
      && (d.reason == DisplayInvalidArgs <==> staleSeconds <= 0)
      && (d.reason == DisplayHold <==> staleSeconds > 0 && !plan.render)
      && (d.reason == NotConfirmed <==> staleSeconds > 0 && plan.render && !confirm)
      && (asked && (gate.Raises? || playlist.Raises?) ==> d.reason == DisplayInternalError)
      && (d.reason == PopWritten <==> d.popWritten) && (d.popWritten <==> d.record.Some?)
      && (d.popWritten || d.reason.PopRefused? || d.reason == DisplayInternalError <==> asked)
      && (d.renderReady <==> staleSeconds > 0 && plan.render)
      && (d.status == Fine <== d.popWritten || d.reason == NotConfirmed)
      && (d.reason == DisplayInvalidArgs || d.reason == DisplayInternalError ==> d.status == Error)
      && (d.reason.PopRefused? ==> d.status == Warning) && (d.reason == DisplayHold ==> d.status == plan.status)
  {
  }

  /** How the outcome of the log shows in the result. */
  lemma WriteSays(e: Event, state: string, io: IoOutcome)
    ensures
      var w, p := WriteEvent(e, state, io), Prepare(e, Some(state));
      && (w.status == WasWritten <==> p.Prepared? && io.IoWritten?)
      && (p.Prepared? && io.IoWritten? ==> w.reason == ReasonWritten)
      && (w.record.Some? <==> w.status == WasWritten)
      && (w.reason == LockUnavailable <==> p.Prepared? && io.IoLocked?)
      && (w.reason == WriteFailed <==> p.Prepared? && io.IoFailed?)
      && (p.Prepared? && io.IoLocked? ==> w.status == WasSkipped)
      && (p.Prepared? && io.IoFailed? ==> w.status == WasError)
      && (p.Rejected? ==> w.status == p.status && w.reason == p.reason)
  {
    RejectedExactly(e, Some(state));
  }

  // ---------------------------------------------------------------- runtime_cycle.py

  datatype CycleStart = CycleStartRaises | CycleStartError | CycleNotReady | CycleReady

  datatype CycleReason =
    | CycleInvalidArgs | CycleInternalError | CyclePrepareFailed | RuntimeHold | NoCompletedConfirm
    | StateWentStale | StateChanged | RuntimeCompleted | NotWritten(reason: WriteReason)

  /** _extract_duration_ms. */
  function ExtractDuration(plan: RenderPlan): (ms: int)
    ensures 1000 <= ms <= 60000
    ensures if plan.render && plan.selected.Some? then WaitsFor(ms, plan.selected.value.durationMs) else ms == 1000
  {
    if !plan.render || plan.selected.None? || plan.selected.value.durationMs <= 0 then DURATION_MIN
    else Min(Max(plan.selected.value.durationMs, DURATION_MIN), DURATION_MAX)
  }

  class Display {
    const confirm: bool
    var status: Level
    var reason: CycleReason
    var renderReady: bool
    var displayWaited: bool
    var stateRechecked: bool
    var popRequested: bool
    var popWritten: bool
    ghost var trace: seq<Effect>

    constructor (confirm: bool)
      ensures this.confirm == confirm && Unused()
    {
      this.confirm := confirm;
      status, reason, renderReady := Error, CycleInvalidArgs, false;
      displayWaited, stateRechecked, popRequested, popWritten := false, false, false, false;
      trace := [];
    }

    ghost predicate Unused()
      reads this
    {
      && status == Error && reason == CycleInvalidArgs && trace == []
      && !renderReady && !displayWaited && !stateRechecked && !popRequested && !popWritten
    }

    /** The last step: build the record and write it. Here, unlike in the loops, failures are reported. */
    method WritePop(state: string, pop: PopInput, io: IoOutcome)
      modifies this`reason, this`popWritten, this`trace
      requires !popWritten
      ensures popWritten <==> RecordFor(state, pop).Some? && io == IoWritten
      ensures popWritten ==> reason == RuntimeCompleted
      ensures !popWritten && RecordFor(state, pop).Some? ==>
          reason == NotWritten(if io == IoLocked then LockUnavailable else WriteFailed)
      ensures !popWritten ==> reason == CycleInternalError || reason.NotWritten?
      ensures trace == old(trace) + [PopTried(state, pop)]
    {
      trace := trace + [PopTried(state, pop)];
      if pop.playlist.Raises? {
        reason := CycleInternalError;
        return;
      }
      var event := EventFor(pop.playlist.value, state, true, pop.started, pop.created);
      if event.Raises? {
        reason := CycleInternalError;
        return;
      }
      var result := WriteEvent(event.value, state, io);
      if result.status == WasWritten {
        popWritten := true;
        reason := RuntimeCompleted;
      } else {
        reason := NotWritten(result.reason);
      }
    }

    /** Steps 6 to 8, behind a confirmation: wait, re-check the gate, write. */
    method Complete(durationMs: int, sleepOk: bool, after: Read<GateResult>, pop: PopInput, io: IoOutcome)
      requires trace == [] && !popWritten && !displayWaited && !stateRechecked && RealGate(after)
      modifies this`reason, this`displayWaited, this`stateRechecked, this`popWritten, this`trace
      ensures popWritten <==> sleepOk && SaysPlay(after) && RecordFor("idle", pop).Some? && io == IoWritten
      ensures displayWaited == stateRechecked == sleepOk
      ensures reason == RuntimeCompleted <==> popWritten
      ensures reason == StateWentStale <==> sleepOk && after.Got? && after.value.action != Play && !after.value.isFresh
      ensures reason == StateChanged <==> sleepOk && after.Got? && after.value.action != Play && after.value.isFresh
      ensures trace == (if !sleepOk then []
                        else if after.Raises? then [Slept(durationMs), GateFailed]
                        else if !SaysPlay(after) then [Slept(durationMs), GateRead(false)]
                        else [Slept(durationMs), GateRead(true), PopTried("idle", pop)])
    {
      if !sleepOk {
        reason := CycleInternalError;
        return;
      }
      trace := trace + [Slept(durationMs)];
      displayWaited := true;
      stateRechecked := true;
      if after.Raises? {
        trace := trace + [GateFailed];
        reason := CycleInternalError;
        return;
      }
      trace := trace + [GateRead(after.value.action == Play)];
      if after.value.action != Play {
        reason := if !after.value.isFresh then StateWentStale else StateChanged;
        return;
      }
      WritePop(after.value.state, pop, io);
    }

    /**
     * run_kso_runtime_cycle_once. A PoP is reported as written exactly when the start-up rendered,
     * the caller confirmed, the wait succeeded, the gate still says play, and the line was appended;
     * before it the cycle waited between one and sixty seconds.
     */
    method Run(staleSeconds: int, start: CycleStart, plan: RenderPlan, sleepOk: bool, after: Read<GateResult>,
               pop: PopInput, io: IoOutcome)
      requires Unused() && RealGate(after)
      modifies this
      ensures popRequested <==> staleSeconds > 0 && start.CycleReady? && confirm
      ensures popWritten <==>
          popRequested && sleepOk && SaysPlay(after) && RecordFor("idle", pop).Some? && io == IoWritten
      ensures popWritten ==>
        && status == Fine && reason == RuntimeCompleted
        && trace == [Slept(ExtractDuration(plan)), GateRead(true), PopTried("idle", pop)]
      ensures status == Error <==> staleSeconds <= 0 || start.CycleStartRaises? || start.CycleStartError?
      ensures displayWaited == stateRechecked && (displayWaited <==> popRequested && sleepOk)
      ensures reason == StateWentStale <==>
          stateRechecked && after.Got? && after.value.action != Play && !after.value.isFresh
      ensures reason == StateChanged <==>
          stateRechecked && after.Got? && after.value.action != Play && after.value.isFresh
      ensures (exists e :: e in trace && e.PopTried?) ==> stateRechecked && SaysPlay(after)
      ensures forall e | e in trace && e.Slept? ::
        if plan.render && plan.selected.Some? then WaitsFor(e.ms, plan.selected.value.durationMs) else e.ms == 1000
    {
      if staleSeconds <= 0 { return; }
      if start.CycleStartRaises? {
        reason := CycleInternalError;
        return;
      }
      if start.CycleStartError? {
        reason := CyclePrepareFailed;
        return;
      }
      status := Fine;
      if start.CycleNotReady? {
        reason := RuntimeHold;
        return;
      }
      var durationMs := ExtractDuration(plan);
      renderReady := true;
      if !confirm {
        reason := NoCompletedConfirm;
        return;
      }
      popRequested := true;
      Complete(durationMs, sleepOk, after, pop, io);
    }
  }
}
