// What the runtime loops read from the outside world, and what they do to it.

module Runtime {
  import opened Gate
  import opened Events
  import opened Playlist
  import opened PopRecord
  import opened Session
  import opened Text

  /** What a PoP attempt reads. */
  datatype PopInput = PopInput(playlist: Read<PlayerPlaylist>, started: string, created: string)

  /** run_kso_visible_runtime_once. */
  datatype StartUp = StartRaises | StartError | Started

  /** What the snapshot file, and so the screen, can hold: an item, a hold, or something of neither loop's making. */
  datatype Screen = Showing(item: Item) | OnHold | Other

  /**
   * How writing a snapshot goes. Making the directory raises; every other OSError is swallowed, and
   * then the file keeps what it had; and nobody looks at how much os.write took.
   */
  datatype SnapshotWrite = Installed | Truncated | Lost | NoDirectory

  /** What a loop does, as an observer of snapshot file, clock, state file and log sees it. */
  datatype Effect =
    | GateRead(plays: bool)
    | GateFailed
    | SnapshotTried(content: Screen, result: SnapshotWrite)
    | Slept(ms: int)
    | PopTried(state: string, pop: PopInput)

  const DURATION_MIN := 1000
  const DURATION_MAX := 60000

  predicate SaysPlay(g: Read<GateResult>) { g.Got? && g.value.action == Play }

  predicate HasItems(p: Read<PlayerPlaylist>) { p.Got? && p.value.ready && p.value.items != [] }

  /** What every reading of the playlist and of the gate satisfies. */
  predicate RealPlaylist(p: Read<PlayerPlaylist>) { p.Got? ==> WellBuilt(p.value) }

  predicate RealGate(g: Read<GateResult>) { g.Got? ==> Sane(g.value) }

  lemma ReadingsAreReal(manifest: ManifestFile, looks: nat -> MediaLook, file: StateFile, staleSeconds: int, now: int)
    ensures RealPlaylist(Build(manifest, looks)) && RealGate(Evaluate(file, staleSeconds, now))
  {
    if Build(manifest, looks).Got? {
      BuildConserves(manifest, looks);
    }
    if Evaluate(file, staleSeconds, now).Got? {
      EvaluateIsSane(file, staleSeconds, now);
    }
  }

  /** The display time of an item. */
  function ClampMs(durationMs: int): int {
    Min(Max(if durationMs > 0 then durationMs else DURATION_MIN, DURATION_MIN), DURATION_MAX)
  }

  /** A wait for an item of this duration: between one and sixty seconds, and the duration itself if it can be. */
  predicate WaitsFor(ms: int, durationMs: int) {
    && 1000 <= ms <= 60000
    && (ms == durationMs <==> 1000 <= durationMs <= 60000)
    && (ms == 1000 <==> durationMs <= 1000)
    && (ms == 60000 <==> durationMs >= 60000)
  }

  lemma ClampWaits(durationMs: int)
    ensures WaitsFor(ClampMs(durationMs), durationMs)
  {
  }

  /**
   * _write_completed_pop and _write_completed_pop_for_item: the record that a PoP attempt appends.
   * The displayed item is not used, and None stands for every silent failure before the log.
   */
  function RecordFor(state: string, p: PopInput): Option<Record> {
    match p.playlist
    case Raises => None
    case Got(playlist) =>
      match EventFor(playlist, state, true, p.started, p.created)
      case Raises => None
      case Got(event) =>
        match Prepare(event, Some(state))
        case Rejected(_, _) => None
        case Prepared(record) => Some(record)
  }

  /** Every record of the chain is completed, and a would_play for the first item of the playlist, or blocked. */
  predicate FromChain(r: Record, state: string, playlist: Read<PlayerPlaylist>) {
    && Admissible(r) && r.eventStatus == "completed" && r.safetyState == state
    && (r.selectedOrder.Some? <==> state == "idle" && HasItems(playlist))
    && r.eventType == (if r.selectedOrder.Some? then "would_play" else "blocked")
    && (HasItems(playlist) && state == "idle" ==> r.selectedOrder == Some(Sort(playlist.value.items)[0].order))
  }

  lemma RecordIsFromChain(state: string, p: PopInput)
    requires RecordFor(state, p).Some? && RealPlaylist(p.playlist) && Lower(Strip(state)) == state
    ensures FromChain(RecordFor(state, p).value, state, p.playlist)
  {
    var e := EventFor(p.playlist.value, state, true, p.started, p.created).value;
    ChainRecord(p.playlist.value, state, true, p.started, p.created);
    PreparedIsAdmissible(e, Some(state));
    NamesDiffer();
  }

  // ---------------------------------------------------------------- traces

  /** The i-th effect, if it is a PoP attempt, ends a confirmed turn of an item that was allowed before and after. */
  predicate Justified(trace: seq<Effect>, i: nat, confirm: bool)
    requires i < |trace|
  {
    trace[i].PopTried? ==>
      && confirm && i >= 4
      && trace[i - 4] == GateRead(true)
      && trace[i - 3].SnapshotTried? && trace[i - 3].content.Showing? && trace[i - 3].result != NoDirectory
      && trace[i - 2] == Slept(ClampMs(trace[i - 3].content.item.durationMs))
      && trace[i - 1] == GateRead(true)
      && trace[i].state == "idle"
      && (RecordFor(trace[i].state, trace[i].pop).Some? ==>
            FromChain(RecordFor(trace[i].state, trace[i].pop).value, "idle", trace[i].pop.playlist))
  }

  predicate AllJustified(trace: seq<Effect>, confirm: bool) {
    forall i | 0 <= i < |trace| :: Justified(trace, i, confirm)
  }

  lemma JustifiedConcat(a: seq<Effect>, b: seq<Effect>, confirm: bool)
    requires AllJustified(a, confirm) && AllJustified(b, confirm)
    ensures AllJustified(a + b, confirm)
  {
    forall i | 0 <= i < |a + b| ensures Justified(a + b, i, confirm) {
      if i < |a| {
        assert Justified(a, i, confirm);
      } else {
        assert Justified(b, i - |a|, confirm);
      }
    }
  }

  /** The i-th effect, if it is a sleep, waits for the item whose snapshot was tried just before. */
  predicate TimedAt(trace: seq<Effect>, i: nat)
    requires i < |trace|
  {
    trace[i].Slept? ==>
      && i >= 1 && trace[i - 1].SnapshotTried? && trace[i - 1].content.Showing?
      && WaitsFor(trace[i].ms, trace[i - 1].content.item.durationMs)
  }

  predicate AllTimed(trace: seq<Effect>) { forall i | 0 <= i < |trace| :: TimedAt(trace, i) }

  lemma TimedConcat(a: seq<Effect>, b: seq<Effect>)
    requires AllTimed(a) && AllTimed(b)
    ensures AllTimed(a + b)
  {
    forall i | 0 <= i < |a + b| ensures TimedAt(a + b, i) {
      if i < |a| {
        assert TimedAt(a, i);
      } else {
        assert TimedAt(b, i - |a|);
      }
    }
  }

  /** The PoP attempts of a trace. */
  function Pops(trace: seq<Effect>): nat {
    if trace == [] then 0 else Pops(trace[..|trace| - 1]) + if trace[|trace| - 1].PopTried? then 1 else 0
  }

  lemma {:induction false} PopsConcat(a: seq<Effect>, b: seq<Effect>)
    ensures Pops(a + b) == Pops(a) + Pops(b)
  {
    if b == [] {
      assert a + b == a;
    } else {
      var n := |b| - 1;
      PopsConcat(a, b[..n]);
      assert (a + b)[..|a| + n] == a + b[..n];
    }
  }

  // ---------------------------------------------------------------- the screen

  /** What one effect makes of the snapshot file. */
  function ScreenStep(before: Screen, e: Effect): Screen {
    if !e.SnapshotTried? then before
    else
      match e.result
      case Installed => e.content
      case Truncated => Other
      case Lost => before
      case NoDirectory => before
  }

  function ScreenAfter(before: Screen, trace: seq<Effect>): Screen {
    if trace == [] then before
    else ScreenStep(ScreenAfter(before, trace[..|trace| - 1]), trace[|trace| - 1])
  }

  lemma {:induction false} ScreenConcat(before: Screen, a: seq<Effect>, b: seq<Effect>)
    ensures ScreenAfter(before, a + b) == ScreenAfter(ScreenAfter(before, a), b)
  {
    if b == [] {
      assert a + b == a;
    } else {
      var n := |b| - 1;
      ScreenConcat(before, a, b[..n]);
      assert (a + b)[..|a| + n] == a + b[..n];
    }
  }

  /** The effect changes the snapshot file. */
  predicate Changes(e: Effect) { e.SnapshotTried? && (e.result.Installed? || e.result.Truncated?) }

  lemma {:induction false} ScreenUnchanged(before: Screen, trace: seq<Effect>)
    requires forall i | 0 <= i < |trace| :: !Changes(trace[i])
    ensures ScreenAfter(before, trace) == before
  {
    if trace != [] {
      ScreenUnchanged(before, trace[..|trace| - 1]);
    }
  }

  /** The screen holds the snapshot that was installed last; where none was, it holds what it did before. */
  lemma {:induction false} ScreenIsLastInstalled(before: Screen, trace: seq<Effect>, i: nat)
    requires i < |trace| && Changes(trace[i]) && forall j | i < j < |trace| :: !Changes(trace[j])
    ensures ScreenAfter(before, trace) == if trace[i].result.Installed? then trace[i].content else Other
  {
    var n := |trace| - 1;
    if i < n {
      ScreenIsLastInstalled(before, trace[..n], i);
      assert !Changes(trace[n]);
    }
  }

  /** The screen behind a trace of at most two effects, or one that writes no snapshot behind them. */
  lemma ShortTrace(before: Screen, trace: seq<Effect>)
    requires forall i | 2 <= i < |trace| :: !trace[i].SnapshotTried?
    ensures ScreenAfter(before, trace) ==
      if trace == [] then before
      else if |trace| == 1 then ScreenStep(before, trace[0])
      else ScreenStep(ScreenStep(before, trace[0]), trace[1])
    decreases |trace|
  {
    if |trace| > 2 {
      ShortTrace(before, trace[..|trace| - 1]);
    } else if |trace| == 2 {
      assert trace[..1][..0] == [];
    }
  }

  lemma ScreenBehind(before: Screen, trace: seq<Effect>, i: nat)
    requires i < |trace|
    ensures ScreenAfter(before, trace[..i + 1]) == ScreenStep(ScreenAfter(before, trace[..i]), trace[i])
  {
    assert trace[..i + 1][..i] == trace[..i];
  }

  /**
   * At a justified PoP attempt the item of the turn is on the screen exactly if the turn's snapshot
   * was installed, or was lost while the same item was on the screen already.
   */
  lemma ScreenAtAttempt(before: Screen, trace: seq<Effect>, i: nat, confirm: bool)
    requires i < |trace| && trace[i].PopTried? && Justified(trace, i, confirm)
    ensures
      var turn, earlier := trace[i - 3], ScreenAfter(before, trace[..i - 3]);
      && ScreenAfter(before, trace[..i]) == ScreenStep(earlier, turn)
      && (ScreenAfter(before, trace[..i]) == turn.content <==>
            turn.result.Installed? || (turn.result.Lost? && earlier == turn.content))
  {
    ScreenBehind(before, trace, i - 3);
    ScreenBehind(before, trace, i - 2);
    ScreenBehind(before, trace, i - 1);
  }

  /** The effects of a turn that ends in a PoP attempt. */
  function DisplayWithPop(item: Item, write: SnapshotWrite, state: string, p: PopInput): seq<Effect> {
    [GateRead(true), SnapshotTried(Showing(item), write), Slept(ClampMs(item.durationMs)), GateRead(true),
     PopTried(state, p)]
  }

  lemma DisplayWithPopIsJustified(item: Item, write: SnapshotWrite, p: PopInput)
    requires RealPlaylist(p.playlist) && write != NoDirectory
    ensures AllJustified(DisplayWithPop(item, write, "idle", p), true)
  {
    IdleIsNormal();
    if RecordFor("idle", p).Some? {
      RecordIsFromChain("idle", p);
    }
  }

  lemma OnePop(item: Item, write: SnapshotWrite, p: PopInput)
    ensures Pops(DisplayWithPop(item, write, "idle", p)) == 1
  {
    var d := DisplayWithPop(item, write, "idle", p);
    NoPops(d[..4]);
  }

  lemma {:induction false} NoPops(trace: seq<Effect>)
    requires forall e | e in trace :: !e.PopTried?
    ensures Pops(trace) == 0
  {
    if trace != [] {
      NoPops(trace[..|trace| - 1]);
    }
  }

  // ---------------------------------------------------------------- cycles

  datatype CycleStatus = NotYet | Rendered | RenderedWithPop | Held | NoItemsYet | CycleError | Stopped

  datatype Cycle = Cycle(status: CycleStatus, effects: seq<Effect>)

  function Statuses(outs: seq<Cycle>): (s: seq<CycleStatus>)
    ensures |s| == |outs| && forall j | 0 <= j < |outs| :: s[j] == outs[j].status
  {
    seq(|outs|, j requires 0 <= j < |outs| => outs[j].status)
  }

  /** Everything that the cycles do. */
  function Effects(outs: seq<Cycle>): seq<Effect> {
    if outs == [] then [] else Effects(outs[..|outs| - 1]) + outs[|outs| - 1].effects
  }

  lemma StatusesStep(outs: seq<Cycle>, n: nat)
    requires n < |outs|
    ensures Statuses(outs[..n + 1]) == Statuses(outs[..n]) + [outs[n].status]
  {
  }

  lemma EffectsStep(outs: seq<Cycle>, n: nat)
    requires n < |outs|
    ensures Effects(outs[..n + 1]) == Effects(outs[..n]) + outs[n].effects
  {
    assert outs[..n + 1][..n] == outs[..n];
  }

  /** The counters of the result. */
  datatype Counters = Counters(completed: nat, rendered: nat, held: nat, pops: nat, errors: nat)

  function Bump(c: Counters, s: CycleStatus): Counters {
    match s
    case Rendered => c.(completed := c.completed + 1, rendered := c.rendered + 1)
    case RenderedWithPop => c.(completed := c.completed + 1, rendered := c.rendered + 1, pops := c.pops + 1)
    case Held => c.(completed := c.completed + 1, held := c.held + 1)
    case CycleError => c.(errors := c.errors + 1)
    case _ => c.(completed := c.completed + 1)
  }

  function Tally(s: seq<CycleStatus>): Counters {
    if s == [] then Counters(0, 0, 0, 0, 0) else Bump(Tally(s[..|s| - 1]), s[|s| - 1])
  }

  lemma TallyStep(s: seq<CycleStatus>, x: CycleStatus)
    ensures Tally(s + [x]) == Bump(Tally(s), x)
  {
    assert (s + [x])[..|s|] == s;
  }

  /** One more cycle, as the loops count it. */
  lemma CycleStep(outs: seq<Cycle>, n: nat)
    requires n < |outs|
    ensures Tally(Statuses(outs[..n + 1])) == Bump(Tally(Statuses(outs[..n])), outs[n].status)
    ensures Effects(outs[..n + 1]) == Effects(outs[..n]) + outs[n].effects
  {
    StatusesStep(outs, n);
    EffectsStep(outs, n);
    TallyStep(Statuses(outs[..n]), outs[n].status);
  }

  /**
   * Accounting: the counters are the numbers of attempts of each kind; every attempt is either
   * completed or an error, and every completed one rendered, held or found no items.
   */
  lemma {:induction false} Accounting(s: seq<CycleStatus>)
    requires forall j | 0 <= j < |s| :: IsAttempt(s[j])
    ensures
      var c := Tally(s);
      && c.rendered == Count(s, Rendered) + Count(s, RenderedWithPop)
      && c.pops == Count(s, RenderedWithPop) && c.held == Count(s, Held) && c.errors == Count(s, CycleError)
      && c.completed + c.errors == |s| && c.completed == c.rendered + c.held + Count(s, NoItemsYet)
  {
    if s != [] {
      Accounting(s[..|s| - 1]);
    }
  }

  predicate IsAttempt(s: CycleStatus) { s != NotYet && s != Stopped }

  predicate CyclesJustified(outs: seq<Cycle>, confirm: bool) {
    forall j | 0 <= j < |outs| :: AllJustified(outs[j].effects, confirm)
  }

  lemma {:induction false} EffectsJustified(outs: seq<Cycle>, confirm: bool)
    requires CyclesJustified(outs, confirm)
    ensures AllJustified(Effects(outs), confirm)
  {
    if outs != [] {
      var n := |outs| - 1;
      EffectsJustified(outs[..n], confirm);
      JustifiedConcat(Effects(outs[..n]), outs[n].effects, confirm);
    }
  }

  lemma {:induction false} EffectsTimed(outs: seq<Cycle>)
    requires forall j | 0 <= j < |outs| :: AllTimed(outs[j].effects)
    ensures AllTimed(Effects(outs))
  {
    if outs != [] {
      var n := |outs| - 1;
      EffectsTimed(outs[..n]);
      TimedConcat(Effects(outs[..n]), outs[n].effects);
    }
  }

  /** A cycle attempts one PoP if its status says so, and none otherwise. */
  predicate CountsItsPop(c: Cycle) { Pops(c.effects) == if c.status == RenderedWithPop then 1 else 0 }

  lemma {:induction false} PopsAreCounted(outs: seq<Cycle>)
    requires forall j | 0 <= j < |outs| :: CountsItsPop(outs[j])
    ensures Pops(Effects(outs)) == Tally(Statuses(outs)).pops
  {
    if outs != [] {
      var n := |outs| - 1;
      PopsAreCounted(outs[..n]);
      PopsConcat(Effects(outs[..n]), outs[n].effects);
      assert Statuses(outs)[..n] == Statuses(outs[..n]);
    }
  }
}
