// runtime_decision.py, render_plan.py, shell_command.py and shell_snapshot.py: the decision
// pipeline. Every stage reads the files again, so each read is an input of its own.

module Pipeline {
  import opened Gate
  import opened MediaReference
  import opened Playlist
  import opened Session
  import opened Text

  datatype Bucket = Short | Medium | Long | UnknownDuration

  datatype PlanReason =
    | ReadyToRender | DecisionHold | UnsupportedMediaType | NoSelectedItem | PlanInvalidArgs | PlanInternalError

  datatype DecisionReason =
    | ReadyToPlay | StateGateHold | ContentNotReady | SessionOrSafetyHold | DecisionInvalidArgs | DecisionInternalError

  datatype Decision = Decision(
    status: Level,
    playAllowed: bool,
    reason: DecisionReason,
    gateAction: Action,
    state: string,
    contentReady: bool,
    selectedPresent: bool)

  datatype RenderPlan = RenderPlan(
    status: Level,
    render: bool,
    reason: PlanReason,
    selectedPresent: bool,
    mediaType: MediaType,
    bucket: Bucket,
    selected: Option<Item>)

  datatype CommandReason =
    | ReadyForShell | RenderPlanHold | CommandInvalidArgs | CommandInternalError | UnsafeMediaReference

  datatype Command = Command(status: Level, render: bool, reason: CommandReason, mediaType: MediaType, bucket: Bucket)

  datatype Snapshot = Snapshot(
    status: Level,
    render: bool,
    reason: CommandReason,
    mediaType: MediaType,
    bucket: Bucket,
    mediaRef: Option<string>,
    popEvent: bool)

  function ClassifyDuration(ms: int): Bucket {
    if ms < 0 then UnknownDuration
    else if ms < 10000 then Short
    else if ms <= 60000 then Medium
    else Long
  }

  // ---------------------------------------------------------------- the stages

  function NoDecision(status: Level, reason: DecisionReason): Decision {
    Decision(status, false, reason, Hold, "unknown", false, false)
  }

  /** evaluate_kso_playback_runtime_decision: one gate read, one playlist read. */
  function Decide(staleSeconds: int, gate: Read<GateResult>, playlist: Read<PlayerPlaylist>): Decision {
    if staleSeconds <= 0 then NoDecision(Error, DecisionInvalidArgs)
    else if gate.Raises? then NoDecision(Error, DecisionInternalError)
    else
      var g := gate.value;
      if !g.playAllowed then Decision(g.status, false, StateGateHold, g.action, g.state, false, false)
      else if playlist.Raises? then Decision(Error, false, ContentNotReady, g.action, g.state, false, false)
      else
        var p := playlist.value;
        if !p.ready || p.itemsReady == 0 then
          Decision(Warning, false, ContentNotReady, g.action, g.state, false, false)
        else
          var safety := DecideSafety(Some(g.state), Some(p));
          if !safety.allowed then
            Decision(Warning, false, SessionOrSafetyHold, g.action, g.state, true, false)
          else
            var session := SelectNext(p, safety, None);
            if !session.allowed || session.selected.None? then
              Decision(Warning, false, SessionOrSafetyHold, g.action, g.state, true, false)
            else
              Decision(Fine, true, ReadyToPlay, g.action, g.state, true, true)
  }

  function HoldPlan(status: Level, reason: PlanReason): RenderPlan {
    RenderPlan(status, false, reason, false, UnknownMedia, UnknownDuration, None)
  }

  /** build_kso_render_plan: the decision, then a second playlist read for the item. */
  function Plan(staleSeconds: int, gate: Read<GateResult>, first: Read<PlayerPlaylist>,
                second: Read<PlayerPlaylist>): RenderPlan {
    if staleSeconds <= 0 then HoldPlan(Error, PlanInvalidArgs)
    else
      var decision := Decide(staleSeconds, gate, first);
      if !decision.playAllowed then HoldPlan(decision.status, DecisionHold)
      else if second.Raises? then HoldPlan(Error, PlanInternalError)
      else
        var safety := DecideSafety(Some(decision.state), Some(second.value));
        var session := SelectNext(second.value, safety, None);
        match session.selected
        case None => HoldPlan(Warning, NoSelectedItem)
        case Some(item) =>
          var mediaType := ClassifyMedia(item.contentType);
          if mediaType == UnknownMedia then
            RenderPlan(Warning, false, UnsupportedMediaType, true, UnknownMedia, UnknownDuration, Some(item))
          else
            RenderPlan(Fine, true, ReadyToRender, true, mediaType, ClassifyDuration(item.durationMs), Some(item))
  }

  /** build_kso_shell_command on its render plan. */
  function ToCommand(staleSeconds: int, plan: RenderPlan): Command {
    if staleSeconds <= 0 then Command(Error, false, CommandInvalidArgs, UnknownMedia, UnknownDuration)
    else if !plan.render then Command(plan.status, false, RenderPlanHold, UnknownMedia, UnknownDuration)
    else Command(Fine, true, ReadyForShell, plan.mediaType, plan.bucket)
  }

  /** build_kso_shell_snapshot on its command and, for a render command, on a plan built a second time. */
  function ToSnapshot(cmd: Command, again: RenderPlan): Snapshot {
    if !cmd.render then Snapshot(cmd.status, false, cmd.reason, UnknownMedia, UnknownDuration, None, false)
    else
      match SafeReference(again.selected)
      case None => Snapshot(Warning, false, UnsafeMediaReference, UnknownMedia, UnknownDuration, None, true)
      case Some(ref) => Snapshot(cmd.status, true, cmd.reason, cmd.mediaType, cmd.bucket, Some(ref), true)
  }

  // ---------------------------------------------------------------- over changing files

  /** The files and the clock at one moment. */
  datatype Files = Files(state: StateFile, now: int, manifest: ManifestFile, looks: nat -> MediaLook)

  function GateAt(f: Files, staleSeconds: int): Read<GateResult> { Evaluate(f.state, staleSeconds, f.now) }

  function PlaylistAt(f: Files): Read<PlayerPlaylist> { Build(f.manifest, f.looks) }

  /**
   * One snapshot build: six reads, each at its own moment. Moments 0 and 3 are the gate reads,
   * 1, 2, 4 and 5 the playlist reads.
   */
  function BuildSnapshot(staleSeconds: int, at: nat -> Files): Snapshot {
    var plan := Plan(staleSeconds, GateAt(at(0), staleSeconds), PlaylistAt(at(1)), PlaylistAt(at(2)));
    var again := Plan(staleSeconds, GateAt(at(3), staleSeconds), PlaylistAt(at(4)), PlaylistAt(at(5)));
    ToSnapshot(ToCommand(staleSeconds, plan), again)
  }

  predicate GatePlays(f: Files, staleSeconds: int) { PlaysAt(f.state, staleSeconds, f.now) }

  predicate PlaylistReady(f: Files) { PlaylistAt(f).Got? && PlaylistAt(f).value.ready }

  /** The item that a selection without state takes from a ready playlist. */
  function FirstItem(f: Files): Item
    requires PlaylistReady(f)
  {
    BuildConserves(f.manifest, f.looks);
    Sort(PlaylistAt(f).value.items)[0]
  }

  predicate FirstRenders(f: Files) {
    PlaylistReady(f) && ClassifyMedia(FirstItem(f).contentType) != UnknownMedia
  }

  lemma FirstItemIsSane(f: Files)
    requires PlaylistReady(f)
    ensures FirstItem(f).order >= 0 && FirstItem(f).durationMs >= 0
    ensures exists k: nat :: FirstMinimum(PlaylistAt(f).value.items, k) && FirstItem(f) == PlaylistAt(f).value.items[k]
  {
    BuildConserves(f.manifest, f.looks);
    var k := HeadIsFirstMinimum(PlaylistAt(f).value.items);
  }

  /** A decision to play needs a play reading of the gate and a ready playlist, and nothing else. */
  lemma DecideExactly(staleSeconds: int, g: Files, p: Files)
    ensures Decide(staleSeconds, GateAt(g, staleSeconds), PlaylistAt(p)).playAllowed
      <==> GatePlays(g, staleSeconds) && PlaylistReady(p)
    ensures GatePlays(g, staleSeconds) ==>
      staleSeconds > 0 && Decide(staleSeconds, GateAt(g, staleSeconds), PlaylistAt(p)).state == "idle"
  {
    if GateAt(g, staleSeconds).Got? {
      EvaluateIsSane(g.state, staleSeconds, g.now);
    }
    if PlaylistAt(p).Got? {
      BuildConserves(p.manifest, p.looks);
      SafetyAllowsExactly(Some("idle"), Some(PlaylistAt(p).value));
      IdleIsNormal();
    }
  }

  /** A render plan needs in addition that the second playlist read is ready and starts with an image or a video. */
  lemma PlanExactly(staleSeconds: int, g: Files, p: Files, q: Files)
    ensures
      var plan := Plan(staleSeconds, GateAt(g, staleSeconds), PlaylistAt(p), PlaylistAt(q));
      && (plan.render <==> GatePlays(g, staleSeconds) && PlaylistReady(p) && FirstRenders(q))
      && (plan.render ==>
            && plan.selected == Some(FirstItem(q))
            && plan.mediaType == ClassifyMedia(FirstItem(q).contentType)
            && plan.bucket == ClassifyDuration(FirstItem(q).durationMs))
      && (plan.selected.Some? && ClassifyMedia(plan.selected.value.contentType) != UnknownMedia ==> plan.render)
  {
    DecideExactly(staleSeconds, g, p);
    if PlaylistAt(q).Got? {
      BuildConserves(q.manifest, q.looks);
      SafetyAllowsExactly(Some("idle"), Some(PlaylistAt(q).value));
      IdleIsNormal();
    }
  }

  /**
   * With files changing arbitrarily between the six reads, a snapshot is in render mode exactly
   * when both gate reads say play, all four playlist reads are ready and both selected items are
   * images or videos. The media type and duration then describe the item of read 2, the media
   * reference the item of read 5.
   */
  lemma RenderExactly(staleSeconds: int, at: nat -> Files)
    ensures
      var s := BuildSnapshot(staleSeconds, at);
      && (s.render <==>
            && GatePlays(at(0), staleSeconds) && PlaylistReady(at(1)) && FirstRenders(at(2))
            && GatePlays(at(3), staleSeconds) && PlaylistReady(at(4)) && FirstRenders(at(5)))
      && (s.render ==>
            && staleSeconds > 0
            && s.mediaType == ClassifyMedia(FirstItem(at(2)).contentType)
            && s.bucket == ClassifyDuration(FirstItem(at(2)).durationMs)
            && FirstItem(at(5)).order >= 0
            && s.mediaRef == Some(SlotRef(FirstItem(at(5)).order)))
  {
    PlanExactly(staleSeconds, at(0), at(1), at(2));
    PlanExactly(staleSeconds, at(3), at(4), at(5));
    DecideExactly(staleSeconds, at(0), at(1));
    var again := Plan(staleSeconds, GateAt(at(3), staleSeconds), PlaylistAt(at(4)), PlaylistAt(at(5)));
    if again.selected.Some? {
      ReferencePresentExactly(again.selected.value);
    }
    if PlaylistReady(at(5)) {
      FirstItemIsSane(at(5));
    }
  }

  /** With files and clock frozen the four conditions collapse, and the whole payload describes one item. */
  lemma FrozenRenderExactly(staleSeconds: int, f: Files)
    ensures
      var s := BuildSnapshot(staleSeconds, (i: nat) => f);
      && (s.render <==> staleSeconds > 0 && GatePlays(f, staleSeconds) && FirstRenders(f))
      && (s.render ==>
            var item := FirstItem(f);
            && item.order >= 0
            && s == Snapshot(Fine, true, ReadyForShell, ClassifyMedia(item.contentType),
                             ClassifyDuration(item.durationMs), Some(SlotRef(item.order)), true))
  {
    RenderExactly(staleSeconds, (i: nat) => f);
    DecideExactly(staleSeconds, f, f);
  }

  /** The whole payload is that of this item. */
  predicate Describes(s: Snapshot, item: Item) {
    && item.order >= 0 && s.mediaType == ClassifyMedia(item.contentType)
    && s.bucket == ClassifyDuration(item.durationMs) && s.mediaRef == Some(SlotRef(item.order))
  }

  predicate LooksAlike(x: Item, y: Item) {
    && ClassifyMedia(x.contentType) == ClassifyMedia(y.contentType)
    && ClassifyDuration(x.durationMs) == ClassifyDuration(y.durationMs)
  }

  lemma DescribesExactly(s: Snapshot, x: Item, y: Item)
    requires x.order >= 0 && y.order >= 0 && s.mediaRef == Some(SlotRef(y.order))
    requires s.mediaType == ClassifyMedia(x.contentType) && s.bucket == ClassifyDuration(x.durationMs)
    ensures (Describes(s, y) <==> LooksAlike(x, y)) && (Describes(s, x) <==> x.order == y.order)
  {
    if SlotRef(x.order) == SlotRef(y.order) {
      SlotAliasInjective(x.order, y.order);
    }
  }

  /**
   * With files changing arbitrarily, a rendered payload describes the item of the last read exactly
   * if that has the type and the bucket of the item of read 2, and the item of read 2 exactly if
   * that has the order of the last one; it describes neither exactly if both differ.
   */
  lemma PayloadDescribesExactly(staleSeconds: int, at: nat -> Files)
    requires BuildSnapshot(staleSeconds, at).render
    ensures FirstRenders(at(2)) && FirstRenders(at(5))
    ensures
      var s, x, y := BuildSnapshot(staleSeconds, at), FirstItem(at(2)), FirstItem(at(5));
      && (Describes(s, y) <==> LooksAlike(x, y)) && (Describes(s, x) <==> x.order == y.order)
      && (!Describes(s, x) && !Describes(s, y) <==> x.order != y.order && !LooksAlike(x, y))
  {
    RenderExactly(staleSeconds, at);
    FirstItemIsSane(at(2));
    FirstItemIsSane(at(5));
    DescribesExactly(BuildSnapshot(staleSeconds, at), FirstItem(at(2)), FirstItem(at(5)));
  }

  /** The files change between the two plans of one build, from one state to another. */
  function Switching(f: Files, g: Files): nat -> Files { (i: nat) => if i < 3 then f else g }

  /**
   * Between two states that each render, the build always renders, and mixes two items exactly if
   * their orders differ and their types or buckets do: it then has the type and the duration of the
   * first, and the media reference of the second.
   */
  lemma MixedPayloadExactly(staleSeconds: int, f: Files, g: Files)
    requires GatePlays(f, staleSeconds) && FirstRenders(f) && GatePlays(g, staleSeconds) && FirstRenders(g)
    ensures FirstItem(g).order >= 0
    ensures
      var s, x, y := BuildSnapshot(staleSeconds, Switching(f, g)), FirstItem(f), FirstItem(g);
      && s.render
      && s.mediaType == ClassifyMedia(x.contentType) && s.bucket == ClassifyDuration(x.durationMs)
      && s.mediaRef == Some(SlotRef(y.order))
      && (!Describes(s, x) && !Describes(s, y) <==> x.order != y.order && !LooksAlike(x, y))
  {
    RenderExactly(staleSeconds, Switching(f, g));
    PayloadDescribesExactly(staleSeconds, Switching(f, g));
  }

  // ---------------------------------------------------------------- reasons

  predicate Plays(gate: Read<GateResult>) { gate.Got? && gate.value.playAllowed }

  predicate IsReady(playlist: Read<PlayerPlaylist>) { playlist.Got? && playlist.value.ready }

  predicate Sound(gate: Read<GateResult>, playlist: Read<PlayerPlaylist>) {
    (gate.Got? ==> Sane(gate.value)) && (playlist.Got? ==> WellBuilt(playlist.value))
  }

  /** Why a decision is what it is, and what it passes on. */
  lemma DecisionSays(staleSeconds: int, gate: Read<GateResult>, playlist: Read<PlayerPlaylist>)
    requires Sound(gate, playlist)
    ensures
      var d := Decide(staleSeconds, gate, playlist);
      && (d.reason == DecisionInvalidArgs <==> staleSeconds <= 0)
      && (d.reason == DecisionInternalError <==> staleSeconds > 0 && gate.Raises?)
      && (d.reason == StateGateHold <==> staleSeconds > 0 && gate.Got? && !Plays(gate))
      && (d.reason == ContentNotReady <==> staleSeconds > 0 && Plays(gate) && !IsReady(playlist))
      && (d.reason == ReadyToPlay <==> staleSeconds > 0 && Plays(gate) && IsReady(playlist))
      && d.playAllowed == d.contentReady == d.selectedPresent == (d.reason == ReadyToPlay)
      && (staleSeconds > 0 && gate.Got? ==> d.state == gate.value.state && d.gateAction == gate.value.action)
      && (staleSeconds <= 0 || gate.Raises? ==> d.state == "unknown" && d.gateAction == Hold && d.status == Error)
      && (d.reason == StateGateHold ==> d.status == gate.value.status) && (d.status == Fine <== d.reason == ReadyToPlay)
      && (d.reason == ContentNotReady ==> d.status == if playlist.Raises? then Error else Warning)
  {
    if playlist.Got? {
      SafetyAllowsExactly(Some("idle"), Some(playlist.value));
      IdleIsNormal();
    }
  }

  /** Why a plan is what it is, behind a sound decision. */
  lemma PlanSays(staleSeconds: int, gate: Read<GateResult>, first: Read<PlayerPlaylist>, second: Read<PlayerPlaylist>)
    requires Sound(gate, first) && Sound(gate, second)
    ensures
      var d, p := Decide(staleSeconds, gate, first), Plan(staleSeconds, gate, first, second);
      && (p.reason == PlanInvalidArgs <==> staleSeconds <= 0)
      && (p.reason == DecisionHold <==> staleSeconds > 0 && !d.playAllowed)
      && (p.reason == PlanInternalError <==> d.playAllowed && second.Raises?)
      && (p.reason == NoSelectedItem <==> d.playAllowed && second.Got? && !second.value.ready)
      && (p.reason == ReadyToRender <==> p.render)
      && (p.reason == UnsupportedMediaType <==> d.playAllowed && IsReady(second) && !p.render)
      && (p.selected.Some? <==> d.playAllowed && IsReady(second)) && p.selectedPresent == p.selected.Some?
      && (p.status == Fine <== p.render)
      && (p.reason == PlanInvalidArgs || p.reason == PlanInternalError ==> p.status == Error)
      && (p.reason == NoSelectedItem || p.reason == UnsupportedMediaType ==> p.status == Warning)
      && (p.reason == DecisionHold ==> p.status == d.status)
      && (!p.render ==> p.mediaType == UnknownMedia && p.bucket == UnknownDuration)
  {
    DecisionSays(staleSeconds, gate, first);
    if second.Got? {
      SafetyAllowsExactly(Some("idle"), Some(second.value));
      IdleIsNormal();
    }
  }

  /** Why a snapshot is what it is. */
  lemma SnapshotSays(staleSeconds: int, plan: RenderPlan, again: RenderPlan)
    ensures
      var s := ToSnapshot(ToCommand(staleSeconds, plan), again);
      var commanded := staleSeconds > 0 && plan.render;
      && (s.reason == CommandInvalidArgs <==> staleSeconds <= 0)
      && (s.reason == RenderPlanHold <==> staleSeconds > 0 && !plan.render)
      && (s.reason == UnsafeMediaReference <==> commanded && SafeReference(again.selected).None?)
      && (s.reason == ReadyForShell <==> commanded && SafeReference(again.selected).Some?)
      && (s.render <==> s.reason == ReadyForShell) && (s.popEvent <==> commanded)
      && (s.mediaRef.Some? <==> s.render) && (s.render ==> s.mediaRef == SafeReference(again.selected))
      && (s.status == Fine <== s.render) && (s.reason == UnsafeMediaReference ==> s.status == Warning)
      && (s.reason == CommandInvalidArgs ==> s.status == Error)
      && (s.reason == RenderPlanHold ==> s.status == plan.status)
  {
  }
}
