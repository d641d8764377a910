// What holds over every run of the daemon: which PoP attempts it makes, and which items it shows.

module DaemonRuns {
  import opened Attribution
  import opened Daemon
  import opened Playlist
  import opened Rotation
  import opened Runtime
  import opened Session
  import opened Text

  predicate AllReal(rounds: seq<Round>) { forall j | 0 <= j < |rounds| :: Real(rounds[j]) }

  lemma OutcomeAt(cfg: Config, rounds: seq<Round>, j: nat)
    requires j < |rounds|
    ensures Outcomes(cfg, rounds)[j] == CycleOf(cfg, rounds[j], j)
  {
  }

  // ---------------------------------------------------------------- PoP attempts

  lemma CycleJustified(cfg: Config, r: Round, cycle: nat)
    requires Real(r)
    ensures AllJustified(CycleOf(cfg, r, cycle).effects, cfg.confirm)
  {
    CycleExactly(cfg, r, cycle);
    var c := CycleOf(cfg, r, cycle);
    if c.status == RenderedWithPop {
      DisplayWithPopIsJustified(ItemOf(r, cycle), r.snapshot, r.pop);
    }
  }

  lemma CyclePops(cfg: Config, r: Round, cycle: nat)
    requires Real(r)
    ensures CountsItsPop(CycleOf(cfg, r, cycle))
  {
    CycleExactly(cfg, r, cycle);
    var c := CycleOf(cfg, r, cycle);
    if c.status == RenderedWithPop {
      OnePop(ItemOf(r, cycle), r.snapshot, r.pop);
    } else {
      NoPops(c.effects);
    }
  }

  /**
   * In every run over arbitrary readings, each PoP attempt ends a confirmed turn: the gate said
   * play, a snapshot of an item was written, if perhaps in vain, the loop slept for that item's
   * clamped duration, and the gate still said play; the attempt carries the idle state.
   */
  lemma EveryPopIsJustified(cfg: Config, rounds: seq<Round>, n: nat)
    requires AllReal(rounds) && n <= |rounds|
    ensures AllJustified(Effects(Outcomes(cfg, rounds)[..n]), cfg.confirm)
  {
    var outs := Outcomes(cfg, rounds)[..n];
    forall j | 0 <= j < n ensures AllJustified(outs[j].effects, cfg.confirm) {
      OutcomeAt(cfg, rounds, j);
      CycleJustified(cfg, rounds[j], j);
    }
    EffectsJustified(outs, cfg.confirm);
  }

  lemma CycleIsTimed(cfg: Config, r: Round, cycle: nat)
    ensures AllTimed(CycleOf(cfg, r, cycle).effects)
  {
    if Turns(r) {
      TurnIsTimed(cfg, r, ItemOf(r, cycle));
    } else {
      QuietIsTimed(cfg, r, cycle);
    }
  }

  lemma TurnIsTimed(cfg: Config, r: Round, item: Item)
    ensures AllTimed(ItemTurn(cfg, r, item).effects)
  {
    ClampWaits(item.durationMs);
  }

  lemma QuietIsTimed(cfg: Config, r: Round, cycle: nat)
    requires !Turns(r)
    ensures AllTimed(CycleOf(cfg, r, cycle).effects)
  {
  }

  /**
   * Each sleep of a run follows the snapshot of an item and lasts between 1000 and 60000 ms: as long
   * as the item if that is in the range, and the nearer bound exactly if the item is at or beyond it.
   */
  lemma EverySleepIsTimed(cfg: Config, rounds: seq<Round>, n: nat)
    requires n <= |rounds|
    ensures AllTimed(Effects(Outcomes(cfg, rounds)[..n]))
  {
    var outs := Outcomes(cfg, rounds)[..n];
    forall j | 0 <= j < n ensures AllTimed(outs[j].effects) {
      OutcomeAt(cfg, rounds, j);
      CycleIsTimed(cfg, rounds[j], j);
    }
    EffectsTimed(outs);
  }

  lemma RunAccounting(cfg: Config, rounds: seq<Round>, n: nat)
    requires n <= |rounds|
    ensures
      var s := Statuses(Outcomes(cfg, rounds)[..n]);
      var c := Tally(s);
      && c.completed + c.errors == n
      && c.completed == c.rendered + c.held + Count(s, NoItemsYet)
      && c.errors == Count(s, CycleError) && c.held == Count(s, Held)
      && c.pops == Count(s, RenderedWithPop) && c.rendered == Count(s, Rendered) + c.pops
  {
    var outs := Outcomes(cfg, rounds);
    forall j | 0 <= j < n ensures IsAttempt(Statuses(outs[..n])[j]) {
      OutcomeAt(cfg, rounds, j);
      CycleKinds(cfg, rounds[j], j);
    }
    Accounting(Statuses(outs[..n]));
  }

  /** The PoPs a run counts are its PoP attempts, which are at most the cycles counted as rendered. */
  lemma PopsAreAttempts(cfg: Config, rounds: seq<Round>, n: nat)
    requires AllReal(rounds) && n <= |rounds|
    ensures
      var c := Tally(Statuses(Outcomes(cfg, rounds)[..n]));
      c.pops == Pops(Effects(Outcomes(cfg, rounds)[..n])) && c.pops <= c.rendered
  {
    var outs := Outcomes(cfg, rounds)[..n];
    forall j | 0 <= j < n ensures CountsItsPop(outs[j]) {
      OutcomeAt(cfg, rounds, j);
      CyclePops(cfg, rounds[j], j);
    }
    PopsAreCounted(outs);
    RunAccounting(cfg, rounds, n);
  }

  // ---------------------------------------------------------------- the screen

  /** What the cycle tries to put on the screen; None if it raises before. */
  function Content(r: Round, cycle: nat): Option<Screen> {
    if r.playlist.Raises? then None
    else if !HasItems(r.playlist) then Some(OnHold)
    else if r.before.Raises? then None
    else if !SaysPlay(r.before) then Some(OnHold)
    else Some(Showing(ItemOf(r, cycle)))
  }

  /** Exactly one effect of a cycle is about the snapshot, if any, and it comes before the sleep. */
  lemma OneSnapshot(cfg: Config, r: Round, cycle: nat)
    ensures
      var effects := CycleOf(cfg, r, cycle).effects;
      && (forall i | 2 <= i < |effects| :: !effects[i].SnapshotTried?)
      && (Turns(r) ==> |effects| >= 2 && effects[1] == SnapshotTried(Showing(ItemOf(r, cycle)), r.snapshot))
  {
  }

  /** What a cycle makes of the screen: only a snapshot that is installed, or torn, replaces what is there. */
  lemma CycleScreen(cfg: Config, r: Round, cycle: nat, before: Screen)
    ensures ScreenAfter(before, CycleOf(cfg, r, cycle).effects) ==
      match Content(r, cycle)
      case None => before
      case Some(content) => ScreenStep(before, SnapshotTried(content, r.snapshot))
  {
    OneSnapshot(cfg, r, cycle);
    ShortTrace(before, CycleOf(cfg, r, cycle).effects);
  }

  /** The counters do not see whether a snapshot was installed, torn or lost. */
  lemma LossIsNotCounted(cfg: Config, r: Round, cycle: nat, other: SnapshotWrite)
    requires r.snapshot != NoDirectory && other != NoDirectory
    ensures CycleOf(cfg, r.(snapshot := other), cycle).status == CycleOf(cfg, r, cycle).status
    ensures Pops(CycleOf(cfg, r.(snapshot := other), cycle).effects) == Pops(CycleOf(cfg, r, cycle).effects)
  {
    if Turns(r) {
      TurnLoss(cfg, r, ItemOf(r, cycle), other);
    } else {
      QuietLoss(cfg, r, cycle, other);
    }
    SamePops(CycleOf(cfg, r.(snapshot := other), cycle).effects, CycleOf(cfg, r, cycle).effects);
  }

  /** Two cycles go on alike. */
  predicate Alike(a: Cycle, b: Cycle) {
    && a.status == b.status && |a.effects| == |b.effects|
    && forall i | 0 <= i < |a.effects| :: a.effects[i].PopTried? <==> b.effects[i].PopTried?
  }

  lemma TurnLoss(cfg: Config, r: Round, item: Item, other: SnapshotWrite)
    requires r.snapshot != NoDirectory && other != NoDirectory
    ensures Alike(ItemTurn(cfg, r.(snapshot := other), item), ItemTurn(cfg, r, item))
  {
  }

  lemma QuietLoss(cfg: Config, r: Round, cycle: nat, other: SnapshotWrite)
    requires r.snapshot != NoDirectory && other != NoDirectory && !Turns(r)
    ensures Alike(CycleOf(cfg, r.(snapshot := other), cycle), CycleOf(cfg, r, cycle))
  {
  }

  lemma {:induction false} SamePops(a: seq<Effect>, b: seq<Effect>)
    requires |a| == |b| && forall i | 0 <= i < |a| :: a[i].PopTried? <==> b[i].PopTried?
    ensures Pops(a) == Pops(b)
  {
    if a != [] {
      SamePops(a[..|a| - 1], b[..|b| - 1]);
    }
  }

  /** If every snapshot of a run is lost, the screen never changes, whatever the run counts. */
  lemma {:induction false} LostRunShowsNothing(cfg: Config, rounds: seq<Round>, n: nat, before: Screen)
    requires n <= |rounds| && forall j | 0 <= j < n :: rounds[j].snapshot == Lost
    ensures ScreenAfter(before, Effects(Outcomes(cfg, rounds)[..n])) == before
  {
    if n > 0 {
      LostRunShowsNothing(cfg, rounds, n - 1, before);
      EffectsStep(Outcomes(cfg, rounds), n - 1);
      OutcomeAt(cfg, rounds, n - 1);
      CycleScreen(cfg, rounds[n - 1], n - 1, before);
      ScreenConcat(before, Effects(Outcomes(cfg, rounds)[..n - 1]), CycleOf(cfg, rounds[n - 1], n - 1).effects);
    }
  }

  /**
   * A held cycle, or one without items, takes the advertisement off the screen exactly if its hold
   * snapshot took effect.
   */
  lemma HoldClearsExactly(cfg: Config, r: Round, cycle: nat, ad: Item)
    requires CycleOf(cfg, r, cycle).status == Held || CycleOf(cfg, r, cycle).status == NoItemsYet
    ensures ScreenAfter(Showing(ad), CycleOf(cfg, r, cycle).effects) == OnHold <==> r.snapshot.Installed?
    ensures ScreenAfter(Showing(ad), CycleOf(cfg, r, cycle).effects) == Showing(ad) <==> r.snapshot.Lost?
  {
    QuietCycleExactly(cfg, r, cycle);
    CycleScreen(cfg, r, cycle, Showing(ad));
  }

  /**
   * In every run, at each PoP attempt the item of the turn is on the screen exactly if the turn's
   * snapshot was installed, or was lost while the same item was on the screen already.
   */
  lemma AttemptScreenExactly(cfg: Config, rounds: seq<Round>, n: nat, before: Screen, i: nat)
    requires AllReal(rounds) && n <= |rounds|
    requires i < |Effects(Outcomes(cfg, rounds)[..n])| && Effects(Outcomes(cfg, rounds)[..n])[i].PopTried?
    ensures i >= 4
    ensures
      var trace := Effects(Outcomes(cfg, rounds)[..n]);
      var turn, earlier := trace[i - 3], ScreenAfter(before, trace[..i - 3]);
      && turn.SnapshotTried? && turn.content.Showing?
      && (ScreenAfter(before, trace[..i]) == turn.content <==>
            turn.result.Installed? || (turn.result.Lost? && earlier == turn.content))
  {
    EveryPopIsJustified(cfg, rounds, n);
    ScreenAtAttempt(before, Effects(Outcomes(cfg, rounds)[..n]), i, cfg.confirm);
  }

  // ---------------------------------------------------------------- rotation

  /** Round j puts position p of the playlist on the screen. */
  predicate ShowsAt(rounds: seq<Round>, j: nat, p: nat)
    requires j < |rounds|
  {
    Displays(rounds[j]) && j % |rounds[j].playlist.value.items| == p
  }

  /** That is what the cycle leaves on the screen, in front of the sleep and of what follows. */
  lemma ShowsAtIsShown(cfg: Config, rounds: seq<Round>, j: nat, p: nat, before: Screen)
    requires j < |rounds| && ShowsAt(rounds, j, p)
    ensures p < |rounds[j].playlist.value.items|
    ensures
      var effects := CycleOf(cfg, rounds[j], j).effects;
      forall i | 2 <= i <= |effects| :: ScreenAfter(before, effects[..i]) == Showing(rounds[j].playlist.value.items[p])
  {
    var effects := CycleOf(cfg, rounds[j], j).effects;
    OneSnapshot(cfg, rounds[j], j);
    forall i | 2 <= i <= |effects|
      ensures ScreenAfter(before, effects[..i]) == Showing(rounds[j].playlist.value.items[p])
    {
      ScreenIsLastInstalled(before, effects[..i], 1);
    }
  }

  /** How often position p is shown in the k rounds from a on. */
  function TimesShown(rounds: seq<Round>, a: nat, k: nat, p: nat): nat
    requires a + k <= |rounds|
  {
    if k == 0 then 0 else TimesShown(rounds, a, k - 1, p) + if ShowsAt(rounds, a + k - 1, p) then 1 else 0
  }

  /** The rounds that display, as turns of a rotation. */
  function Shows(rounds: seq<Round>): nat -> bool { (j: nat) => j < |rounds| && Displays(rounds[j]) }

  /** Every round of the window that displays has a playlist of n items. */
  predicate OfSize(rounds: seq<Round>, a: nat, k: nat, n: nat)
    requires a + k <= |rounds|
  {
    forall j | a <= j < a + k && Displays(rounds[j]) :: |rounds[j].playlist.value.items| == n
  }

  lemma {:induction false} TimesShownIsShownBy(rounds: seq<Round>, a: nat, k: nat, n: nat, p: nat)
    requires a + k <= |rounds| && n > 0 && OfSize(rounds, a, k, n)
    ensures TimesShown(rounds, a, k, p) == ShownBy(Shows(rounds), a, k, n, p)
  {
    if k > 0 {
      TimesShownIsShownBy(rounds, a, k - 1, n, p);
    }
  }

  /** Every turn that the window has for the position displays its item. */
  predicate NoTurnLost(rounds: seq<Round>, a: nat, k: nat, n: nat, p: nat)
    requires a + k <= |rounds| && n > 0
  {
    forall j | a <= j < a + k && j % n == p :: Displays(rounds[j])
  }

  /** None of them does. */
  predicate AllTurnsLost(rounds: seq<Round>, a: nat, k: nat, n: nat, p: nat)
    requires a + k <= |rounds| && n > 0
  {
    forall j | a <= j < a + k && j % n == p :: !Displays(rounds[j])
  }

  lemma NoneLost(rounds: seq<Round>, a: nat, k: nat, n: nat, p: nat)
    requires a + k <= |rounds| && n > 0
    ensures NoTurnLost(rounds, a, k, n, p) <==> EveryTurnShows(Shows(rounds), a, k, n, p)
  {
    if NoTurnLost(rounds, a, k, n, p) {
      forall j | a <= j < a + k && j % n == p ensures Shows(rounds)(j) {
        assert Displays(rounds[j]);
      }
    }
    if EveryTurnShows(Shows(rounds), a, k, n, p) {
      forall j | a <= j < a + k && j % n == p ensures Displays(rounds[j]) {
        assert Shows(rounds)(j);
      }
    }
  }

  lemma AllLost(rounds: seq<Round>, a: nat, k: nat, n: nat, p: nat)
    requires a + k <= |rounds| && n > 0
    ensures AllTurnsLost(rounds, a, k, n, p) <==> NoTurnShows(Shows(rounds), a, k, n, p)
  {
    if AllTurnsLost(rounds, a, k, n, p) {
      forall j | a <= j < a + k && j % n == p ensures !Shows(rounds)(j) {
        assert !Displays(rounds[j]);
      }
    }
    if NoTurnShows(Shows(rounds), a, k, n, p) {
      forall j | a <= j < a + k && j % n == p ensures !Displays(rounds[j]) {
        assert !Shows(rounds)(j);
      }
    }
  }

  /**
   * Every cycle uses up a turn, held, failed and lost ones too. So in any window a position is shown
   * at most as often as it has turns; it gets all of them exactly if all of them display, and is
   * never shown exactly if none of them does.
   */
  lemma {:induction false} RotationIsFairExactly(rounds: seq<Round>, a: nat, k: nat, n: nat, p: nat)
    requires a + k <= |rounds| && p < n && OfSize(rounds, a, k, n)
    ensures TimesShown(rounds, a, k, p) <= Shown(a, k, n, p)
    ensures TimesShown(rounds, a, k, p) == Shown(a, k, n, p) <==> NoTurnLost(rounds, a, k, n, p)
    ensures TimesShown(rounds, a, k, p) == 0 <==> AllTurnsLost(rounds, a, k, n, p)
  {
    TimesShownIsShownBy(rounds, a, k, n, p);
    FairExactly(Shows(rounds), a, k, n, p);
    NoneLost(rounds, a, k, n, p);
    AllLost(rounds, a, k, n, p);
  }

  /** It is shown floor(k/n) or ceil(k/n) times exactly if it loses no turn, or only the one beyond floor(k/n). */
  lemma FairShareExactly(rounds: seq<Round>, a: nat, k: nat, n: nat, p: nat)
    requires a + k <= |rounds| && p < n && OfSize(rounds, a, k, n)
    ensures
      var shown, missed := TimesShown(rounds, a, k, p), MissedBy(Shows(rounds), a, k, n, p);
      && shown + missed == Shown(a, k, n, p)
      && (shown == k / n || (shown == k / n + 1 && k % n != 0) <==>
            missed == 0 || (missed == 1 && Shown(a, k, n, p) == k / n + 1))
  {
    TimesShownIsShownBy(rounds, a, k, n, p);
    TurnsAreShownOrMissed(Shows(rounds), a, k, n, p);
    FloorOrCeilExactly(Shows(rounds), a, k, n, p);
  }

  /** Every position gets all its turns. */
  predicate AllShown(rounds: seq<Round>, a: nat, k: nat, n: nat)
    requires a + k <= |rounds| && n > 0
  {
    forall p: nat | p < n :: TimesShown(rounds, a, k, p) == Shown(a, k, n, p)
  }

  lemma AllShownIsAllServed(rounds: seq<Round>, a: nat, k: nat, n: nat)
    requires a + k <= |rounds| && n > 0 && OfSize(rounds, a, k, n)
    ensures AllShown(rounds, a, k, n) <==> AllServed(Shows(rounds), a, k, n)
  {
    forall p: nat | p < n ensures TimesShown(rounds, a, k, p) == ShownBy(Shows(rounds), a, k, n, p) {
      TimesShownIsShownBy(rounds, a, k, n, p);
    }
    if AllServed(Shows(rounds), a, k, n) {
      forall p: nat | p < n ensures TimesShown(rounds, a, k, p) == Shown(a, k, n, p) {
        assert ShownBy(Shows(rounds), a, k, n, p) == Shown(a, k, n, p);
      }
    }
  }

  /** All positions get all their turns exactly if every cycle of the window displays. */
  lemma AllPositionsServedExactly(rounds: seq<Round>, a: nat, k: nat, n: nat)
    requires a + k <= |rounds| && n > 0 && OfSize(rounds, a, k, n)
    ensures AllShown(rounds, a, k, n) <==> forall j | a <= j < a + k :: Displays(rounds[j])
  {
    AllShownIsAllServed(rounds, a, k, n);
    AllServedExactly(Shows(rounds), a, k, n);
    if forall j | a <= j < a + k :: Displays(rounds[j]) {
      assert forall j | a <= j < a + k :: Shows(rounds)(j);
    }
    if forall j | a <= j < a + k :: Shows(rounds)(j) {
      forall j | a <= j < a + k ensures Displays(rounds[j]) {
        assert Shows(rounds)(j);
      }
    }
  }

  /** A gate that holds in every odd round: the second of two items is never shown, however long it runs. */
  lemma {:induction false} AlternatingHoldsStarve(rounds: seq<Round>, k: nat)
    requires k <= |rounds| && OfSize(rounds, 0, k, 2)
    requires forall j | 0 <= j < k && j % 2 == 1 :: !SaysPlay(rounds[j].before)
    ensures TimesShown(rounds, 0, k, 1) == 0
  {
    RotationIsFairExactly(rounds, 0, k, 2, 1);
  }

  /**
   * The loops take items in manifest order, select_next_item in the order of their slots. The two
   * rotations agree at every turn exactly when the manifest lists the items in slot order.
   */
  lemma RotationsCoincideExactly(playlist: PlayerPlaylist)
    requires playlist.items != []
    ensures (forall c: nat :: Turn(playlist, c).selected == Some(playlist.items[c % |playlist.items|])) <==>
        Ordered(playlist.items)
  {
    var items, n := playlist.items, |playlist.items|;
    SortIsStable(items, 0);
    if Ordered(items) {
      SortOfOrdered(items);
    }
    if forall c: nat :: Turn(playlist, c).selected == Some(items[c % n]) {
      forall c | 0 <= c < n ensures Sort(items)[c] == items[c] {
        assert Turn(playlist, c).selected == Some(items[c % n]);
        DivMod(c, n, 0, c);
      }
      assert Sort(items) == items;
    }
  }

  // ---------------------------------------------------------------- what the records say

  /** The inputs of the PoP attempts of the k rounds from a on. */
  function PopsOf(rounds: seq<Round>, a: nat, k: nat): (pops: seq<PopInput>)
    requires a + k <= |rounds|
    ensures |pops| == k && forall i | 0 <= i < k :: pops[i] == rounds[a + i].pop
  {
    seq(k, i requires 0 <= i < k => rounds[a + i].pop)
  }

  /** Rounds a, ..., a + k - 1 all display an item of one unchanged playlist, and record it. */
  predicate Steady(cfg: Config, rounds: seq<Round>, a: nat, k: nat, playlist: PlayerPlaylist)
    requires a + k <= |rounds|
  {
    && (forall j | a <= j < a + k ::
          && Real(rounds[j]) && rounds[j].playlist == Got(playlist) && Displays(rounds[j])
          && CycleOf(cfg, rounds[j], j).status == RenderedWithPop)
    && SamePlaylist(PopsOf(rounds, a, k), playlist)
  }

  /**
   * While nothing changes and every cycle displays and records an item, each of the n items is on
   * the screen once in n cycles, but all n records name the same one: exactly one of them is right.
   */
  lemma OneRecordInNIsRight(cfg: Config, rounds: seq<Round>, a: nat, playlist: PlayerPlaylist, p: nat)
    requires HasItems(Got(playlist)) && DistinctOrders(playlist.items) && p < |playlist.items|
    requires a + |playlist.items| <= |rounds| && Steady(cfg, rounds, a, |playlist.items|, playlist)
    ensures TimesShown(rounds, a, |playlist.items|, p) == 1
    ensures Count(RightRecords(playlist.items, PopsOf(rounds, a, |playlist.items|), a), true) == 1
  {
    var n := |playlist.items|;
    assert Real(rounds[a]) && rounds[a].playlist == Got(playlist);
    RotationIsFairExactly(rounds, a, n, n, p);
    DivMod(n, n, 1, 0);
    RotationIsFair(a, n, n, p);
    OneInNIsRight(playlist, PopsOf(rounds, a, n), a);
  }
}
