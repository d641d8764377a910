// What holds over every run of the loop.

module LoopRuns {
  import opened Attribution
  import opened Loop
  import opened Playlist
  import opened Rotation
  import opened Runtime
  import opened Session
  import opened Text

  predicate AllRealTurns(turns: nat -> Turnover, n: nat) { forall j: nat | j < n :: RealTurnover(turns(j)) }

  lemma LoopCycleJustified(confirm: bool, item: Item, t: Turnover)
    requires RealTurnover(t)
    ensures AllJustified(LoopCycle(confirm, item, t).effects, confirm)
  {
    LoopCycleExactly(confirm, item, t);
    if LoopCycle(confirm, item, t).status == RenderedWithPop {
      DisplayWithPopIsJustified(item, t.snapshot, t.pop);
    }
  }

  lemma LoopCyclePops(confirm: bool, item: Item, t: Turnover)
    requires RealTurnover(t)
    ensures CountsItsPop(LoopCycle(confirm, item, t))
  {
    LoopCycleExactly(confirm, item, t);
    if LoopCycle(confirm, item, t).status == RenderedWithPop {
      OnePop(item, t.snapshot, t.pop);
    } else {
      NoPops(LoopCycle(confirm, item, t).effects);
    }
  }

  /** Each PoP attempt of a run ends a confirmed, timed turn of an item, with play readings before and after. */
  lemma EveryLoopPopIsJustified(confirm: bool, items: seq<Item>, turns: nat -> Turnover, n: nat)
    requires items != [] && AllRealTurns(turns, n)
    ensures AllJustified(Effects(LoopOutcomes(confirm, items, turns, n)), confirm)
  {
    var outs := LoopOutcomes(confirm, items, turns, n);
    forall j | 0 <= j < n ensures AllJustified(outs[j].effects, confirm) {
      LoopOutcomeAt(confirm, items, turns, n, j);
      LoopCycleJustified(confirm, items[j % |items|], turns(j));
    }
    EffectsJustified(outs, confirm);
  }

  lemma LoopCycleIsTimed(confirm: bool, item: Item, t: Turnover)
    ensures AllTimed(LoopCycle(confirm, item, t).effects)
  {
    ClampWaits(item.durationMs);
  }

  /** Each sleep of a run follows the snapshot of an item and lasts 1000 to 60000 ms, as the item says. */
  lemma EveryLoopSleepIsTimed(confirm: bool, items: seq<Item>, turns: nat -> Turnover, n: nat)
    requires items != []
    ensures AllTimed(Effects(LoopOutcomes(confirm, items, turns, n)))
  {
    var outs := LoopOutcomes(confirm, items, turns, n);
    forall j | 0 <= j < n ensures AllTimed(outs[j].effects) {
      LoopOutcomeAt(confirm, items, turns, n, j);
      LoopCycleIsTimed(confirm, items[j % |items|], turns(j));
    }
    EffectsTimed(outs);
  }

  /**
   * Accounting: completed cycles rendered or held; the PoPs counted are the attempts, which are at
   * most the cycles counted as rendered.
   */
  lemma LoopAccounting(confirm: bool, items: seq<Item>, turns: nat -> Turnover, n: nat)
    requires items != [] && AllRealTurns(turns, n)
    ensures
      var outs := LoopOutcomes(confirm, items, turns, n);
      var c, trace := Tally(Statuses(outs)), Effects(outs);
      && c.completed == c.rendered + c.held && c.completed + c.errors == n
      && c.pops == Pops(trace) && c.pops <= c.rendered
  {
    var outs := LoopOutcomes(confirm, items, turns, n);
    forall j | 0 <= j < n ensures CountsItsPop(outs[j]) && IsAttempt(outs[j].status) && outs[j].status != NoItemsYet {
      LoopOutcomeAt(confirm, items, turns, n, j);
      LoopCyclePops(confirm, items[j % |items|], turns(j));
    }
    PopsAreCounted(outs);
    Accounting(Statuses(outs));
    CountZero(Statuses(outs), NoItemsYet);
  }

  // ---------------------------------------------------------------- the screen

  lemma LoopOneSnapshot(confirm: bool, item: Item, t: Turnover)
    ensures
      var effects := LoopCycle(confirm, item, t).effects;
      && (forall i | 2 <= i < |effects| :: !effects[i].SnapshotTried?)
      && |effects| >= 1 && !effects[0].SnapshotTried?
      && (t.before.Raises? ==> |effects| == 1)
      && (t.before.Got? ==> |effects| >= 2)
      && (t.before.Got? ==>
          effects[1] == SnapshotTried(if SaysPlay(t.before) then Showing(item) else OnHold, t.snapshot))
  {
  }

  /** What a cycle makes of the screen: only a snapshot that is installed, or torn, replaces what is there. */
  lemma LoopCycleScreen(confirm: bool, item: Item, t: Turnover, before: Screen)
    ensures ScreenAfter(before, LoopCycle(confirm, item, t).effects) ==
      if t.before.Raises? then before
      else ScreenStep(before, SnapshotTried(if SaysPlay(t.before) then Showing(item) else OnHold, t.snapshot))
  {
    LoopOneSnapshot(confirm, item, t);
    ShortTrace(before, LoopCycle(confirm, item, t).effects);
  }

  /** A held cycle takes the advertisement off the screen exactly if its hold snapshot took effect. */
  lemma LoopHoldClearsExactly(confirm: bool, item: Item, t: Turnover, ad: Item)
    requires LoopCycle(confirm, item, t).status == Held
    ensures ScreenAfter(Showing(ad), LoopCycle(confirm, item, t).effects) == OnHold <==> t.snapshot.Installed?
    ensures ScreenAfter(Showing(ad), LoopCycle(confirm, item, t).effects) == Showing(ad) <==> t.snapshot.Lost?
  {
    LoopCycleScreen(confirm, item, t, Showing(ad));
  }

  /** If cycle j displays, its item is on the screen from its snapshot to the end of the cycle. */
  lemma LoopShowsAtIsShown(confirm: bool, items: seq<Item>, turns: nat -> Turnover, n: nat, j: nat, before: Screen)
    requires items != [] && j < n && LoopDisplays(turns(j))
    ensures
      var effects := LoopOutcomes(confirm, items, turns, n)[j].effects;
      && |effects| >= 2
      && forall i | 2 <= i <= |effects| :: ScreenAfter(before, effects[..i]) == Showing(items[j % |items|])
  {
    var effects := LoopCycle(confirm, items[j % |items|], turns(j)).effects;
    LoopOutcomeAt(confirm, items, turns, n, j);
    LoopOneSnapshot(confirm, items[j % |items|], turns(j));
    forall i | 2 <= i <= |effects| ensures ScreenAfter(before, effects[..i]) == Showing(items[j % |items|]) {
      ScreenIsLastInstalled(before, effects[..i], 1);
    }
  }

  /**
   * At each PoP attempt of a run the item is on the screen exactly if its snapshot took effect, or was
   * there already.
   */
  lemma LoopAttemptScreenExactly(confirm: bool, items: seq<Item>,
                                 turns: nat -> Turnover, n: nat, before: Screen, i: nat)
    requires items != [] && AllRealTurns(turns, n)
    requires i < |Effects(LoopOutcomes(confirm, items, turns, n))|
    requires Effects(LoopOutcomes(confirm, items, turns, n))[i].PopTried?
    ensures i >= 4
    ensures
      var trace := Effects(LoopOutcomes(confirm, items, turns, n));
      var turn, earlier := trace[i - 3], ScreenAfter(before, trace[..i - 3]);
      && turn.SnapshotTried? && turn.content.Showing?
      && (ScreenAfter(before, trace[..i]) == turn.content <==>
            turn.result.Installed? || (turn.result.Lost? && earlier == turn.content))
  {
    EveryLoopPopIsJustified(confirm, items, turns, n);
    ScreenAtAttempt(before, Effects(LoopOutcomes(confirm, items, turns, n)), i, confirm);
  }

  // ---------------------------------------------------------------- rotation

  /** The cycles that display, as turns of a rotation. */
  function LoopShows(turns: nat -> Turnover): nat -> bool { (j: nat) => LoopDisplays(turns(j)) }

  /** Every turn that the window has for the position displays its item. */
  predicate NoLoopTurnLost(turns: nat -> Turnover, a: nat, k: nat, n: nat, p: nat)
    requires n > 0
  {
    forall j | a <= j < a + k && j % n == p :: LoopDisplays(turns(j))
  }

  /** None of them does. */
  predicate AllLoopTurnsLost(turns: nat -> Turnover, a: nat, k: nat, n: nat, p: nat)
    requires n > 0
  {
    forall j | a <= j < a + k && j % n == p :: !LoopDisplays(turns(j))
  }

  lemma NoneLoopLost(turns: nat -> Turnover, a: nat, k: nat, n: nat, p: nat)
    requires n > 0
    ensures NoLoopTurnLost(turns, a, k, n, p) <==> EveryTurnShows(LoopShows(turns), a, k, n, p)
  {
    if NoLoopTurnLost(turns, a, k, n, p) {
      forall j | a <= j < a + k && j % n == p ensures LoopShows(turns)(j) {
        assert LoopDisplays(turns(j));
      }
    }
    if EveryTurnShows(LoopShows(turns), a, k, n, p) {
      forall j | a <= j < a + k && j % n == p ensures LoopDisplays(turns(j)) {
        assert LoopShows(turns)(j);
      }
    }
  }

  lemma AllLoopLost(turns: nat -> Turnover, a: nat, k: nat, n: nat, p: nat)
    requires n > 0
    ensures AllLoopTurnsLost(turns, a, k, n, p) <==> NoTurnShows(LoopShows(turns), a, k, n, p)
  {
    if AllLoopTurnsLost(turns, a, k, n, p) {
      forall j | a <= j < a + k && j % n == p ensures !LoopShows(turns)(j) {
        assert !LoopDisplays(turns(j));
      }
    }
    if NoTurnShows(LoopShows(turns), a, k, n, p) {
      forall j | a <= j < a + k && j % n == p ensures !LoopDisplays(turns(j)) {
        assert !LoopShows(turns)(j);
      }
    }
  }

  /**
   * Every cycle uses up a turn. In any window a position of n is shown at most as often as it has
   * turns; it gets all of them exactly if all of them display, and is never shown exactly if none of
   * them does.
   */
  lemma {:induction false} LoopRotationIsFairExactly(turns: nat -> Turnover, n: nat, a: nat, k: nat, p: nat)
    requires p < n
    ensures ShownBy(LoopShows(turns), a, k, n, p) <= Shown(a, k, n, p)
    ensures ShownBy(LoopShows(turns), a, k, n, p) == Shown(a, k, n, p) <==> NoLoopTurnLost(turns, a, k, n, p)
    ensures ShownBy(LoopShows(turns), a, k, n, p) == 0 <==> AllLoopTurnsLost(turns, a, k, n, p)
  {
    FairExactly(LoopShows(turns), a, k, n, p);
    NoneLoopLost(turns, a, k, n, p);
    AllLoopLost(turns, a, k, n, p);
  }

  // ---------------------------------------------------------------- what the records say

  /** The inputs of the PoP attempts of the k cycles from a on. */
  function LoopPops(turns: nat -> Turnover, a: nat, k: nat): (pops: seq<PopInput>)
    ensures |pops| == k && forall i | 0 <= i < k :: pops[i] == turns(a + i).pop
  {
    seq(k, i requires 0 <= i < k => turns(a + i).pop)
  }

  /** The loop reads its playlist once; these cycles display its items and record each from an unchanged manifest. */
  predicate LoopSteady(confirm: bool, playlist: PlayerPlaylist, turns: nat -> Turnover, a: nat, k: nat)
    requires playlist.items != []
  {
    && WellBuilt(playlist)
    && (forall j: nat | a <= j < a + k ::
          && LoopDisplays(turns(j))
          && LoopCycle(confirm, playlist.items[j % |playlist.items|], turns(j)).status == RenderedWithPop)
    && SamePlaylist(LoopPops(turns, a, k), playlist)
  }

  /** The record of a cycle names its item exactly if that is lowest in the playlist rebuilt for the record. */
  lemma LoopNamesShownItemExactly(confirm: bool, items: seq<Item>, turns: nat -> Turnover, j: nat)
    requires items != [] && RealTurnover(turns(j)) && RecordFor("idle", turns(j).pop).Some?
    ensures
      var item, again := items[j % |items|], turns(j).pop.playlist;
      NamesItem(item, turns(j).pop) <==> HasItems(again) && IsLowest(item.order, again.value.items)
  {
    NamesItemExactly(items[j % |items|], turns(j).pop);
  }

  /** In n cycles each of n items is shown once, and exactly one of the n records names the item it was shown with. */
  lemma LoopOneRecordInNIsRight(confirm: bool, playlist: PlayerPlaylist, turns: nat -> Turnover, a: nat, p: nat)
    requires HasItems(Got(playlist)) && DistinctOrders(playlist.items) && p < |playlist.items|
    requires LoopSteady(confirm, playlist, turns, a, |playlist.items|)
    ensures ShownBy(LoopShows(turns), a, |playlist.items|, |playlist.items|, p) == 1
    ensures Count(RightRecords(playlist.items, LoopPops(turns, a, |playlist.items|), a), true) == 1
  {
    var n := |playlist.items|;
    LoopRotationIsFairExactly(turns, n, a, n, p);
    DivMod(n, n, 1, 0);
    RotationIsFair(a, n, n, p);
    OneInNIsRight(playlist, LoopPops(turns, a, n), a);
  }
}
