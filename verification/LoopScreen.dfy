// The screen of a loop as the file that its snapshot writes leave behind.

module LoopScreen {
  import opened Json
  import opened Playlist
  import opened Runtime
  import opened SnapshotWriters
  import opened Text
  import A = AtomicWrite
  import D = Daemon
  import DR = DaemonRuns
  import L = Loop
  import LR = LoopRuns
  import Utf8

  /** The object that _write_hold_snapshot prints, its members in that order. */
  const LOOP_HOLD: Value :=
    Obj([Field("schemaVersion", Int(1)), Field("mode", Str("hold")), Field("method", Str("setHold")),
         Field("payload", Obj([Field("reason", Str("hold"))]))])

  function LoopHold(): string { JsContent(Encode(LOOP_HOLD, COMPACT_STYLE)) }

  /** What the loops write for a screen. */
  function ScreenText(s: Screen): Option<string> {
    match s
    case Showing(item) => Some(LoopContent(item))
    case OnHold => Some(LoopHold())
    case Other => None
  }

  /** The file holds what this screen shows; of a torn file, or another writer's, nothing is said. */
  predicate FileShows(file: Option<seq<Utf8.Byte>>, s: Screen) {
    ScreenText(s).Some? ==> file == Some(Utf8.Encode(ScreenText(s).value))
  }

  lemma HoldIsNoItem(item: Item)
    ensures LoopContent(item) != LoopHold()
  {
    SameContent(Encode(LoopValue(item), COMPACT_STYLE), Encode(LOOP_HOLD, COMPACT_STYLE));
    assert LoopValue(item).fields[0].key == "method" && LOOP_HOLD.fields[0].key == "schemaVersion";
    assert |"method"| == 6 && |"schemaVersion"| == 13;
    if Encode(LoopValue(item), COMPACT_STYLE) == Encode(LOOP_HOLD, COMPACT_STYLE) {
      EncodeInjective(LoopValue(item), LOOP_HOLD, COMPACT_STYLE);
    }
  }

  /** A file shows at most one text, and it can be decoded to it; a hold is never taken for an item. */
  lemma FileShowsOne(file: Option<seq<Utf8.Byte>>, s: Screen, t: Screen)
    requires FileShows(file, s) && FileShows(file, t) && !s.Other? && !t.Other?
    ensures file.Some? && Utf8.Decode(file.value) == ScreenText(s) == ScreenText(t)
    ensures s.OnHold? <==> t.OnHold?
  {
    Utf8.RoundTrip(ScreenText(s).value);
    Utf8.RoundTrip(ScreenText(t).value);
    if s.Showing? {
      HoldIsNoItem(s.item);
    }
    if t.Showing? {
      HoldIsNoItem(t.item);
    }
  }

  // ---------------------------------------------------------------- the writes of a trace

  /** The snapshot writes that got past making the directory. */
  function WritesOf(trace: seq<Effect>): seq<Effect> {
    if trace == [] then []
    else
      var e := trace[|trace| - 1];
      WritesOf(trace[..|trace| - 1]) + if e.SnapshotTried? && e.result != NoDirectory then [e] else []
  }

  lemma ScreenOfOneMore(before: Screen, ws: seq<Effect>, e: Effect)
    ensures ScreenAfter(before, ws + [e]) == ScreenStep(ScreenAfter(before, ws), e)
  {
    assert (ws + [e])[..|ws|] == ws;
  }

  lemma {:induction false} OnlyWritesCount(before: Screen, trace: seq<Effect>)
    ensures ScreenAfter(before, WritesOf(trace)) == ScreenAfter(before, trace)
  {
    if trace != [] {
      var n := |trace| - 1;
      OnlyWritesCount(before, trace[..n]);
      var e, ws := trace[n], WritesOf(trace[..n]);
      if e.SnapshotTried? && e.result != NoDirectory {
        ScreenOfOneMore(before, ws, e);
      } else {
        assert ws + [] == ws;
      }
    }
  }

  /** How the write of call i has gone, as far as anyone sees. */
  function OutcomeOf(s: A.State, i: nat): SnapshotWrite
    requires i < |s.writers|
  {
    if i !in s.installs then Lost
    else if s.writers[i].wrote == |s.writers[i].content| then Installed
    else Truncated
  }

  /** The calls are those of these writes, in order, and have gone so far as these say. */
  predicate Performed(writes: seq<Effect>, s: A.State) {
    && |s.writers| == |writes|
    && forall i | 0 <= i < |writes| ::
         && writes[i].SnapshotTried? && ScreenText(writes[i].content).Some?
         && s.writers[i].content == Utf8.Encode(ScreenText(writes[i].content).value)
         && writes[i].result == OutcomeOf(s, i)
  }

  /** One thread: the calls take their steps one after another. */
  predicate InOrder(schedule: seq<A.Move>) {
    forall j, k | 0 <= j < k < |schedule| :: schedule[j].call <= schedule[k].call
  }

  // ---------------------------------------------------------------- the last installation

  predicate Increasing(xs: seq<nat>) { forall i, j | 0 <= i < j < |xs| :: xs[i] < xs[j] }

  lemma InstalledIsFinished(s: A.State, i: nat)
    requires A.InstallsOk(s)
    ensures i in s.installs ==> i < |s.writers| && A.Finished(s.writers[i].phase)
  {
  }

  lemma StepInstallsAtMostIts(s: A.State, i: nat, a: A.Action)
    requires A.Inv(s) && A.Step(s, i, a).Some?
    ensures
      var t := A.Step(s, i, a).value;
      t.installs == s.installs || (t.installs == s.installs + [i] && i !in s.installs)
  {
    InstalledIsFinished(s, i);
  }

  lemma {:induction false} InstallsIncrease(states: seq<A.State>, schedule: seq<A.Move>, k: nat)
    requires A.IsRun(states, schedule) && InOrder(schedule) && k < |states|
    ensures Increasing(states[k].installs)
    ensures forall i | i in states[k].installs :: k > 0 && i <= schedule[k - 1].call
  {
    if k > 0 {
      InstallsIncrease(states, schedule, k - 1);
      A.RunKeepsInv(states, schedule, k - 1);
      A.RunStep(states, schedule, k - 1);
      StepInstallsAtMostIts(states[k - 1], schedule[k - 1].call, schedule[k - 1].action);
      if states[k].installs != states[k - 1].installs {
        Appended(states[k - 1].installs, schedule[k - 1].call, if k > 1 then schedule[k - 2].call else 0);
      }
    }
  }

  lemma Appended(xs: seq<nat>, x: nat, bound: nat)
    requires Increasing(xs) && (forall i | i in xs :: i <= bound) && bound <= x && x !in xs
    ensures Increasing(xs + [x])
  {
    forall i | 0 <= i < |xs| ensures xs[i] < x {
      assert xs[i] in xs;
    }
  }

  lemma NothingLater(xs: seq<nat>, i: nat)
    requires Increasing(xs) && xs != [] && i > xs[|xs| - 1]
    ensures i !in xs
  {
  }

  /** Whatever relation between files and screens the calls establish by whole writes, the file is in it. */
  lemma LastWriteDecides(shows: (Option<seq<Utf8.Byte>>, Screen) -> bool, before: Screen, writes: seq<Effect>,
                         s: A.State)
    requires |writes| == |s.writers| && Increasing(s.installs) && A.Inv(s) && shows(s.base, before)
    requires forall i | 0 <= i < |writes| :: writes[i].SnapshotTried? && writes[i].result == OutcomeOf(s, i)
    requires forall i | 0 <= i < |writes| :: shows(Some(s.writers[i].content), writes[i].content)
    requires forall file :: shows(file, Other)
    ensures shows(s.dst, ScreenAfter(before, writes))
  {
    if s.installs == [] {
      ScreenUnchanged(before, writes);
    } else {
      var last := s.installs[|s.installs| - 1];
      assert last in s.installs;
      forall j | last < j < |writes| ensures !Changes(writes[j]) {
        NothingLater(s.installs, j);
      }
      ScreenIsLastInstalled(before, writes, last);
      WholeWrite(s.writers[last]);
    }
  }

  lemma WholeWrite(w: A.Writer)
    ensures w.wrote == |w.content| ==> A.Sent(w) == w.content
  {
  }

  /**
   * The screen is the file: in every state of every run of a loop's snapshot writes, with every way
   * in which their steps can fail and short writes among them, the destination holds what the
   * loop's screen shows, if every write counts as installed, truncated or lost as it has gone.
   */
  lemma ScreenIsDestination(trace: seq<Effect>, states: seq<A.State>, schedule: seq<A.Move>, k: nat, before: Screen)
    requires A.IsRun(states, schedule) && InOrder(schedule) && k < |states|
    requires Performed(WritesOf(trace), states[k]) && FileShows(states[0].dst, before)
    ensures FileShows(states[k].dst, ScreenAfter(before, trace))
  {
    A.RunKeepsInv(states, schedule, k);
    InstallsIncrease(states, schedule, k);
    OnlyWritesCount(before, trace);
    LastWriteDecides(FileShows, before, WritesOf(trace), states[k]);
  }

  /** So at a PoP attempt of a daemon run whose turn's write was installed, the file shows the item. */
  lemma AttemptFileShowsItem(cfg: D.Config, rounds: seq<D.Round>, n: nat, i: nat, states: seq<A.State>,
                             schedule: seq<A.Move>, k: nat, before: Screen)
    requires DR.AllReal(rounds) && n <= |rounds| && A.IsRun(states, schedule) && InOrder(schedule) && k < |states|
    requires i < |Effects(D.Outcomes(cfg, rounds)[..n])| && Effects(D.Outcomes(cfg, rounds)[..n])[i].PopTried?
    requires Performed(WritesOf(Effects(D.Outcomes(cfg, rounds)[..n])[..i]), states[k])
    requires FileShows(states[0].dst, before)
    ensures i >= 4
    ensures
      var turn := Effects(D.Outcomes(cfg, rounds)[..n])[i - 3];
      && turn.SnapshotTried? && turn.content.Showing?
      && (turn.result.Installed? ==> states[k].dst == Some(Utf8.Encode(LoopContent(turn.content.item))))
  {
    var trace := Effects(D.Outcomes(cfg, rounds)[..n]);
    DR.AttemptScreenExactly(cfg, rounds, n, before, i);
    ScreenIsDestination(trace[..i], states, schedule, k, before);
  }

  /** And at one of a loop run. */
  lemma LoopAttemptFileShowsItem(confirm: bool, items: seq<Item>, turns: nat -> L.Turnover, n: nat, i: nat,
                                 states: seq<A.State>, schedule: seq<A.Move>, k: nat, before: Screen)
    requires items != [] && LR.AllRealTurns(turns, n)
    requires A.IsRun(states, schedule) && InOrder(schedule) && k < |states|
    requires i < |Effects(L.LoopOutcomes(confirm, items, turns, n))|
    requires Effects(L.LoopOutcomes(confirm, items, turns, n))[i].PopTried?
    requires Performed(WritesOf(Effects(L.LoopOutcomes(confirm, items, turns, n))[..i]), states[k])
    requires FileShows(states[0].dst, before)
    ensures i >= 4
    ensures
      var turn := Effects(L.LoopOutcomes(confirm, items, turns, n))[i - 3];
      && turn.SnapshotTried? && turn.content.Showing?
      && (turn.result.Installed? ==> states[k].dst == Some(Utf8.Encode(LoopContent(turn.content.item))))
  {
    var trace := Effects(L.LoopOutcomes(confirm, items, turns, n));
    LR.LoopAttemptScreenExactly(confirm, items, turns, n, before, i);
    ScreenIsDestination(trace[..i], states, schedule, k, before);
  }
}
