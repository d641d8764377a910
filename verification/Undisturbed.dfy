// Rounds of the daemon in which nothing changes and nothing goes wrong.

module Undisturbed {
  import opened Daemon
  import opened DaemonRuns
  import opened Gate
  import opened Playlist
  import opened Runtime
  import opened Text

  const CONFIRMED := Config(30, true, None, 3)

  /** A round in which nothing changes and nothing goes wrong. */
  function GoodRound(playlist: PlayerPlaylist, gate: GateResult, started: string, created: string): Round {
    Round(NoStop, Got(playlist), Got(gate), Installed, true, Got(gate), PopInput(Got(playlist), started, created))
  }

  function GoodRounds(playlist: PlayerPlaylist, gate: GateResult, started: string, created: string, n: nat):
      (rounds: seq<Round>)
    ensures |rounds| == n && forall j | 0 <= j < n :: rounds[j] == GoodRound(playlist, gate, started, created)
  {
    seq(n, j => GoodRound(playlist, gate, started, created))
  }

  lemma {:induction false} CountAll<T>(xs: seq<T>, x: T)
    requires forall i | 0 <= i < |xs| :: xs[i] == x
    ensures Count(xs, x) == |xs|
  {
    if xs != [] {
      CountAll(xs[..|xs| - 1], x);
    }
  }

  /** Every one of these rounds displays an item and counts a PoP. */
  lemma GoodRoundsAreCounted(playlist: PlayerPlaylist, gate: GateResult, started: string, created: string, n: nat)
    requires WellBuilt(playlist) && HasItems(Got(playlist)) && Sane(gate) && gate.action == Play
    ensures
      var rounds := GoodRounds(playlist, gate, started, created, n);
      && AllReal(rounds) && (forall j | 0 <= j < n :: Displays(rounds[j]))
      && Tally(Statuses(Outcomes(CONFIRMED, rounds)[..n])).pops == n
  {
    var rounds := GoodRounds(playlist, gate, started, created, n);
    var s := Statuses(Outcomes(CONFIRMED, rounds)[..n]);
    forall j | 0 <= j < n ensures Real(rounds[j]) && Displays(rounds[j]) && s[j] == RenderedWithPop {
      OutcomeAt(CONFIRMED, rounds, j);
      CycleExactly(CONFIRMED, rounds[j], j);
    }
    CountAll(s, RenderedWithPop);
    RunAccounting(CONFIRMED, rounds, n);
  }
}
