// A loop's PoP attempts as calls of the log protocol, among the calls of any other processes: how
// many lines of the log they account for.

module LoopLog {
  import opened LogFinds
  import opened PopRecord
  import opened PopRuns
  import opened Runtime
  import D = Daemon
  import DR = DaemonRuns
  import L = Loop
  import LR = LoopRuns
  import P = PopLock
  import Playlist

  /** The record of one effect that gets to the lock, if any. */
  function RecordIn(e: Effect): seq<Record> {
    if !e.PopTried? then []
    else
      match RecordFor(e.state, e.pop)
      case None => []
      case Some(r) => [r]
  }

  /** The records of a trace that get to the lock, in order. */
  function RecordsOf(trace: seq<Effect>): seq<Record> {
    if trace == [] then [] else RecordsOf(trace[..|trace| - 1]) + RecordIn(trace[|trace| - 1])
  }

  /** Every attempt has a record that gets to the lock. */
  predicate AllRecorded(trace: seq<Effect>) {
    forall i | 0 <= i < |trace| && trace[i].PopTried? :: |RecordIn(trace[i])| == 1
  }

  lemma AtMostOneRecord(e: Effect)
    ensures |RecordIn(e)| <= if e.PopTried? then 1 else 0
  {
  }

  lemma AllRecordedStep(trace: seq<Effect>, n: nat)
    requires |trace| == n + 1
    ensures AllRecorded(trace) <==> AllRecorded(trace[..n]) && (trace[n].PopTried? ==> |RecordIn(trace[n])| == 1)
  {
    if AllRecorded(trace) {
      assert forall i | 0 <= i < n :: trace[..n][i] == trace[i];
    }
  }

  lemma {:induction false} RecordsAtMostPops(trace: seq<Effect>)
    ensures |RecordsOf(trace)| <= Pops(trace)
    ensures |RecordsOf(trace)| == Pops(trace) <==> AllRecorded(trace)
  {
    if trace != [] {
      var n := |trace| - 1;
      RecordsAtMostPops(trace[..n]);
      AtMostOneRecord(trace[n]);
      AllRecordedStep(trace, n);
    }
  }

  predicate Distinct(xs: seq<nat>) { forall i, j | 0 <= i < j < |xs| :: xs[i] != xs[j] }

  /** Each record is carried by a call of its own. */
  predicate CarriedBy(writers: seq<P.Writer>, calls: seq<nat>, records: seq<Record>) {
    && |calls| == |records| && Distinct(calls)
    && forall i | 0 <= i < |calls| :: calls[i] < |writers| && writers[calls[i]].line == LineBytes(records[i])
  }

  /** How many of the listed lines are those of these calls. */
  function LinesBy(full: seq<nat>, calls: seq<nat>): nat {
    if full == [] then 0 else LinesBy(full[..|full| - 1], calls) + if full[|full| - 1] in calls then 1 else 0
  }

  function Members(xs: seq<nat>): set<nat> { set x | x in xs }

  lemma {:induction false} DistinctSize(xs: seq<nat>)
    requires Distinct(xs)
    ensures |Members(xs)| == |xs|
  {
    if xs != [] {
      var n := |xs| - 1;
      DistinctSize(xs[..n]);
      assert Members(xs) == Members(xs[..n]) + {xs[n]};
    }
  }

  lemma {:induction false} LinesAreCommon(full: seq<nat>, calls: seq<nat>)
    requires Distinct(full)
    ensures LinesBy(full, calls) == |Members(full) * Members(calls)|
  {
    if full != [] {
      var n := |full| - 1;
      LinesAreCommon(full[..n], calls);
      var common := Members(full[..n]) * Members(calls);
      assert full[n] !in Members(full[..n]);
      if full[n] in calls {
        assert Members(full) * Members(calls) == common + {full[n]};
      } else {
        assert Members(full) * Members(calls) == common;
      }
    }
  }

  lemma {:induction false} SubsetSize(a: set<nat>, b: set<nat>)
    requires a <= b
    ensures |a| <= |b| && (|a| == |b| <==> a == b)
    decreases b
  {
    if b != {} {
      var x :| x in b;
      SubsetSize(a - {x}, b - {x});
      if x in a {
        assert a == (a - {x}) + {x} && b == (b - {x}) + {x};
      } else {
        assert a == a - {x};
      }
    }
  }

  lemma LinesAtMostCalls(full: seq<nat>, calls: seq<nat>)
    requires Distinct(full) && Distinct(calls)
    ensures LinesBy(full, calls) <= |calls|
    ensures LinesBy(full, calls) == |calls| <==> forall i | 0 <= i < |calls| :: calls[i] in full
  {
    LinesAreCommon(full, calls);
    DistinctSize(calls);
    SubsetSize(Members(full) * Members(calls), Members(calls));
    if forall i | 0 <= i < |calls| :: calls[i] in full {
      assert Members(full) * Members(calls) == Members(calls);
    }
    if Members(full) * Members(calls) == Members(calls) {
      forall i | 0 <= i < |calls| ensures calls[i] in full {
        assert calls[i] in Members(calls);
      }
    }
  }

  lemma {:induction false} AppendedDistinct(writers: seq<P.Writer>, turns: seq<nat>)
    requires forall k | 0 <= k < |turns| :: turns[k] < |writers|
    requires Distinct(turns)
    ensures Distinct(Appended(writers, turns))
  {
    if turns != [] {
      AppendedDistinct(writers, turns[1..]);
      AppendedExactly(writers, turns[1..], turns[0]);
      assert turns[0] !in turns[1..];
      Prepended(turns[0], Appended(writers, turns[1..]));
    }
  }

  lemma Prepended(x: nat, xs: seq<nat>)
    requires Distinct(xs) && x !in xs
    ensures Distinct([x] + xs)
  {
  }

  /** The calls among these whose records a reader of the log finds. */
  function FoundBy(s: P.State, calls: seq<nat>): set<nat>
    requires P.Inv(s)
  {
    set i | i in calls && Found(s, i)
  }

  /** Every attempt has a record, and a reader finds each: it was appended whole, behind no unfinished line. */
  predicate AllFound(trace: seq<Effect>, s: P.State, calls: seq<nat>)
    requires P.Inv(s)
  {
    && AllRecorded(trace)
    && forall i | 0 <= i < |calls| :: calls[i] in Appended(s.writers, s.turns) && ClearTurn(s, calls[i])
  }

  lemma FoundIsCommon(s: P.State, calls: seq<nat>)
    requires P.Inv(s)
    ensures FoundBy(s, calls) <= Members(Appended(s.writers, s.turns)) * Members(calls)
    ensures forall i | i in calls :: Found(s, i) <==> i in Appended(s.writers, s.turns) && ClearTurn(s, i)
  {
    forall i | i in calls ensures Found(s, i) <==> i in Appended(s.writers, s.turns) && ClearTurn(s, i) {
      FoundExactly(s, i);
    }
  }

  lemma FoundAtMostCalls(s: P.State, calls: seq<nat>)
    requires P.Inv(s) && Distinct(calls)
    ensures |FoundBy(s, calls)| <= LinesBy(Appended(s.writers, s.turns), calls) <= |calls|
    ensures |FoundBy(s, calls)| == |calls| <==>
      forall i | 0 <= i < |calls| :: calls[i] in Appended(s.writers, s.turns) && ClearTurn(s, calls[i])
  {
    var full := Appended(s.writers, s.turns);
    AppendedDistinct(s.writers, s.turns);
    LinesAtMostCalls(full, calls);
    LinesAreCommon(full, calls);
    DistinctSize(calls);
    FoundIsCommon(s, calls);
    SubsetSize(FoundBy(s, calls), Members(full) * Members(calls));
    SubsetSize(FoundBy(s, calls), Members(calls));
    FoundAll(s, calls);
  }

  lemma FoundAll(s: P.State, calls: seq<nat>)
    requires P.Inv(s)
    ensures FoundBy(s, calls) == Members(calls) <==> forall i | 0 <= i < |calls| :: Found(s, calls[i])
  {
    if FoundBy(s, calls) == Members(calls) {
      forall i | 0 <= i < |calls| ensures Found(s, calls[i]) {
        assert calls[i] in Members(calls);
      }
    }
  }

  /**
   * In every state of every run of the protocol, with any other calls in between, the records of a
   * loop's calls that a reader of the log finds are at most its PoP attempts; and as many exactly if
   * every attempt had a record that got to the lock, and each of these calls completed its append
   * behind no unfinished line.
   */
  lemma FoundAtMostAttempts(trace: seq<Effect>, states: seq<P.State>, schedule: seq<P.Move>, k: nat, calls: seq<nat>)
    requires P.IsRun(states, schedule) && k < |states| && CarriedBy(states[0].writers, calls, RecordsOf(trace))
    ensures P.Inv(states[k])
    ensures |FoundBy(states[k], calls)| <= LinesBy(Appended(states[k].writers, states[k].turns), calls) <= Pops(trace)
    ensures |FoundBy(states[k], calls)| == Pops(trace) <==> AllFound(trace, states[k], calls)
  {
    RunKeepsInv(states, schedule, k);
    FoundAtMostCalls(states[k], calls);
    RecordsAtMostPops(trace);
  }

  /** So the daemon's count of written PoPs is at least the records that a reader finds, and right exactly then. */
  lemma DaemonCountsExactly(cfg: D.Config, rounds: seq<D.Round>, n: nat,
                            states: seq<P.State>, schedule: seq<P.Move>, k: nat, calls: seq<nat>)
    requires DR.AllReal(rounds) && n <= |rounds| && P.IsRun(states, schedule) && k < |states|
    requires CarriedBy(states[0].writers, calls, RecordsOf(Effects(D.Outcomes(cfg, rounds)[..n])))
    ensures P.Inv(states[k])
    ensures
      var trace := Effects(D.Outcomes(cfg, rounds)[..n]);
      var c, found := Tally(Statuses(D.Outcomes(cfg, rounds)[..n])), |FoundBy(states[k], calls)|;
      found <= c.pops <= c.rendered && (found == c.pops <==> AllFound(trace, states[k], calls))
  {
    DR.PopsAreAttempts(cfg, rounds, n);
    FoundAtMostAttempts(Effects(D.Outcomes(cfg, rounds)[..n]), states, schedule, k, calls);
  }

  /** And so is the loop's. */
  lemma LoopCountsExactly(confirm: bool, items: seq<Playlist.Item>, turns: nat -> L.Turnover, n: nat,
                          states: seq<P.State>, schedule: seq<P.Move>, k: nat, calls: seq<nat>)
    requires items != [] && LR.AllRealTurns(turns, n) && P.IsRun(states, schedule) && k < |states|
    requires CarriedBy(states[0].writers, calls, RecordsOf(Effects(L.LoopOutcomes(confirm, items, turns, n))))
    ensures P.Inv(states[k])
    ensures
      var trace := Effects(L.LoopOutcomes(confirm, items, turns, n));
      var c, found := Tally(Statuses(L.LoopOutcomes(confirm, items, turns, n))), |FoundBy(states[k], calls)|;
      found <= c.pops <= c.rendered && (found == c.pops <==> AllFound(trace, states[k], calls))
  {
    LR.LoopAccounting(confirm, items, turns, n);
    FoundAtMostAttempts(Effects(L.LoopOutcomes(confirm, items, turns, n)), states, schedule, k, calls);
  }
}
