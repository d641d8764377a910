// The tmp-then-replace writers of runtime_snapshot_writer.py and runtime_loop.py, as interleaved
// steps of any number of calls that each make their own temporary file.

module AtomicWrite {
  import opened Text
  import opened Utf8

  datatype Phase =
    | Begin
    | Made         // mkstemp succeeded; before os.write
    | Wrote        // os.write returned; before os.fsync
    | Synced       // before os.close
    | Closed       // before os.replace
    | Cleaning     // os.write or os.fsync raised; before close and unlink
    | Installed    // replaced; before the directory is synced
    | Done(ok: bool)
    | Dead

  /** One call: its content, its temporary file, and how many bytes its one os.write took. */
  datatype Writer = Writer(content: seq<Byte>, phase: Phase, tmp: nat, wrote: nat)

  /** The destination, the temporary files by name, and the calls that have replaced the destination, in order. */
  datatype State = State(base: Option<seq<Byte>>, dst: Option<seq<Byte>>, temps: map<nat, seq<Byte>>,
                         writers: seq<Writer>, installs: seq<nat>)

  /** A step and how it goes: Write(None) raises, Write(Some(n)) writes n bytes, and nobody looks at n. */
  datatype Action =
    | MakeTemp(name: Option<nat>)
    | Write(count: Option<nat>)
    | Sync(ok: bool)
    | Close(ok: bool)
    | Replace(ok: bool)
    | CleanUp(unlinked: bool)
    | Report
    | Crash

  /** The call owns a temporary file that exists. */
  predicate Owns(p: Phase) { p.Made? || p.Wrote? || p.Synced? || p.Closed? || p.Cleaning? }

  /** What a step does to its call and to the temporary files, and what it installs at the destination. */
  datatype Effect = Effect(writer: Writer, temps: map<nat, seq<Byte>>, installed: Option<seq<Byte>>)

  function Only(w: Writer, phase: Phase, temps: map<nat, seq<Byte>>): Option<Effect> {
    Some(Effect(w.(phase := phase), temps, None))
  }

  /** One step of one call; None if it is not the call's next step. */
  function Local(w: Writer, temps: map<nat, seq<Byte>>, a: Action): Option<Effect> {
    match (w.phase, a)
    case (Begin, MakeTemp(None)) => Only(w, Done(false), temps)
    case (Begin, MakeTemp(Some(name))) =>
      if name in temps then None else Some(Effect(w.(phase := Made, tmp := name), temps[name := []], None))
    case (Made, Write(None)) => Only(w, Cleaning, temps)
    case (Made, Write(Some(n))) =>
      if n > |w.content| then None
      else Some(Effect(w.(phase := Wrote, wrote := n), temps[w.tmp := w.content[..n]], None))
    case (Wrote, Sync(ok)) => Only(w, if ok then Synced else Cleaning, temps)
    case (Synced, Close(ok)) => Only(w, if ok then Closed else Done(false), temps)
    case (Closed, Replace(ok)) =>
      if !ok then Only(w, Done(false), temps)
      else if w.tmp !in temps then None
      else Some(Effect(w.(phase := Installed), temps - {w.tmp}, Some(temps[w.tmp])))
    case (Cleaning, CleanUp(unlinked)) => Only(w, Done(false), if unlinked then temps - {w.tmp} else temps)
    case (Installed, Report) => Only(w, Done(true), temps)
    case (_, Crash) => if w.phase.Done? || w.phase.Dead? then None else Only(w, Dead, temps)
    case _ => None
  }

  function Apply(s: State, i: nat, e: Effect): State
    requires i < |s.writers|
  {
    State(s.base, if e.installed.Some? then e.installed else s.dst, e.temps, s.writers[i := e.writer],
          if e.installed.Some? then s.installs + [i] else s.installs)
  }

  function Step(s: State, i: nat, a: Action): Option<State> {
    if i >= |s.writers| then None
    else
      match Local(s.writers[i], s.temps, a)
      case None => None
      case Some(e) => Some(Apply(s, i, e))
  }

  /** Any destination, any temporary files left by earlier crashes, and calls that have not begun. */
  predicate Init(s: State) {
    && s.dst == s.base && s.installs == []
    && forall i | 0 <= i < |s.writers| :: s.writers[i].phase == Begin && s.writers[i].wrote == 0
  }

  datatype Move = Move(call: nat, action: Action)

  predicate IsRun(states: seq<State>, schedule: seq<Move>) {
    && |states| == |schedule| + 1 && Init(states[0])
    && forall k | 0 <= k < |schedule| :: Step(states[k], schedule[k].call, schedule[k].action) == Some(states[k + 1])
  }

  // ---------------------------------------------------------------- the invariant

  /** The bytes that a call has put into its temporary file. */
  function Sent(w: Writer): seq<Byte> { if w.wrote <= |w.content| then w.content[..w.wrote] else w.content }

  predicate WriterOk(w: Writer, temps: map<nat, seq<Byte>>) {
    && w.wrote <= |w.content|
    && (w.phase.Begin? || w.phase.Made? ==> w.wrote == 0)
    && (Owns(w.phase) ==> w.tmp in temps && temps[w.tmp] == Sent(w))
  }

  predicate WritersOk(s: State) { forall i | 0 <= i < |s.writers| :: WriterOk(s.writers[i], s.temps) }

  /** No two calls own the same temporary file. */
  predicate Apart(s: State) {
    forall i, j | 0 <= i < j < |s.writers| && Owns(s.writers[i].phase) && Owns(s.writers[j].phase) ::
      s.writers[i].tmp != s.writers[j].tmp
  }

  predicate Finished(p: Phase) { p.Installed? || p == Done(true) || p.Dead? }

  predicate InstallsOk(s: State) {
    && (forall k | 0 <= k < |s.installs| :: s.installs[k] < |s.writers| && Finished(s.writers[s.installs[k]].phase))
    && (forall i | 0 <= i < |s.writers| && (s.writers[i].phase.Installed? || s.writers[i].phase == Done(true)) ::
        i in s.installs)
  }

  /** What is at the destination: what was there, or what the last installing call had put into its file. */
  predicate DestinationOk(s: State)
    requires InstallsOk(s)
  {
    s.dst == if s.installs == [] then s.base else Some(Sent(s.writers[s.installs[|s.installs| - 1]]))
  }

  predicate Inv(s: State) { WritersOk(s) && Apart(s) && InstallsOk(s) && DestinationOk(s) }

  /** What a step of one call may do. */
  predicate Allowed(w: Writer, temps: map<nat, seq<Byte>>, e: Effect) {
    && WriterOk(e.writer, e.temps) && e.writer.content == w.content
    && (Finished(w.phase) ==> e.writer.wrote == w.wrote && Finished(e.writer.phase) && e.installed.None?)
    && ((e.writer.phase.Installed? || e.writer.phase == Done(true)) ==> Finished(w.phase) || e.installed.Some?)
    && (e.installed.Some? ==>
        e.installed.value == Sent(e.writer) && e.writer.wrote == w.wrote && w.phase.Closed? && Finished(e.writer.phase))
    && (w.phase.Dead? ==> !e.writer.phase.Installed? && !e.writer.phase.Done?)
    && (Owns(e.writer.phase) ==> if Owns(w.phase) then e.writer.tmp == w.tmp else e.writer.tmp !in temps)
    && (forall name | name in temps && !(Owns(w.phase) && name == w.tmp) ::
        name in e.temps && e.temps[name] == temps[name])
  }

  lemma LocalIsAllowed(w: Writer, temps: map<nat, seq<Byte>>, a: Action)
    requires WriterOk(w, temps) && Local(w, temps, a).Some?
    ensures Allowed(w, temps, Local(w, temps, a).value)
  {
  }

  lemma ApplyKeepsFiles(s: State, i: nat, e: Effect)
    requires i < |s.writers| && WritersOk(s) && Apart(s) && Allowed(s.writers[i], s.temps, e)
    ensures WritersOk(Apply(s, i, e)) && Apart(Apply(s, i, e))
  {
    var t := Apply(s, i, e);
    forall j | 0 <= j < |t.writers| ensures WriterOk(t.writers[j], t.temps) {
      assert WriterOk(s.writers[j], s.temps);
      assert WriterOk(s.writers[i], s.temps);
    }
    forall j | 0 <= j < |t.writers| && j != i && Owns(t.writers[j].phase) && Owns(t.writers[i].phase)
      ensures t.writers[j].tmp != t.writers[i].tmp
    {
      assert WriterOk(s.writers[j], s.temps);
    }
  }

  lemma ApplyKeepsInstalls(s: State, i: nat, e: Effect)
    requires i < |s.writers| && Inv(s) && Allowed(s.writers[i], s.temps, e) && WritersOk(Apply(s, i, e))
    ensures InstallsOk(Apply(s, i, e)) && DestinationOk(Apply(s, i, e))
  {
    var t := Apply(s, i, e);
    if e.installed.Some? {
      assert t.installs[|s.installs|] == i;
    }
    forall j | 0 <= j < |t.writers| && (t.writers[j].phase.Installed? || t.writers[j].phase == Done(true))
      ensures j in t.installs
    {
      assert j in s.installs || (j == i && e.installed.Some?);
    }
    if e.installed.None? && s.installs != [] {
      var last := s.installs[|s.installs| - 1];
      assert Sent(t.writers[last]) == Sent(s.writers[last]);
    }
  }

  /** What one step keeps, and what it may change: the destination changes at once, to what one call had written. */
  lemma StepKeepsInv(s: State, i: nat, a: Action)
    requires Inv(s) && Step(s, i, a).Some?
    ensures
      var t := Step(s, i, a).value;
      && Inv(t) && t.base == s.base && |t.writers| == |s.writers|
      && (forall j | 0 <= j < |s.writers| :: t.writers[j].content == s.writers[j].content)
      && (t.dst != s.dst ==> s.writers[i].phase.Closed? && t.dst == Some(Sent(s.writers[i])))
  {
    assert WriterOk(s.writers[i], s.temps);
    LocalIsAllowed(s.writers[i], s.temps, a);
    var e := Local(s.writers[i], s.temps, a).value;
    ApplyKeepsFiles(s, i, e);
    ApplyKeepsInstalls(s, i, e);
  }

  // ---------------------------------------------------------------- whole runs

  lemma RunStep(states: seq<State>, schedule: seq<Move>, k: nat)
    requires IsRun(states, schedule) && k < |schedule|
    ensures Step(states[k], schedule[k].call, schedule[k].action) == Some(states[k + 1])
  {
  }

  lemma {:induction false} RunKeepsInv(states: seq<State>, schedule: seq<Move>, k: nat)
    requires IsRun(states, schedule) && k < |states|
    ensures Inv(states[k]) && states[k].base == states[0].base && |states[k].writers| == |states[0].writers|
    ensures forall i | 0 <= i < |states[0].writers| :: states[k].writers[i].content == states[0].writers[i].content
  {
    if k > 0 {
      RunKeepsInv(states, schedule, k - 1);
      RunStep(states, schedule, k - 1);
      StepKeepsInv(states[k - 1], schedule[k - 1].call, schedule[k - 1].action);
    }
  }

  /** The destination holds the whole content of the call that installed it last, or what was there at first. */
  predicate Whole(s: State) {
    s.dst == s.base || exists i | 0 <= i < |s.writers| :: i in s.installs && s.dst == Some(s.writers[i].content)
  }

  /**
   * At every moment of every run the destination holds what was there at first, or a prefix of one
   * call's content: the part that its single os.write took. It is that call's whole content exactly
   * when that write was not short; short writes apart, nothing partial is ever seen.
   */
  lemma DestinationIsOneCallsContent(states: seq<State>, schedule: seq<Move>, k: nat)
    requires IsRun(states, schedule) && k < |states|
    ensures Inv(states[k])
    ensures
      var s := states[k];
      if s.installs == [] then s.dst == states[0].base
      else
        var w := s.writers[s.installs[|s.installs| - 1]];
        && s.dst.Some? && s.dst.value <= w.content && (s.dst == Some(w.content) <==> w.wrote == |w.content|)
    ensures (forall i | 0 <= i < |states[k].writers| && i in states[k].installs ::
               states[k].writers[i].wrote == |states[k].writers[i].content|) ==> Whole(states[k])
  {
    RunKeepsInv(states, schedule, k);
    var s := states[k];
    if s.installs != [] {
      var i := s.installs[|s.installs| - 1];
      var w := s.writers[i];
      assert WriterOk(w, s.temps);
      assert w.wrote == |w.content| ==> Sent(w) == w.content;
      assert |Sent(w)| == w.wrote;
    }
  }

  lemma StepInstalls(s: State, i: nat, a: Action, j: nat)
    requires Inv(s) && Step(s, i, a).Some? && j in Step(s, i, a).value.installs
    ensures
      var t := Step(s, i, a).value;
      && j < |s.writers|
      && if j in s.installs then Sent(t.writers[j]) == Sent(s.writers[j])
         else j == i && a == Replace(true) && t.dst == Some(Sent(t.writers[j]))
  {
    assert WriterOk(s.writers[i], s.temps);
    LocalIsAllowed(s.writers[i], s.temps, a);
  }

  /** A call that installed did so by one replacement of the destination, by what it had written. */
  lemma {:induction false} InstalledOnce(states: seq<State>, schedule: seq<Move>, k: nat, i: nat) returns (j: nat)
    requires IsRun(states, schedule) && k < |states| && i in states[k].installs
    ensures j < k && i < |states[k].writers|
    ensures schedule[j] == Move(i, Replace(true)) && states[j + 1].dst == Some(Sent(states[k].writers[i]))
  {
    assert k > 0;
    RunKeepsInv(states, schedule, k - 1);
    RunStep(states, schedule, k - 1);
    StepInstalls(states[k - 1], schedule[k - 1].call, schedule[k - 1].action, i);
    if i in states[k - 1].installs {
      j := InstalledOnce(states, schedule, k - 1, i);
    } else {
      j := k - 1;
    }
  }

  /**
   * A call that reports success did replace the destination, by its whole content if its write was
   * not short; and none that reports failure did.
   */
  lemma SuccessIsInstalled(states: seq<State>, schedule: seq<Move>, k: nat, i: nat)
    requires IsRun(states, schedule) && k < |states| && i < |states[k].writers|
    ensures states[k].writers[i].phase == Done(false) ==> i !in states[k].installs
    ensures states[k].writers[i].phase == Done(true) ==>
      exists j | 0 <= j < k ::
        && schedule[j] == Move(i, Replace(true))
        && states[j + 1].dst == Some(Sent(states[k].writers[i]))
        && (states[k].writers[i].wrote == |states[k].writers[i].content| ==>
            states[j + 1].dst == Some(states[k].writers[i].content))
  {
    RunKeepsInv(states, schedule, k);
    if states[k].writers[i].phase == Done(true) {
      var j := InstalledOnce(states, schedule, k, i);
      var w := states[k].writers[i];
      assert w.wrote == |w.content| ==> Sent(w) == w.content;
      assert schedule[j] == Move(i, Replace(true));
    }
  }

  // ---------------------------------------------------------------- the short write

  function Exec(s: State, i: nat, actions: seq<Action>): Option<State>
    decreases |actions|
  {
    if actions == [] then Some(s)
    else
      match Step(s, i, actions[0])
      case None => None
      case Some(t) => Exec(t, i, actions[1..])
  }

  /** The state of a call that is alone. */
  function Lone(w: Writer, dst: Option<seq<Byte>>, temps: map<nat, seq<Byte>>, installs: seq<nat>): State {
    State(None, dst, temps, [w], installs)
  }

  lemma LoneStep(w: Writer, dst: Option<seq<Byte>>, temps: map<nat, seq<Byte>>, a: Action, rest: seq<Action>)
    requires Local(w, temps, a).Some?
    ensures
      var e := Local(w, temps, a).value;
      var end :=
        if e.installed.Some? then Lone(e.writer, e.installed, e.temps, [0]) else Lone(e.writer, dst, e.temps, []);
      Exec(Lone(w, dst, temps, []), 0, [a] + rest) == Exec(end, 0, rest)
  {
    var e := Local(w, temps, a).value;
    var none: seq<nat> := [];
    assert none + [0] == [0];
    assert [w][0 := e.writer] == [e.writer];
    assert ([a] + rest)[1..] == rest;
  }

  /** A call on its own whose write takes n bytes, and whose other steps succeed. */
  function LoneCall(content: seq<Byte>, n: nat): Option<State> {
    Exec(Lone(Writer(content, Begin, 0, 0), None, map[], []), 0,
         [MakeTemp(Some(0))] + ([Write(Some(n))] + ([Sync(true)] + Finishing())))
  }

  function Finishing(): seq<Action> { [Close(true)] + ([Replace(true)] + [Report]) }

  /** One short write is enough to install a truncated file and report success. */
  lemma ShortWriteIsInstalled(content: seq<Byte>, n: nat)
    requires n <= |content|
    ensures LoneCall(content, n) == Some(Lone(Writer(content, Done(true), 0, n), Some(content[..n]), map[], [0]))
    ensures n < |content| ==> content[..n] != content
  {
    var w, temps := Writer(content, Begin, 0, 0), map[0 := content[..n]];
    assert map[0 := []][0 := content[..n]] == temps && temps - {0} == map[];
    LoneStep(w, None, map[], MakeTemp(Some(0)), [Write(Some(n))] + ([Sync(true)] + Finishing()));
    LoneStep(w.(phase := Made), None, map[0 := []], Write(Some(n)), [Sync(true)] + Finishing());
    LoneStep(w.(phase := Wrote, wrote := n), None, temps, Sync(true), Finishing());
    LoneStep(w.(phase := Synced, wrote := n), None, temps, Close(true), [Replace(true)] + [Report]);
    LoneStep(w.(phase := Closed, wrote := n), None, temps, Replace(true), [Report]);
    ReportAlone(w.(phase := Installed, wrote := n), Some(content[..n]));
  }

  lemma ReportAlone(w: Writer, dst: Option<seq<Byte>>)
    requires w.phase.Installed?
    ensures Exec(Lone(w, dst, map[], [0]), 0, [Report]) == Some(Lone(w.(phase := Done(true)), dst, map[], [0]))
  {
    assert [w][0 := w.(phase := Done(true))] == [w.(phase := Done(true))];
    assert [Report][1..] == [];
  }

  // ---------------------------------------------------------------- failing steps

  /** Every failure ends a call without success, and only a call whose steps all succeeded reports it. */
  lemma FailureEndsExactly(w: Writer, temps: map<nat, seq<Byte>>, a: Action)
    requires Local(w, temps, a).Some?
    ensures
      var p := Local(w, temps, a).value.writer.phase;
      && (p == Done(false) <==> a == MakeTemp(None) || a == Close(false) || a == Replace(false) || a.CleanUp?)
      && (p == Cleaning <==> a == Write(None) || a == Sync(false))
      && (p == Installed <==> a == Replace(true)) && (p == Done(true) <==> a == Report) && (p == Dead <==> a == Crash)
      && (p == Made <==> a.MakeTemp? && a.name.Some?) && (p == Wrote <==> a.Write? && a.count.Some?)
      && (p == Synced <==> a == Sync(true)) && (p == Closed <==> a == Close(true))
  {
  }

  /** The steps come in this order. */
  lemma StepsInOrder(w: Writer, temps: map<nat, seq<Byte>>, a: Action)
    requires Local(w, temps, a).Some? && !a.Crash?
    ensures (a.MakeTemp? <==> w.phase == Begin) && (a.Write? <==> w.phase == Made) && (a.Sync? <==> w.phase == Wrote)
    ensures (a.Close? <==> w.phase == Synced) && (a.Replace? <==> w.phase == Closed)
    ensures (a.CleanUp? <==> w.phase == Cleaning) && (a.Report? <==> w.phase == Installed)
  {
  }

  /** Which steps take a temporary file away: a replacement, and a clean-up that does not fail. */
  lemma TempGoesExactly(w: Writer, temps: map<nat, seq<Byte>>, a: Action)
    requires WriterOk(w, temps) && Owns(w.phase) && Local(w, temps, a).Some?
    ensures w.tmp !in Local(w, temps, a).value.temps <==> a == Replace(true) || a == CleanUp(true)
  {
  }
}
