// atomic_io.py of the sidecar: tmp-then-replace with one fixed temporary name per target. A file
// is a name for an inode; writing goes to the inode that was opened, whatever its name is by then.

module FixedTemp {
  import opened Text
  import opened Utf8

  datatype Phase =
    | Begin
    | Opened       // tmp opened and truncated; the text reaches it piece by piece
    | Closed       // all of it written; before os.replace
    | Done(ok: bool)
    | Dead

  /** One call of atomic_write_json. */
  datatype Call = Call(content: seq<Byte>, phase: Phase, inode: nat, sent: nat)

  /**
   * The inodes of the target and of the temporary file, the inodes' contents, the calls, and the last
   * call to replace the target.
   */
  datatype State = State(
    target: Option<nat>, tmp: Option<nat>, data: seq<seq<Byte>>, calls: seq<Call>, last: Option<nat>)

  /** A replacement that fails removes the temporary file, if that does not fail, too. */
  datatype Action = Open(ok: bool) | Piece(n: nat) | Close(ok: bool) | Replace(ok: bool, unlinked: bool) | Crash

  datatype Move = Move(call: nat, action: Action)

  /** Writing p at an offset of a file. */
  function Overwrite(d: seq<Byte>, at: nat, p: seq<Byte>): seq<Byte> {
    if p == [] then d
    else if at > |d| then d + seq(at - |d|, _ => 0) + p
    else if at + |p| >= |d| then d[..at] + p
    else d[..at] + p + d[at + |p|..]
  }

  function Put(s: State, i: nat, c: Call): State
    requires i < |s.calls|
  {
    s.(calls := s.calls[i := c])
  }

  /** Opening for writing creates the file or truncates the inode that has its name. */
  function OpenTmp(s: State): State {
    if s.tmp.Some? && s.tmp.value < |s.data| then s.(data := s.data[s.tmp.value := []])
    else s.(tmp := Some(|s.data|), data := s.data + [[]])
  }

  function Step(s: State, i: nat, a: Action): Option<State> {
    if i >= |s.calls| then None
    else
      var c := s.calls[i];
      match (c.phase, a)
      case (Begin, Open(ok)) =>
        if !ok then Some(Put(s, i, c.(phase := Done(false))))
        else
          var t := OpenTmp(s);
          Some(Put(t, i, c.(phase := Opened, inode := t.tmp.value, sent := 0)))
      case (Opened, Piece(n)) =>
        if c.sent + n > |c.content| || c.inode >= |s.data| then None
        else
          var piece := c.content[c.sent..c.sent + n];
          Some(Put(s, i, c.(sent := c.sent + n)).(data := s.data[c.inode := Overwrite(s.data[c.inode], c.sent, piece)]))
      case (Opened, Close(ok)) =>
        if !ok then Some(Put(s, i, c.(phase := Done(false))))
        else if c.sent == |c.content| then Some(Put(s, i, c.(phase := Closed)))
        else None
      case (Closed, Replace(ok, unlinked)) =>
        if ok && s.tmp.Some? then
          Some(Put(s, i, c.(phase := Done(true))).(target := s.tmp, tmp := None, last := Some(i)))
        else if unlinked then Some(Put(s, i, c.(phase := Done(false))).(tmp := None))
        else Some(Put(s, i, c.(phase := Done(false))))
      case (_, Crash) => if c.phase.Done? || c.phase.Dead? then None else Some(Put(s, i, c.(phase := Dead)))
      case _ => None
  }

  function ContentOf(s: State): Option<seq<Byte>> {
    if s.target.Some? && s.target.value < |s.data| then Some(s.data[s.target.value]) else None
  }

  predicate Init(s: State) {
    && (s.target.Some? ==> s.target.value < |s.data|) && (s.tmp.Some? ==> s.tmp.value < |s.data|)
    && (s.target.Some? ==> s.target != s.tmp) && s.last.None?
    && forall i | 0 <= i < |s.calls| :: s.calls[i].phase == Begin
  }

  predicate IsRun(states: seq<State>, schedule: seq<Move>) {
    && |states| == |schedule| + 1 && Init(states[0])
    && forall k | 0 <= k < |schedule| :: Step(states[k], schedule[k].call, schedule[k].action) == Some(states[k + 1])
  }

  predicate Active(p: Phase) { p.Opened? || p.Closed? }

  /** At most one call is under way. */
  predicate OneAtATime(s: State) {
    forall i, j | 0 <= i < j < |s.calls| :: !(Active(s.calls[i].phase) && Active(s.calls[j].phase))
  }

  // ---------------------------------------------------------------- one writer

  predicate ActiveOk(s: State) {
    forall i | 0 <= i < |s.calls| && Active(s.calls[i].phase) ::
      var c := s.calls[i];
      && s.tmp == Some(c.inode) && c.inode < |s.data| && c.sent <= |c.content|
      && s.data[c.inode] == c.content[..c.sent] && (c.phase.Closed? ==> c.sent == |c.content|)
  }

  predicate NamesOk(s: State) {
    && (s.target.Some? ==> s.target.value < |s.data|) && (s.tmp.Some? ==> s.tmp.value < |s.data|)
    && (s.target.Some? ==> s.target != s.tmp)
  }

  /** The target is what it was at first, or the whole content of the last call that replaced it. */
  predicate TargetOk(s: State, base: Option<seq<Byte>>) {
    match s.last
    case None => ContentOf(s) == base
    case Some(i) => i < |s.calls| && s.calls[i].phase == Done(true) && ContentOf(s) == Some(s.calls[i].content)
  }

  predicate Inv(s: State, base: Option<seq<Byte>>) { NamesOk(s) && ActiveOk(s) && TargetOk(s, base) }

  lemma OverwriteAtEnd(d: seq<Byte>, p: seq<Byte>)
    ensures Overwrite(d, |d|, p) == d + p
  {
  }

  /** What a step of a lone writer keeps. */
  predicate Kept(s: State, i: nat, a: Action, t: State, base: Option<seq<Byte>>)
    requires i < |t.calls|
  {
    && Inv(t, base)
    && (t.calls[i].phase == Done(true) ==> ContentOf(t) == Some(t.calls[i].content))
    && (ContentOf(t) != ContentOf(s) ==> a.Replace? && a.ok)
  }

  lemma SameActive(s: State, i: nat, j: nat)
    requires OneAtATime(s) && i < |s.calls| && j < |s.calls| && Active(s.calls[i].phase) && Active(s.calls[j].phase)
    ensures i == j
  {
  }

  lemma OpenKeepsInv(s: State, i: nat, base: Option<seq<Byte>>)
    requires Inv(s, base) && Step(s, i, Open(true)).Some? && OneAtATime(Step(s, i, Open(true)).value)
    ensures Kept(s, i, Open(true), Step(s, i, Open(true)).value, base)
  {
    var t := Step(s, i, Open(true)).value;
    assert t.calls[i].content[..0] == [];
    forall j | 0 <= j < |t.calls| && Active(t.calls[j].phase) ensures j == i {
      SameActive(t, i, j);
    }
  }

  lemma PieceKeepsInv(s: State, i: nat, n: nat, base: Option<seq<Byte>>)
    requires Inv(s, base) && Step(s, i, Piece(n)).Some? && OneAtATime(s)
    ensures Kept(s, i, Piece(n), Step(s, i, Piece(n)).value, base)
  {
    var c := s.calls[i];
    OverwriteAtEnd(s.data[c.inode], c.content[c.sent..c.sent + n]);
    assert c.content[..c.sent] + c.content[c.sent..c.sent + n] == c.content[..c.sent + n];
  }

  lemma ReplaceKeepsInv(s: State, i: nat, a: Action, base: Option<seq<Byte>>)
    requires Inv(s, base) && a.Replace? && Step(s, i, a).Some? && OneAtATime(s)
    ensures Kept(s, i, a, Step(s, i, a).value, base)
  {
    var c := s.calls[i];
    assert c.content[..|c.content|] == c.content;
  }

  lemma PhaseKeepsInv(s: State, i: nat, p: Phase, a: Action, base: Option<seq<Byte>>)
    requires Inv(s, base) && i < |s.calls| && !s.calls[i].phase.Done? && p != Done(true) && !p.Opened?
    requires p.Closed? ==> s.calls[i].phase.Opened? && s.calls[i].sent == |s.calls[i].content|
    ensures Kept(s, i, a, Put(s, i, s.calls[i].(phase := p)), base)
  {
  }

  lemma OtherKeepsInv(s: State, i: nat, a: Action, base: Option<seq<Byte>>)
    requires Inv(s, base) && Step(s, i, a).Some? && (a == Open(false) || a.Close? || a.Crash?)
    ensures Kept(s, i, a, Step(s, i, a).value, base)
  {
    PhaseKeepsInv(s, i, Step(s, i, a).value.calls[i].phase, a, base);
  }

  lemma StepKeepsInv(s: State, i: nat, a: Action, base: Option<seq<Byte>>)
    requires Inv(s, base) && OneAtATime(s) && Step(s, i, a).Some? && OneAtATime(Step(s, i, a).value)
    ensures Kept(s, i, a, Step(s, i, a).value, base)
  {
    match a
    case Piece(n) => PieceKeepsInv(s, i, n, base);
    case Replace(_, _) => ReplaceKeepsInv(s, i, a, base);
    case Open(ok) => if ok { OpenKeepsInv(s, i, base); } else { OtherKeepsInv(s, i, a, base); }
    case _ => OtherKeepsInv(s, i, a, base);
  }

  /**
   * One writer: in every run in which calls, crashed ones included, never overlap, the target holds
   * what was there at first or the whole content of one call, and changes only when a call succeeds.
   */
  lemma {:induction false} OneWriterIsAtomic(states: seq<State>, schedule: seq<Move>, k: nat)
    requires IsRun(states, schedule) && k < |states| && forall j | 0 <= j < |states| :: OneAtATime(states[j])
    ensures Inv(states[k], ContentOf(states[0]))
    ensures ContentOf(states[k]) == ContentOf(states[0])
      || exists i | 0 <= i < |states[k].calls| ::
          states[k].calls[i].phase == Done(true) && ContentOf(states[k]) == Some(states[k].calls[i].content)
  {
    var base := ContentOf(states[0]);
    if k > 0 {
      OneWriterIsAtomic(states, schedule, k - 1);
      assert Step(states[k - 1], schedule[k - 1].call, schedule[k - 1].action) == Some(states[k]);
      StepKeepsInv(states[k - 1], schedule[k - 1].call, schedule[k - 1].action, base);
    }
  }

  /** A call that succeeds has installed its whole content. */
  lemma OneWriterInstalls(states: seq<State>, schedule: seq<Move>, k: nat)
    requires IsRun(states, schedule) && k < |schedule| && forall j | 0 <= j < |states| :: OneAtATime(states[j])
    ensures schedule[k].call < |states[k + 1].calls|
    ensures
      var c := states[k + 1].calls[schedule[k].call];
      if c.phase == Done(true) then ContentOf(states[k + 1]) == Some(c.content)
      else ContentOf(states[k + 1]) == ContentOf(states[k])
  {
    OneWriterIsAtomic(states, schedule, k);
    assert Step(states[k], schedule[k].call, schedule[k].action) == Some(states[k + 1]);
    StepKeepsInv(states[k], schedule[k].call, schedule[k].action, ContentOf(states[0]));
  }

  // ---------------------------------------------------------------- overlapping writers

  /** The temporary file is the one that call i opened, and holds what it has written so far. */
  predicate Intact(s: State, i: nat) {
    && i < |s.calls| && Active(s.calls[i].phase) && s.tmp == Some(s.calls[i].inode)
    && s.calls[i].inode < |s.data| && s.calls[i].sent <= |s.calls[i].content|
    && s.data[s.calls[i].inode] == s.calls[i].content[..s.calls[i].sent]
    && (s.calls[i].phase.Closed? ==> s.calls[i].sent == |s.calls[i].content|)
  }

  /** The piece is there already. */
  predicate SamePiece(d: seq<Byte>, at: nat, p: seq<Byte>) { p == [] || (at + |p| <= |d| && d[at..at + |p|] == p) }

  /**
   * Which steps of another call j do call i no harm: opening the file again before call i has put a
   * byte into it; writing to another file, nothing, or the very bytes that are there; and failing,
   * if the temporary file stays.
   */
  predicate Harmless(s: State, i: nat, j: nat, a: Action)
    requires i < |s.calls| && j < |s.calls|
  {
    match a
    case Open(ok) => !ok || s.calls[i].sent == 0
    case Piece(n) =>
      var c := s.calls[j];
      || c.inode != s.calls[i].inode
      || (c.sent + n <= |c.content| && c.inode < |s.data|
          && SamePiece(s.data[c.inode], c.sent, c.content[c.sent..c.sent + n]))
    case Replace(ok, unlinked) => !ok && !unlinked
    case Close(_) => true
    case Crash => true
  }

  lemma OverwriteSameExactly(d: seq<Byte>, at: nat, p: seq<Byte>)
    ensures Overwrite(d, at, p) == d <==> SamePiece(d, at, p)
  {
    if p != [] {
      var o := Overwrite(d, at, p);
      assert at <= |d| ==> o[at..at + |p|] == p;
      if at + |p| <= |d| && d[at..at + |p|] == p {
        assert d == d[..at] + d[at..at + |p|] + d[at + |p|..];
      }
    }
  }

  lemma OtherOpenExactly(s: State, i: nat, j: nat, ok: bool)
    requires Intact(s, i) && j != i && Step(s, j, Open(ok)).Some?
    ensures Intact(Step(s, j, Open(ok)).value, i) <==> !ok || s.calls[i].sent == 0
  {
    var c := s.calls[i];
    assert c.sent == 0 ==> c.content[..c.sent] == [];
    assert |c.content[..c.sent]| == c.sent;
  }

  lemma OtherFileExactly(s: State, i: nat, j: nat, c: Call, inode: nat, d: seq<Byte>)
    requires Intact(s, i) && j != i && j < |s.calls| && inode < |s.data|
    ensures Intact(Put(s, j, c).(data := s.data[inode := d]), i) <==> inode != s.calls[i].inode || d == s.data[inode]
  {
    assert s.calls[j := c][i] == s.calls[i];
  }

  lemma OtherPieceExactly(s: State, i: nat, j: nat, n: nat)
    requires Intact(s, i) && j != i && Step(s, j, Piece(n)).Some?
    ensures
      var c := s.calls[j];
      Intact(Step(s, j, Piece(n)).value, i) <==>
        c.inode != s.calls[i].inode || SamePiece(s.data[c.inode], c.sent, c.content[c.sent..c.sent + n])
  {
    var c := s.calls[j];
    var piece := c.content[c.sent..c.sent + n];
    OverwriteSameExactly(s.data[c.inode], c.sent, piece);
    OtherFileExactly(s, i, j, c.(sent := c.sent + n), c.inode, Overwrite(s.data[c.inode], c.sent, piece));
  }

  /** While a call is intact, a step of another call leaves it so exactly if it is one of the harmless ones. */
  lemma OtherStepKeepsExactly(s: State, i: nat, j: nat, a: Action)
    requires Intact(s, i) && j != i && Step(s, j, a).Some?
    ensures j < |s.calls| && (Intact(Step(s, j, a).value, i) <==> Harmless(s, i, j, a))
  {
    match a
    case Open(ok) => OtherOpenExactly(s, i, j, ok);
    case Piece(n) => OtherPieceExactly(s, i, j, n);
    case _ =>
  }

  /** The call has ended. */
  predicate Over(s: State, i: nat) { i < |s.calls| && (s.calls[i].phase.Done? || s.calls[i].phase.Dead?) }

  lemma OwnStep(s: State, i: nat, a: Action)
    requires Intact(s, i) && Step(s, i, a).Some?
    ensures Intact(Step(s, i, a).value, i) || Over(Step(s, i, a).value, i)
  {
    if a.Piece? {
      var c := s.calls[i];
      OverwriteAtEnd(s.data[c.inode], c.content[c.sent..c.sent + a.n]);
      assert c.content[..c.sent] + c.content[c.sent..c.sent + a.n] == c.content[..c.sent + a.n];
    }
  }

  lemma StepKeepsOver(s: State, i: nat, j: nat, a: Action)
    requires Over(s, i) && Step(s, j, a).Some?
    ensures Over(Step(s, j, a).value, i)
  {
  }

  lemma OpenIsIntact(s: State, i: nat)
    requires Step(s, i, Open(true)).Some?
    ensures Intact(Step(s, i, Open(true)).value, i)
  {
    assert s.calls[i].content[..0] == [];
  }

  /** From the step p in which call i opened the file until step q, no other call harms it. */
  predicate Unharmed(states: seq<State>, schedule: seq<Move>, i: nat, p: nat, q: nat)
    requires IsRun(states, schedule) && p < q <= |schedule|
  {
    forall r | p < r < q && schedule[r].call != i ::
      && schedule[r].call < |states[r].calls| && i < |states[r].calls|
      && Harmless(states[r], i, schedule[r].call, schedule[r].action)
  }

  lemma {:induction false} UnharmedIsIntact(states: seq<State>, schedule: seq<Move>, i: nat, p: nat, q: nat)
    requires IsRun(states, schedule) && p < q <= |schedule| && schedule[p] == Move(i, Open(true))
    requires Unharmed(states, schedule, i, p, q)
    ensures Intact(states[q], i) || Over(states[q], i)
    decreases q
  {
    assert Step(states[q - 1], schedule[q - 1].call, schedule[q - 1].action) == Some(states[q]);
    if q == p + 1 {
      OpenIsIntact(states[p], i);
    } else {
      UnharmedIsIntact(states, schedule, i, p, q - 1);
      var j, a := schedule[q - 1].call, schedule[q - 1].action;
      if Over(states[q - 1], i) {
        StepKeepsOver(states[q - 1], i, j, a);
      } else if j == i {
        OwnStep(states[q - 1], i, a);
      } else {
        OtherStepKeepsExactly(states[q - 1], i, j, a);
      }
    }
  }

  /**
   * So overlapping is safe as long as it is harmless: a call that no other call harms between its
   * opening the file and its replacing the target has then installed its whole content.
   */
  lemma UnharmedCallInstalls(states: seq<State>, schedule: seq<Move>, i: nat, p: nat, q: nat)
    requires IsRun(states, schedule) && p < q < |schedule| && schedule[p] == Move(i, Open(true))
    requires schedule[q].call == i && schedule[q].action.Replace? && schedule[q].action.ok
    requires Unharmed(states, schedule, i, p, q)
    ensures i < |states[q + 1].calls| && states[q + 1].calls[i].phase == Done(true)
    ensures ContentOf(states[q + 1]) == Some(states[q + 1].calls[i].content)
  {
    UnharmedIsIntact(states, schedule, i, p, q);
    assert Step(states[q], schedule[q].call, schedule[q].action) == Some(states[q + 1]);
    var c := states[q].calls[i];
    assert c.content[..|c.content|] == c.content;
  }

  // ---------------------------------------------------------------- two writers

  function Exec(s: State, moves: seq<Move>): Option<State>
    decreases |moves|
  {
    if moves == [] then Some(s)
    else
      match Step(s, moves[0].call, moves[0].action)
      case None => None
      case Some(t) => Exec(t, moves[1..])
  }

  lemma ExecStep(s: State, m: Move, t: State, rest: seq<Move>)
    requires Step(s, m.call, m.action) == Some(t)
    ensures Exec(s, [m] + rest) == Exec(t, rest)
  {
    assert ([m] + rest)[1..] == rest;
  }

  /** The first call has written its file when a second one opens it again; then the first one replaces. */
  function Overlap(n: nat): seq<Move> {
    [Move(0, Open(true))] + ([Move(0, Piece(n))] + ([Move(0, Close(true))] + Intrusion()))
  }

  function Intrusion(): seq<Move> { [Move(1, Open(true))] + ([Move(0, Replace(true, true))] + []) }

  function Two(target: Option<nat>, tmp: Option<nat>, data: seq<seq<Byte>>, first: Call, second: Call,
               last: Option<nat>): State {
    State(target, tmp, data, [first, second], last)
  }

  lemma FirstWrites(a: seq<Byte>, second: Call, rest: seq<Move>)
    ensures Exec(Two(None, None, [], Call(a, Begin, 0, 0), second, None),
                 [Move(0, Open(true))] + ([Move(0, Piece(|a|))] + ([Move(0, Close(true))] + rest)))
         == Exec(Two(None, Some(0), [a], Call(a, Closed, 0, |a|), second, None), rest)
  {
    var s0 := Two(None, None, [], Call(a, Begin, 0, 0), second, None);
    var s1 := Two(None, Some(0), [[]], Call(a, Opened, 0, 0), second, None);
    var s2 := Two(None, Some(0), [a], Call(a, Opened, 0, |a|), second, None);
    var s3 := Two(None, Some(0), [a], Call(a, Closed, 0, |a|), second, None);
    OverwriteAtEnd([], a);
    assert [] + a == a && a[0..|a|] == a && OpenTmp(s0).data == [[]] && s2.data == s1.data[0 := a];
    assert s1.calls == s0.calls[0 := s1.calls[0]] && s2.calls == s1.calls[0 := s2.calls[0]];
    assert s3.calls == s2.calls[0 := s3.calls[0]];
    ExecStep(s0, Move(0, Open(true)), s1, [Move(0, Piece(|a|))] + ([Move(0, Close(true))] + rest));
    ExecStep(s1, Move(0, Piece(|a|)), s2, [Move(0, Close(true))] + rest);
    ExecStep(s2, Move(0, Close(true)), s3, rest);
  }

  /** Two overlapping writers: the first one succeeds, and the target is empty. */
  lemma OverlapInstallsNothing(a: seq<Byte>, b: seq<Byte>)
    ensures
      var s := Two(None, None, [], Call(a, Begin, 0, 0), Call(b, Begin, 0, 0), None);
      && Init(s) && Exec(s, Overlap(|a|)).Some?
      && var t := Exec(s, Overlap(|a|)).value;
      t.calls == [Call(a, Done(true), 0, |a|), Call(b, Opened, 0, 0)] && ContentOf(t) == Some([])
  {
    var s3 := Two(None, Some(0), [a], Call(a, Closed, 0, |a|), Call(b, Begin, 0, 0), None);
    var s4 := Two(None, Some(0), [[]], Call(a, Closed, 0, |a|), Call(b, Opened, 0, 0), None);
    var s5 := Two(Some(0), None, [[]], Call(a, Done(true), 0, |a|), Call(b, Opened, 0, 0), Some(0));
    FirstWrites(a, Call(b, Begin, 0, 0), Intrusion());
    assert s4.calls == s3.calls[1 := s4.calls[1]] && s5.calls == s4.calls[0 := s5.calls[0]];
    assert s4.data == s3.data[0 := []];
    ExecStep(s3, Move(1, Open(true)), s4, [Move(0, Replace(true, true))] + []);
    ExecStep(s4, Move(0, Replace(true, true)), s5, []);
  }

  // ---------------------------------------------------------------- failing steps

  /** How a step leaves its call: every failure ends it without success. */
  lemma FailureEndsExactly(s: State, i: nat, a: Action)
    requires Step(s, i, a).Some?
    ensures i < |s.calls|
    ensures
      var p := Step(s, i, a).value.calls[i].phase;
      && (p == Done(true) <==> a.Replace? && a.ok && s.tmp.Some?)
      && (p == Done(false) <==> a == Open(false) || a == Close(false) || (a.Replace? && (!a.ok || s.tmp.None?)))
      && (p == Closed <==> a == Close(true)) && (p == Dead <==> a == Crash)
      && (a == Close(true) ==> s.calls[i].sent == |s.calls[i].content|)
      && (p == Opened <==> a == Open(true) || a.Piece?)
  {
  }

  /** What a write at an offset leaves: its bytes there, what was in front and behind, and zeros in a gap. */
  lemma OverwriteSays(d: seq<Byte>, at: nat, p: seq<Byte>)
    requires p != []
    ensures
      var o := Overwrite(d, at, p);
      && |o| == Max(|d|, at + |p|) && o[at..at + |p|] == p
      && (forall i | 0 <= i < |d| && (i < at || i >= at + |p|) :: o[i] == d[i])
      && (forall i | |d| <= i < at :: o[i] == 0)
  {
  }
}
