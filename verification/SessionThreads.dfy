// portal_session.py under threads: every `with self._lock` block is one step, and other threads
// may step between two blocks of the same call.

module SessionThreads {
  import opened SessionStore
  import opened Text

  /** Where a thread is. Indices name the state of the run in which a step was taken. */
  datatype Pc =
    | Idle
    | Creating(fields: Fields, at: int)                        // _created_at taken; before the insertion
    | Looked(id: Id, found: Session, began: nat)               // get: found; before the age is computed
    | Evicting(id: Id, found: Session, began: nat, aged: nat)  // get: too old; before the pop
    | Answered(id: Id, data: Option<Fields>, began: nat, point: nat) // get has returned; point is where it took effect
    | Cleaning(now: int)                                       // cleanup: time taken; before the locked block

  /** The store, the sessions created and not deleted, all ids ever used, the clock and the threads. */
  datatype State = State(
    store: map<Id, Session>, created: map<Id, Session>, used: set<Id>, clock: int, threads: seq<Pc>)

  datatype Action =
    | Tick(ticks: nat)
    | StartCreate(fields: Fields)
    | Insert(id: Id)
    | Look(id: Id)
    | ReadAge
    | Evict
    | Delete(id: Id)
    | StartCleanup
    | Sweep

  datatype Move = Move(thread: nat, action: Action)

  predicate Between(pc: Pc) { pc.Idle? || pc.Answered? }

  function Unexpired(store: map<Id, Session>, now: int, maxAge: int): map<Id, Session> {
    map id | id in store && !IsExpired(store[id], now, maxAge) :: store[id]
  }

  function At(s: State, i: nat, pc: Pc): State
    requires i < |s.threads|
  {
    s.(threads := s.threads[i := pc])
  }

  /** One step, taken in the k-th state of a run. */
  function Step(s: State, k: nat, m: Move, maxAge: int): Option<State> {
    var i := m.thread;
    if m.action.Tick? then Some(s.(clock := s.clock + m.action.ticks))
    else if i >= |s.threads| then None
    else
      match (s.threads[i], m.action)
      case (Creating(fields, at), Insert(id)) =>
        if id in s.used then None
        else
          var session := Session(fields, at);
          Some(At(s, i, Idle).(store := s.store[id := session], created := s.created[id := session],
                               used := s.used + {id}))
      case (Looked(id, found, began), ReadAge) =>
        if IsExpired(found, s.clock, maxAge) then Some(At(s, i, Evicting(id, found, began, k)))
        else Some(At(s, i, Answered(id, Some(found.fields), began, began)))
      case (Evicting(id, found, began, aged), Evict) =>
        Some(At(s, i, Answered(id, None, began, aged)).(store := s.store - {id}))
      case (Cleaning(now), Sweep) => Some(At(s, i, Idle).(store := Unexpired(s.store, now, maxAge)))
      case (pc, StartCreate(fields)) => if Between(pc) then Some(At(s, i, Creating(fields, s.clock))) else None
      case (pc, Look(id)) =>
        if !Between(pc) then None
        else if id in s.store then Some(At(s, i, Looked(id, s.store[id], k)))
        else Some(At(s, i, Answered(id, None, k, k)))
      case (pc, Delete(id)) =>
        if Between(pc) then Some(At(s, i, Idle).(store := s.store - {id}, created := s.created - {id})) else None
      case (pc, StartCleanup) => if Between(pc) then Some(At(s, i, Cleaning(s.clock))) else None
      case _ => None
  }

  predicate Init(s: State) {
    s.store == map[] && s.created == map[] && s.used == {} && forall i | 0 <= i < |s.threads| :: s.threads[i] == Idle
  }

  predicate IsRun(states: seq<State>, moves: seq<Move>, maxAge: int) {
    && |states| == |moves| + 1 && Init(states[0])
    && forall k | 0 <= k < |moves| :: Step(states[k], k, moves[k], maxAge) == Some(states[k + 1])
  }

  // ---------------------------------------------------------------- invariants

  /** A session found by a get that is under way: its id still means this session, if anything. */
  predicate Found(s: State, id: Id, found: Session) { id in s.used && (id in s.created ==> s.created[id] == found) }

  /** What the plain timed map answers in the p-th state. */
  function Answer(states: seq<State>, p: nat, id: Id, maxAge: int): Option<Fields>
    requires p < |states|
  {
    ReadAt(states[p].created, id, states[p].clock, maxAge)
  }

  /** The call that is under way, or has returned, agrees with the plain map at its points. */
  predicate ThreadOk(states: seq<State>, k: nat, pc: Pc, maxAge: int)
    requires k < |states|
  {
    match pc
    case Idle => true
    case Creating(_, at) => at <= states[k].clock
    case Cleaning(now) => now <= states[k].clock
    case Looked(id, found, began) =>
      && began < k && Found(states[k], id, found) && states[began].clock <= states[k].clock
      && Answer(states, began, id, maxAge)
         == if IsExpired(found, states[began].clock, maxAge) then None else Some(found.fields)
    case Evicting(id, found, began, aged) =>
      && began < aged < k && Found(states[k], id, found) && IsExpired(found, states[k].clock, maxAge)
      && Answer(states, aged, id, maxAge) == None
    case Answered(id, data, began, point) => began <= point < k && data == Answer(states, point, id, maxAge)
  }

  predicate StoreOk(s: State, maxAge: int) {
    Refines(s.store, s.created, s.clock, maxAge) && forall id | id in s.created :: id in s.used
  }

  predicate Inv(states: seq<State>, k: nat, maxAge: int)
    requires k < |states|
  {
    StoreOk(states[k], maxAge) && forall i | 0 <= i < |states[k].threads| ::
      ThreadOk(states, k, states[k].threads[i], maxAge)
  }

  /** The two steps that evict remove expired sessions only. */
  lemma EvictionKeepsStore(states: seq<State>, k: nat, m: Move, t: State, maxAge: int)
    requires k < |states| && Inv(states, k, maxAge) && Step(states[k], k, m, maxAge) == Some(t)
    requires m.action.Evict? || m.action.Sweep?
    ensures StoreOk(t, maxAge) && states[k].clock <= t.clock && |t.threads| == |states[k].threads|
  {
    assert ThreadOk(states, k, states[k].threads[m.thread], maxAge);
  }

  lemma StepKeepsStore(states: seq<State>, k: nat, m: Move, t: State, maxAge: int)
    requires k < |states| && Inv(states, k, maxAge) && Step(states[k], k, m, maxAge) == Some(t)
    ensures StoreOk(t, maxAge) && states[k].clock <= t.clock && |t.threads| == |states[k].threads|
  {
    if m.action.Evict? || m.action.Sweep? {
      EvictionKeepsStore(states, k, m, t, maxAge);
    }
  }

  /** A step of one thread leaves what the others rely on. */
  lemma OtherThreadKept(states: seq<State>, k: nat, m: Move, j: nat, maxAge: int)
    requires k + 1 < |states| && Inv(states, k, maxAge) && Step(states[k], k, m, maxAge) == Some(states[k + 1])
    requires j < |states[k].threads| && (j == m.thread ==> m.action.Tick?)
    ensures j < |states[k + 1].threads| && ThreadOk(states, k + 1, states[k + 1].threads[j], maxAge)
  {
    assert ThreadOk(states, k, states[k].threads[j], maxAge);
    assert states[k + 1].threads[j] == states[k].threads[j];
  }

  lemma ActingThreadKept(states: seq<State>, k: nat, m: Move, maxAge: int)
    requires k + 1 < |states| && Inv(states, k, maxAge) && Step(states[k], k, m, maxAge) == Some(states[k + 1])
    requires !m.action.Tick?
    ensures m.thread < |states[k + 1].threads| && ThreadOk(states, k + 1, states[k + 1].threads[m.thread], maxAge)
  {
    assert ThreadOk(states, k, states[k].threads[m.thread], maxAge);
    if m.action.Look? {
      RefinesReads(states[k].store, states[k].created, states[k].clock, maxAge, m.action.id, states[k].clock);
    }
  }

  lemma {:induction false} RunKeepsInv(states: seq<State>, moves: seq<Move>, k: nat, maxAge: int)
    requires IsRun(states, moves, maxAge) && k < |states|
    ensures Inv(states, k, maxAge)
  {
    if k > 0 {
      var m := moves[k - 1];
      RunKeepsInv(states, moves, k - 1, maxAge);
      assert Step(states[k - 1], k - 1, m, maxAge) == Some(states[k]);
      StepKeepsStore(states, k - 1, m, states[k], maxAge);
      forall j | 0 <= j < |states[k].threads| ensures ThreadOk(states, k, states[k].threads[j], maxAge) {
        if j == m.thread && !m.action.Tick? {
          ActingThreadKept(states, k - 1, m, maxAge);
        } else {
          OtherThreadKept(states, k - 1, m, j, maxAge);
        }
      }
    }
  }

  /**
   * Linearisation: in every interleaving, with fresh ids and a clock that does not go back, a get
   * that has returned gave the plain timed map's answer at one moment of its own duration: the
   * fields exactly if the id was created, not deleted, and at most maxAge old at that moment.
   */
  lemma GetIsLinearised(states: seq<State>, moves: seq<Move>, k: nat, i: nat, maxAge: int)
    requires IsRun(states, moves, maxAge) && k < |states| && i < |states[k].threads| && states[k].threads[i].Answered?
    ensures
      var g := states[k].threads[i];
      && g.began <= g.point < k
      && var p := states[g.point];
      && (g.data.Some? <==> g.id in p.created && p.clock - p.created[g.id].createdAt <= maxAge)
      && (g.data.Some? ==> g.data.value == p.created[g.id].fields)
  {
    RunKeepsInv(states, moves, k, maxAge);
    assert ThreadOk(states, k, states[k].threads[i], maxAge);
  }

  /** Looking up, ageing, evicting and cleaning never change what a get can observe from then on. */
  lemma EvictionIsInvisible(states: seq<State>, moves: seq<Move>, k: nat, id: Id, later: int, maxAge: int)
    requires IsRun(states, moves, maxAge) && k < |moves| && !moves[k].action.Insert? && !moves[k].action.Delete?
    requires states[k + 1].clock <= later
    ensures states[k + 1].created == states[k].created
    ensures ReadAt(states[k + 1].store, id, later, maxAge) == ReadAt(states[k].store, id, later, maxAge)
    ensures ReadAt(states[k].store, id, later, maxAge) == ReadAt(states[k].created, id, later, maxAge)
  {
    RunKeepsInv(states, moves, k, maxAge);
    RunKeepsInv(states, moves, k + 1, maxAge);
    var s, t := states[k], states[k + 1];
    assert Step(s, k, moves[k], maxAge) == Some(t);
    StepKeepsStore(states, k, moves[k], t, maxAge);
    RefinesReads(s.store, s.created, s.clock, maxAge, id, later);
    RefinesReads(t.store, t.created, t.clock, maxAge, id, later);
  }

  /** A cleanup removes exactly the sessions that were too old when it took the time, whatever the clock says now. */
  lemma SweepSays(s: State, k: nat, i: nat, maxAge: int, id: Id)
    requires i < |s.threads| && s.threads[i].Cleaning?
    ensures Step(s, k, Move(i, Sweep), maxAge).Some?
    ensures
      var t := Step(s, k, Move(i, Sweep), maxAge).value;
      && t.created == s.created && t.used == s.used && t.clock == s.clock
      && (id in t.store <==> id in s.store && s.threads[i].now - s.store[id].createdAt <= maxAge)
      && (id in t.store ==> t.store[id] == s.store[id])
  {
  }

  /** A cleanup takes the time of its start, and a new session the time of its own. */
  lemma TimesAreTaken(s: State, k: nat, i: nat, maxAge: int, fields: Fields)
    requires i < |s.threads| && Between(s.threads[i])
    ensures Step(s, k, Move(i, StartCleanup), maxAge) == Some(s.(threads := s.threads[i := Cleaning(s.clock)]))
    ensures Step(s, k, Move(i, StartCreate(fields)), maxAge)
         == Some(s.(threads := s.threads[i := Creating(fields, s.clock)]))
  {
  }
}
