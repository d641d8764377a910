// safety.py and session.py: the safety gate and the choice of the next item.

module Session {
  import opened Gate
  import opened Playlist
  import opened Text

  // ---------------------------------------------------------------- safety.py

  datatype SafetyReason =
    | SafetyReady | PlaylistNotReady | StateUnknown | StateActive | InvalidSafetyState | MissingSnapshot

  datatype SafetyDecision = SafetyDecision(allowed: bool, action: Action, reason: SafetyReason)

  const STOP_STATES: set<string> := {
    "transaction", "payment", "receipt", "service", "error", "maintenance", "offline"}

  /** decide_playback_safety; the seven reasons for the stop states are one here. */
  function DecideSafety(snapshot: Option<string>, playlist: Option<PlayerPlaylist>): SafetyDecision {
    match snapshot
    case None => SafetyDecision(false, Stop, MissingSnapshot)
    case Some(raw) =>
      var state := Lower(Strip(raw));
      if Strip(raw) == "" || state !in KNOWN_STATES then SafetyDecision(false, Stop, InvalidSafetyState)
      else if state == "unknown" then SafetyDecision(false, Hold, StateUnknown)
      else if state in STOP_STATES then SafetyDecision(false, Stop, StateActive)
      else if playlist.None? || !playlist.value.ready then SafetyDecision(false, Hold, PlaylistNotReady)
      else SafetyDecision(true, Play, SafetyReady)
  }

  /** Playback is allowed exactly for the idle state with a ready playlist. */
  lemma SafetyAllowsExactly(snapshot: Option<string>, playlist: Option<PlayerPlaylist>)
    ensures DecideSafety(snapshot, playlist).allowed <==>
      && snapshot.Some? && Lower(Strip(snapshot.value)) == "idle"
      && playlist.Some? && playlist.value.ready
    ensures DecideSafety(snapshot, playlist).allowed <==> DecideSafety(snapshot, playlist).action == Play
  {
    assert "idle" !in STOP_STATES;
    if snapshot.Some? {
      var state := Lower(Strip(snapshot.value));
      assert state in KNOWN_STATES ==> state == "idle" || state == "unknown" || state in STOP_STATES;
      if state == "idle" {
        assert |Strip(snapshot.value)| == 4;
        assert |"unknown"| == 7;
      }
    }
  }

  // ---------------------------------------------------------------- sorted(items, key=order)

  /** Inserts x behind every item whose order is not greater. */
  function Insert(sorted: seq<Item>, x: Item): (r: seq<Item>)
    ensures |r| == |sorted| + 1
  {
    if sorted == [] || sorted[|sorted| - 1].order <= x.order then sorted + [x]
    else Insert(sorted[..|sorted| - 1], x) + [sorted[|sorted| - 1]]
  }

  /** Python's stable sort by order. */
  function Sort(items: seq<Item>): (r: seq<Item>)
    ensures |r| == |items|
  {
    if items == [] then [] else Insert(Sort(items[..|items| - 1]), items[|items| - 1])
  }

  predicate Ordered(items: seq<Item>) {
    forall i, j | 0 <= i < j < |items| :: items[i].order <= items[j].order
  }

  /** The items of one order value, as they are listed. */
  function WithOrder(items: seq<Item>, order: int): seq<Item> {
    if items == [] then []
    else
      var n := |items| - 1;
      WithOrder(items[..n], order) + (if items[n].order == order then [items[n]] else [])
  }

  lemma {:induction false} InsertOrders(sorted: seq<Item>, x: Item)
    requires Ordered(sorted)
    ensures Ordered(Insert(sorted, x))
    ensures forall y | y in Insert(sorted, x) :: y in sorted || y == x
  {
    var n := |sorted| - 1;
    if sorted != [] && sorted[n].order > x.order {
      InsertOrders(sorted[..n], x);
      var front := Insert(sorted[..n], x);
      forall i | 0 <= i < |front|
        ensures front[i].order <= sorted[n].order
      {
        assert front[i] in sorted[..n] || front[i] == x;
      }
    }
  }

  lemma {:induction false} InsertIsStable(sorted: seq<Item>, x: Item, order: int)
    requires Ordered(sorted)
    ensures WithOrder(Insert(sorted, x), order) == WithOrder(sorted, order) + if x.order == order then [x] else []
  {
    var n := |sorted| - 1;
    if sorted == [] || sorted[n].order <= x.order {
      assert (sorted + [x])[..|sorted|] == sorted;
    } else {
      InsertIsStable(sorted[..n], x, order);
      var r := Insert(sorted, x);
      assert r[..|sorted|] == Insert(sorted[..n], x);
      if order >= sorted[n].order {
        assert x.order != order;
      } else {
        assert sorted[n].order != order;
      }
    }
  }

  /** Sort yields the one ordered list that keeps, for every order value, the items as they are listed. */
  lemma {:induction false} SortIsStable(items: seq<Item>, order: int)
    ensures Ordered(Sort(items))
    ensures WithOrder(Sort(items), order) == WithOrder(items, order)
  {
    if items != [] {
      var n := |items| - 1;
      SortIsStable(items[..n], order);
      InsertOrders(Sort(items[..n]), items[n]);
      InsertIsStable(Sort(items[..n]), items[n], order);
    }
  }

  lemma InsertAtEnd(sorted: seq<Item>, x: Item)
    requires sorted == [] || sorted[|sorted| - 1].order <= x.order
    ensures Insert(sorted, x) == sorted + [x]
  {
  }

  /** A manifest that is already in order is left as it is. */
  lemma {:induction false} SortOfOrdered(items: seq<Item>)
    requires Ordered(items)
    ensures Sort(items) == items
  {
    if items != [] {
      var n := |items| - 1;
      SortOfOrdered(items[..n]);
      InsertAtEnd(items[..n], items[n]);
      assert items == items[..n] + [items[n]];
    }
  }

  /** items[k] is the first item of minimal order. */
  predicate FirstMinimum(items: seq<Item>, k: nat) {
    && k < |items|
    && (forall i | 0 <= i < |items| :: items[k].order <= items[i].order)
    && (forall i | 0 <= i < k :: items[k].order < items[i].order)
  }

  /** The head of the sorted list is the first item of minimal order. */
  lemma {:induction false} HeadIsFirstMinimum(items: seq<Item>) returns (k: nat)
    requires items != []
    ensures FirstMinimum(items, k) && Sort(items)[0] == items[k]
  {
    var n := |items| - 1;
    if n == 0 {
      k := 0;
      assert items[..0] == [];
    } else {
      k := HeadIsFirstMinimum(items[..n]);
      SortIsStable(items[..n], 0);
      InsertHead(Sort(items[..n]), items[n]);
      FirstMinimumExtends(items, k);
      if items[n].order < items[k].order {
        k := n;
      }
    }
  }

  lemma FirstMinimumExtends(items: seq<Item>, k: nat)
    requires |items| > 1 && FirstMinimum(items[..|items| - 1], k)
    ensures FirstMinimum(items, if items[|items| - 1].order < items[k].order then |items| - 1 else k)
  {
    var front := items[..|items| - 1];
    assert forall i | 0 <= i < |front| :: front[i] == items[i];
  }

  lemma {:induction false} InsertHead(sorted: seq<Item>, x: Item)
    requires sorted != [] && Ordered(sorted)
    ensures Insert(sorted, x)[0] == if x.order < sorted[0].order then x else sorted[0]
  {
    var n := |sorted| - 1;
    if sorted[n].order > x.order && n > 0 {
      InsertHead(sorted[..n], x);
    }
  }

  // ---------------------------------------------------------------- session.py

  datatype SessionState = SessionState(currentIndex: Option<int>, lastId: Option<string>, cycleCount: int)

  datatype SessionReason = SessionReady | SafetyBlocked | SessionPlaylistNotReady | NoItems | InvalidSessionState

  datatype SessionDecision = SessionDecision(
    allowed: bool,
    action: Action,
    reason: SessionReason,
    selected: Option<Item>,
    nextIndex: Option<int>,
    cycleCount: int)

  const FORBIDDEN_IN_STATE: seq<string> := [
    "token", "secret", "password", "api_key",
    "private_key", "payment_card", "receipt_data",
    "card_number", "pan", "authorization", "bearer",
    "device_secret", "access_token",
    "media_path", "creatives/", "backend_base_url",
    "127.0.0.1", "device_code"]

  /** An item id that may be remembered in the session state. */
  predicate ValidNote(id: Option<string>) {
    id.None? || (!ContainsAny(Lower(id.value), FORBIDDEN_IN_STATE) && '/' !in id.value && '\\' !in id.value)
  }

  /** _is_valid_state. */
  predicate ValidState(state: SessionState, n: nat) {
    && state.cycleCount >= 0
    && (state.currentIndex.Some? ==> 0 <= state.currentIndex.value < n)
    && ValidNote(state.lastId)
  }

  function Refuse(action: Action, reason: SessionReason): SessionDecision {
    SessionDecision(false, action, reason, None, None, 0)
  }

  /** select_next_item. */
  function SelectNext(playlist: PlayerPlaylist, safety: SafetyDecision, state: Option<SessionState>): SessionDecision {
    if !safety.allowed then Refuse(Stop, SafetyBlocked)
    else if !playlist.ready then Refuse(Hold, SessionPlaylistNotReady)
    else if playlist.items == [] then Refuse(Hold, NoItems)
    else
      var sorted := Sort(playlist.items);
      var n := |sorted|;
      if state.Some? && !ValidState(state.value, n) then Refuse(Hold, InvalidSessionState)
      else if state.None? || state.value.currentIndex.None? then
        SessionDecision(true, Play, SessionReady, Some(sorted[0]), Some(0), 0)
      else
        var current := state.value.currentIndex.value;
        var next := (current + 1) % n;
        var cycles := state.value.cycleCount + if next == 0 && current == n - 1 then 1 else 0;
        SessionDecision(true, Play, SessionReady, Some(sorted[next]), Some(next), cycles)
  }

  /** The state a caller keeps after a pick: the decision's index and cycle count, and an item id of its choice. */
  function Keep(d: SessionDecision, note: Option<string>): SessionState {
    SessionState(d.nextIndex, note, d.cycleCount)
  }

  /** The k-th pick (from 0) of a caller that starts without state; notes(j) is what it remembers after pick j. */
  function Pick(playlist: PlayerPlaylist, safety: SafetyDecision,
                notes: nat -> Option<string>, k: nat): SessionDecision {
    if k == 0 then SelectNext(playlist, safety, None)
    else SelectNext(playlist, safety, Some(Keep(Pick(playlist, safety, notes, k - 1), notes(k - 1))))
  }

  /** Turn k of a round robin over the sorted items. */
  function Turn(playlist: PlayerPlaylist, k: nat): SessionDecision
    requires playlist.items != []
  {
    var n := |playlist.items|;
    SessionDecision(true, Play, SessionReady, Some(Sort(playlist.items)[k % n]), Some(k % n), k / n)
  }

  /**
   * Round robin: over a fixed ready playlist of n items the k-th pick is sorted item k mod n,
   * with k div n completed cycles, for as long as the remembered ids are acceptable.
   */
  lemma {:induction false} PickIsRoundRobin(
    playlist: PlayerPlaylist, safety: SafetyDecision, notes: nat -> Option<string>, k: nat)
    requires safety.allowed && playlist.ready && playlist.items != []
    requires forall j: nat | j < k :: ValidNote(notes(j))
    ensures Pick(playlist, safety, notes, k) == Turn(playlist, k)
  {
    if k == 0 {
      DivMod(0, |playlist.items|, 0, 0);
    } else {
      PickIsRoundRobin(playlist, safety, notes, k - 1);
      NextTurn(playlist, safety, notes(k - 1), k - 1);
    }
  }

  lemma NextTurn(playlist: PlayerPlaylist, safety: SafetyDecision, note: Option<string>, k: nat)
    requires safety.allowed && playlist.ready && playlist.items != [] && ValidNote(note)
    ensures SelectNext(playlist, safety, Some(Keep(Turn(playlist, k), note))) == Turn(playlist, k + 1)
  {
    NextOfMod(k, |playlist.items|);
    NextPick(playlist, safety, note, k % |playlist.items|, k / |playlist.items|);
  }

  /** One step of the rotation. */
  lemma NextPick(playlist: PlayerPlaylist, safety: SafetyDecision, note: Option<string>, current: nat, cycles: nat)
    requires safety.allowed && playlist.ready && ValidNote(note)
    requires current < |playlist.items|
    ensures
      var next := (current + 1) % |playlist.items|;
      SelectNext(playlist, safety, Some(SessionState(Some(current), note, cycles)))
        == SessionDecision(true, Play, SessionReady, Some(Sort(playlist.items)[next]), Some(next),
                           cycles + if next == 0 && current == |playlist.items| - 1 then 1 else 0)
  {
  }

  /** One unacceptable id stops the rotation at the next pick, which is refused as an invalid state. */
  lemma PickStopsOnBadNote(
    playlist: PlayerPlaylist, safety: SafetyDecision, notes: nat -> Option<string>, k: nat)
    requires safety.allowed && playlist.ready && playlist.items != []
    requires !ValidNote(notes(k))
    ensures Pick(playlist, safety, notes, k + 1) == Refuse(Hold, InvalidSessionState)
  {
  }

  /** Stepping k advances k mod n cyclically and k div n at each wrap. */
  lemma NextOfMod(k: nat, n: nat)
    requires n > 0
    ensures 0 <= k % n < n && k / n >= 0
    ensures (k % n + 1) % n == (k + 1) % n
    ensures (k + 1) / n == k / n + if k % n == n - 1 then 1 else 0
    ensures (k % n + 1) % n == 0 <==> k % n == n - 1
  {
    var q, r := k / n, k % n;
    assert k == n * q + r;
    if r == n - 1 {
      assert k + 1 == n * (q + 1) by { assert n * (q + 1) == n * q + n; }
      DivMod(k + 1, n, q + 1, 0);
      DivMod(n, n, 1, 0);
    } else {
      DivMod(k + 1, n, q, r + 1);
      DivMod(r + 1, n, 0, r + 1);
    }
  }

  lemma DivMod(a: int, n: int, q: int, r: int)
    requires n > 0 && a == n * q + r && 0 <= r < n
    ensures a / n == q && a % n == r
  {
    var d := a / n - q;
    assert n * d == n * (a / n) - n * q;
    MulBound(n, d);
  }

  lemma MulBound(n: int, d: int)
    requires n > 0
    ensures d >= 1 ==> n * d >= n
    ensures d <= -1 ==> n * d <= -n
  {
  }

  // ---------------------------------------------------------------- fairness of a round robin

  /** How often position p comes up among the k consecutive turns a, a+1, ... of a round robin over n. */
  function Shown(a: nat, k: nat, n: nat, p: nat): nat
    requires n > 0
  {
    if k == 0 then 0 else Shown(a, k - 1, n, p) + if (a + k - 1) % n == p then 1 else 0
  }

  /** The number of m' < m with m' mod n == p. */
  function Before(m: nat, n: nat, p: nat): int
    requires p < n
  {
    m / n + if m % n > p then 1 else 0
  }

  lemma {:induction false} ShownIsDifference(a: nat, k: nat, n: nat, p: nat)
    requires p < n
    ensures Shown(a, k, n, p) == Before(a + k, n, p) - Before(a, n, p)
  {
    if k > 0 {
      ShownIsDifference(a, k - 1, n, p);
      NextOfMod(a + k - 1, n);
      var r := (a + k - 1) % n;
      if r + 1 < n {
        DivMod(r + 1, n, 0, r + 1);
      } else {
        DivMod(n, n, 1, 0);
      }
    }
  }

  /** Among k consecutive turns every position is shown floor(k/n) or ceil(k/n) times. */
  lemma RotationIsFair(a: nat, k: nat, n: nat, p: nat)
    requires p < n
    ensures Shown(a, k, n, p) == k / n || Shown(a, k, n, p) == k / n + 1
    ensures k % n == 0 ==> Shown(a, k, n, p) == k / n
  {
    ShownIsDifference(a, k, n, p);
    AddDivMod(a, k, n);
  }

  lemma AddDivMod(a: nat, k: nat, n: nat)
    requires n > 0
    ensures
      var r := a % n + k % n;
      if r < n then (a + k) / n == a / n + k / n && (a + k) % n == r
      else (a + k) / n == a / n + k / n + 1 && (a + k) % n == r - n
  {
    var q, r := a / n + k / n, a % n + k % n;
    assert a + k == n * q + r by { assert n * q == n * (a / n) + n * (k / n); }
    if r < n {
      DivMod(a + k, n, q, r);
    } else {
      assert n * (q + 1) == n * q + n;
      DivMod(a + k, n, q + 1, r - n);
    }
  }
}
