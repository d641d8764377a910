// What a round robin shows when some of its turns are lost: a cycle that does not display still
// uses up the turn of its item.

module Rotation {
  import opened Session

  /** How many of the k turns a, a+1, ... belong to position p of n and are displayed. */
  function ShownBy(shows: nat -> bool, a: nat, k: nat, n: nat, p: nat): nat
    requires n > 0
  {
    if k == 0 then 0
    else ShownBy(shows, a, k - 1, n, p) + if shows(a + k - 1) && (a + k - 1) % n == p then 1 else 0
  }

  /** How many of them belong to position p and are lost. */
  function MissedBy(shows: nat -> bool, a: nat, k: nat, n: nat, p: nat): nat
    requires n > 0
  {
    if k == 0 then 0
    else MissedBy(shows, a, k - 1, n, p) + if !shows(a + k - 1) && (a + k - 1) % n == p then 1 else 0
  }

  /** Every turn of position p in the window is displayed. */
  predicate EveryTurnShows(shows: nat -> bool, a: nat, k: nat, n: nat, p: nat)
    requires n > 0
  {
    forall j | a <= j < a + k && j % n == p :: shows(j)
  }

  /** None is. */
  predicate NoTurnShows(shows: nat -> bool, a: nat, k: nat, n: nat, p: nat)
    requires n > 0
  {
    forall j | a <= j < a + k && j % n == p :: !shows(j)
  }

  lemma {:induction false} TurnsAreShownOrMissed(shows: nat -> bool, a: nat, k: nat, n: nat, p: nat)
    requires n > 0
    ensures ShownBy(shows, a, k, n, p) + MissedBy(shows, a, k, n, p) == Shown(a, k, n, p)
    ensures MissedBy(shows, a, k, n, p) == 0 <==> EveryTurnShows(shows, a, k, n, p)
    ensures ShownBy(shows, a, k, n, p) == 0 <==> NoTurnShows(shows, a, k, n, p)
  {
    if k > 0 {
      TurnsAreShownOrMissed(shows, a, k - 1, n, p);
    }
  }

  /** A position gets all its turns exactly if none of its turns is lost; it starves exactly if all are. */
  lemma {:induction false} FairExactly(shows: nat -> bool, a: nat, k: nat, n: nat, p: nat)
    requires p < n
    ensures ShownBy(shows, a, k, n, p) <= Shown(a, k, n, p)
    ensures ShownBy(shows, a, k, n, p) == Shown(a, k, n, p) <==> EveryTurnShows(shows, a, k, n, p)
    ensures ShownBy(shows, a, k, n, p) == 0 <==> NoTurnShows(shows, a, k, n, p)
  {
    TurnsAreShownOrMissed(shows, a, k, n, p);
  }

  /**
   * A position is shown floor(k/n) or ceil(k/n) times in k turns exactly if it loses none of its
   * turns, or just the one that it has beyond floor(k/n).
   */
  lemma FloorOrCeilExactly(shows: nat -> bool, a: nat, k: nat, n: nat, p: nat)
    requires p < n
    ensures
      var shown := ShownBy(shows, a, k, n, p);
      shown == k / n || (shown == k / n + 1 && k % n != 0) <==>
        || MissedBy(shows, a, k, n, p) == 0
        || (MissedBy(shows, a, k, n, p) == 1 && Shown(a, k, n, p) == k / n + 1)
  {
    TurnsAreShownOrMissed(shows, a, k, n, p);
    RotationIsFair(a, k, n, p);
  }

  /** Every position gets all its turns. */
  predicate AllServed(shows: nat -> bool, a: nat, k: nat, n: nat)
    requires n > 0
  {
    forall p: nat | p < n :: ShownBy(shows, a, k, n, p) == Shown(a, k, n, p)
  }

  lemma ServedTurn(shows: nat -> bool, a: nat, k: nat, n: nat, j: nat)
    requires n > 0 && AllServed(shows, a, k, n) && a <= j < a + k
    ensures shows(j)
  {
    NextOfMod(j, n);
    var p: nat := j % n;
    FairExactly(shows, a, k, n, p);
  }

  /** Every position gets all its turns exactly if no turn at all is lost. */
  lemma AllServedExactly(shows: nat -> bool, a: nat, k: nat, n: nat)
    requires n > 0
    ensures AllServed(shows, a, k, n) <==> forall j | a <= j < a + k :: shows(j)
  {
    if AllServed(shows, a, k, n) {
      forall j | a <= j < a + k ensures shows(j) {
        ServedTurn(shows, a, k, n, j);
      }
    }
    if forall j | a <= j < a + k :: shows(j) {
      forall p: nat | p < n ensures ShownBy(shows, a, k, n, p) == Shown(a, k, n, p) {
        FairExactly(shows, a, k, n, p);
      }
    }
  }
}
