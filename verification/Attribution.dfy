// Which item the records of the loops name, and which one was in turn.

module Attribution {
  import opened Playlist
  import opened Runtime
  import opened Session
  import opened Text
  import Gate

  /** The record of an attempt names the order of this item. */
  predicate NamesItem(item: Item, pop: PopInput) {
    var r := RecordFor("idle", pop);
    r.Some? && r.value.selectedOrder == Some(item.order)
  }

  function OrdersOf(items: seq<Item>): (orders: seq<int>)
    ensures |orders| == |items| && forall i | 0 <= i < |items| :: orders[i] == items[i].order
  {
    seq(|items|, i requires 0 <= i < |items| => items[i].order)
  }

  /** The lowest order of a playlist. */
  predicate IsLowest(order: int, items: seq<Item>) {
    order in OrdersOf(items) && forall i | 0 <= i < |items| :: order <= items[i].order
  }

  lemma HeadIsLowest(items: seq<Item>, order: int)
    requires items != []
    ensures Sort(items)[0].order == order <==> IsLowest(order, items)
  {
    var k := HeadIsFirstMinimum(items);
    assert OrdersOf(items)[k] == items[k].order;
  }

  /**
   * A record always names the lowest order of the playlist rebuilt when it is written, so it names
   * the order of the item in turn exactly when that order is this minimum.
   */
  lemma NamesItemExactly(item: Item, pop: PopInput)
    requires RealPlaylist(pop.playlist) && RecordFor("idle", pop).Some?
    ensures NamesItem(item, pop) <==> HasItems(pop.playlist) && IsLowest(item.order, pop.playlist.value.items)
  {
    Gate.IdleIsNormal();
    RecordIsFromChain("idle", pop);
    if HasItems(pop.playlist) {
      HeadIsLowest(pop.playlist.value.items, item.order);
    }
  }

  predicate DistinctOrders(items: seq<Item>) {
    forall i, j | 0 <= i < j < |items| :: items[i].order != items[j].order
  }

  /** Each of these attempts has a record, and rebuilds the same playlist for it. */
  predicate SamePlaylist(pops: seq<PopInput>, playlist: PlayerPlaylist) {
    forall i | 0 <= i < |pops| :: pops[i].playlist == Got(playlist) && RecordFor("idle", pops[i]).Some?
  }

  /** For the attempts of the turns a, a+1, ...: does the record name the item in turn? */
  function RightRecords(items: seq<Item>, pops: seq<PopInput>, a: nat): (rights: seq<bool>)
    requires items != []
    ensures |rights| == |pops|
    ensures forall i | 0 <= i < |pops| :: rights[i] == NamesItem(items[(a + i) % |items|], pops[i])
  {
    seq(|pops|, i requires 0 <= i < |pops| => NamesItem(items[(a + i) % |items|], pops[i]))
  }

  lemma {:induction false} CountIsTurns(rights: seq<bool>, a: nat, n: nat, p: nat)
    requires n > 0 && forall i | 0 <= i < |rights| :: rights[i] <==> (a + i) % n == p
    ensures Count(rights, true) == Shown(a, |rights|, n, p)
  {
    if rights != [] {
      CountIsTurns(rights[..|rights| - 1], a, n, p);
    }
  }

  lemma LowestIsLeast(items: seq<Item>, p: nat, least: nat)
    requires DistinctOrders(items) && FirstMinimum(items, least) && p < |items|
    ensures IsLowest(items[p].order, items) <==> p == least
  {
    assert OrdersOf(items)[p] == items[p].order;
  }

  /** The right records are those of the turns of the item of lowest order. */
  lemma RightRecordsAreTurns(playlist: PlayerPlaylist, pops: seq<PopInput>, a: nat, least: nat)
    requires WellBuilt(playlist) && HasItems(Got(playlist)) && SamePlaylist(pops, playlist)
    requires DistinctOrders(playlist.items) && FirstMinimum(playlist.items, least)
    ensures Count(RightRecords(playlist.items, pops, a), true) == Shown(a, |pops|, |playlist.items|, least)
  {
    var items, n := playlist.items, |playlist.items|;
    var rights := RightRecords(items, pops, a);
    forall i | 0 <= i < |rights| ensures rights[i] <==> (a + i) % n == least {
      NextOfMod(a + i, n);
      NamesItemExactly(items[(a + i) % n], pops[i]);
      LowestIsLeast(items, (a + i) % n, least);
    }
    CountIsTurns(rights, a, n, least);
  }

  /** Of n records of n consecutive turns over an unchanged playlist of n items exactly one is right. */
  lemma OneInNIsRight(playlist: PlayerPlaylist, pops: seq<PopInput>, a: nat)
    requires WellBuilt(playlist) && HasItems(Got(playlist)) && SamePlaylist(pops, playlist)
    requires DistinctOrders(playlist.items) && |pops| == |playlist.items|
    ensures Count(RightRecords(playlist.items, pops, a), true) == 1
  {
    var n := |playlist.items|;
    var least := HeadIsFirstMinimum(playlist.items);
    RightRecordsAreTurns(playlist, pops, a, least);
    DivMod(n, n, 1, 0);
    RotationIsFair(a, n, n, least);
  }
}
