// hierarchy_projection.py: store rows, joined with their cluster, their branch and a device count.

module Stores {

  /** A backend object, with string values. */
  type Dict = map<string, string>

  datatype Row = Row(
    name: string, code: string, format: string, status: string,
    branchName: string, clusterName: string, ksoCount: nat)

  const DASH := "\U{2014}"

  function Get(d: Dict, key: string, default: string): string { if key in d then d[key] else default }

  /** `d.get(key) or default`. */
  function GetOr(d: Dict, key: string, default: string): string {
    if Get(d, key, "") == "" then default else d[key]
  }

  // ---------------------------------------------------------------- what the rows should say

  /** The last object with this id; the empty object if there is none. */
  function LastById(xs: seq<Dict>, id: string): Dict {
    if xs == [] then map[]
    else
      var n := |xs| - 1;
      if "id" in xs[n] && xs[n]["id"] == id then xs[n] else LastById(xs[..n], id)
  }

  /** The number of devices of a store; a device without a store counts for none. */
  function DevicesOf(devices: seq<Dict>, store: string): nat {
    if devices == [] then 0
    else
      var n := |devices| - 1;
      DevicesOf(devices[..n], store) + if store != "" && Get(devices[n], "store_id", "") == store then 1 else 0
  }

  function RowOf(store: Dict, clusters: seq<Dict>, branches: seq<Dict>, devices: seq<Dict>): Row {
    var cluster := LastById(clusters, Get(store, "cluster_id", ""));
    var branch := LastById(branches, Get(cluster, "branch_id", ""));
    Row(Get(store, "name", ""), Get(store, "code", ""), GetOr(store, "format", DASH), Get(store, "status", DASH),
        Get(branch, "name", DASH), Get(cluster, "name", DASH), DevicesOf(devices, Get(store, "id", "")))
  }

  // ---------------------------------------------------------------- build_store_rows

  /** {x["id"]: x for x in xs if "id" in x}: the last object of each id. */
  method IndexById(xs: seq<Dict>) returns (byId: map<string, Dict>)
    ensures forall id :: (if id in byId then byId[id] else map[]) == LastById(xs, id)
  {
    byId := map[];
    for i := 0 to |xs|
      invariant forall id :: (if id in byId then byId[id] else map[]) == LastById(xs[..i], id)
    {
      assert xs[..i + 1][..i] == xs[..i];
      if "id" in xs[i] {
        byId := byId[xs[i]["id"] := xs[i]];
      }
    }
    assert xs[..|xs|] == xs;
  }

  /** The counting loop. */
  method CountByStore(devices: seq<Dict>) returns (counts: map<string, nat>)
    ensures forall id :: (if id in counts then counts[id] else 0) == DevicesOf(devices, id)
  {
    counts := map[];
    for i := 0 to |devices|
      invariant "" !in counts
      invariant forall id :: (if id in counts then counts[id] else 0) == DevicesOf(devices[..i], id)
    {
      assert devices[..i + 1][..i] == devices[..i];
      var sid := Get(devices[i], "store_id", "");
      if sid != "" {
        counts := counts[sid := (if sid in counts then counts[sid] else 0) + 1];
      }
    }
    assert devices[..|devices|] == devices;
  }

  /** build_store_rows: one row per store, in the given order. */
  method BuildStoreRows(stores: seq<Dict>, clusters: seq<Dict>, branches: seq<Dict>,
                        devices: seq<Dict>) returns (rows: seq<Row>)
    ensures |rows| == |stores|
    ensures forall i | 0 <= i < |stores| :: rows[i] == RowOf(stores[i], clusters, branches, devices)
  {
    var branchById := IndexById(branches);
    var clusterById := IndexById(clusters);
    var ksoByStore := CountByStore(devices);
    rows := [];
    for i := 0 to |stores|
      invariant |rows| == i
      invariant forall j | 0 <= j < i :: rows[j] == RowOf(stores[j], clusters, branches, devices)
    {
      var s := stores[i];
      var cid := Get(s, "cluster_id", "");
      var cluster := if cid in clusterById then clusterById[cid] else map[];
      var bid := Get(cluster, "branch_id", "");
      var branch := if bid in branchById then branchById[bid] else map[];
      var id := Get(s, "id", "");
      rows := rows + [Row(Get(s, "name", ""), Get(s, "code", ""), GetOr(s, "format", DASH), Get(s, "status", DASH),
                          Get(branch, "name", DASH), Get(cluster, "name", DASH),
                          if id in ksoByStore then ksoByStore[id] else 0)];
    }
  }

  // ---------------------------------------------------------------- conservation

  function TotalCount(rows: seq<Row>): nat {
    if rows == [] then 0 else TotalCount(rows[..|rows| - 1]) + rows[|rows| - 1].ksoCount
  }

  /** The devices counted over the rows of these stores. */
  function Counted(stores: seq<Dict>, devices: seq<Dict>): nat {
    if stores == [] then 0
    else Counted(stores[..|stores| - 1], devices) + DevicesOf(devices, Get(stores[|stores| - 1], "id", ""))
  }

  /** How many of the stores have this id. */
  function Listed(stores: seq<Dict>, id: string): nat {
    if stores == [] then 0
    else Listed(stores[..|stores| - 1], id) + if Get(stores[|stores| - 1], "id", "") == id then 1 else 0
  }

  /** The rows in which a device is counted. */
  function RowsOf(stores: seq<Dict>, device: Dict): nat {
    var sid := Get(device, "store_id", "");
    if sid == "" then 0 else Listed(stores, sid)
  }

  /** The devices without a store, and those whose store is not listed. */
  function Unassigned(devices: seq<Dict>): nat {
    if devices == [] then 0
    else Unassigned(devices[..|devices| - 1]) + if Get(devices[|devices| - 1], "store_id", "") == "" then 1 else 0
  }

  function Unknown(stores: seq<Dict>, devices: seq<Dict>): nat {
    if devices == [] then 0
    else
      var sid := Get(devices[|devices| - 1], "store_id", "");
      Unknown(stores, devices[..|devices| - 1]) + if sid != "" && Listed(stores, sid) == 0 then 1 else 0
  }

  lemma {:induction false} RowsCount(rows: seq<Row>, stores: seq<Dict>, clusters: seq<Dict>, branches: seq<Dict>,
                                     devices: seq<Dict>)
    requires |rows| == |stores| && forall i | 0 <= i < |stores| ::
        rows[i] == RowOf(stores[i], clusters, branches, devices)
    ensures TotalCount(rows) == Counted(stores, devices)
  {
    if stores != [] {
      var n := |stores| - 1;
      RowsCount(rows[..n], stores[..n], clusters, branches, devices);
    }
  }

  lemma {:induction false} NothingCounted(stores: seq<Dict>)
    ensures Counted(stores, []) == 0
  {
    if stores != [] {
      NothingCounted(stores[..|stores| - 1]);
    }
  }

  /** One more device is counted once for each store with its id. */
  lemma {:induction false} OneMoreDevice(stores: seq<Dict>, devices: seq<Dict>)
    requires devices != []
    ensures Counted(stores, devices) ==
        Counted(stores, devices[..|devices| - 1]) + RowsOf(stores, devices[|devices| - 1])
  {
    if stores != [] {
      OneMoreDevice(stores[..|stores| - 1], devices);
    }
  }

  /** No device belongs to a store that is listed twice. */
  predicate NoneTwice(stores: seq<Dict>, devices: seq<Dict>) {
    forall i | 0 <= i < |devices| :: RowsOf(stores, devices[i]) <= 1
  }

  /**
   * Conservation: over all rows, no device is lost; the counts, the devices without a store and
   * those of unknown stores add up to the number of devices exactly when no device belongs to a
   * store that is listed twice.
   */
  lemma {:induction false} DevicesAreConserved(stores: seq<Dict>, devices: seq<Dict>)
    ensures Counted(stores, devices) + Unassigned(devices) + Unknown(stores, devices) >= |devices|
    ensures Counted(stores, devices) + Unassigned(devices) + Unknown(stores, devices) == |devices| <==>
        NoneTwice(stores, devices)
  {
    if devices == [] {
      NothingCounted(stores);
    } else {
      var n := |devices| - 1;
      DevicesAreConserved(stores, devices[..n]);
      OneMoreDevice(stores, devices);
      assert NoneTwice(stores, devices) <==> NoneTwice(stores, devices[..n]) && RowsOf(stores, devices[n]) <= 1;
    }
  }

  predicate DistinctIds(stores: seq<Dict>) {
    forall i, j | 0 <= i < j < |stores| :: Get(stores[i], "id", "") != Get(stores[j], "id", "")
  }

  lemma {:induction false} ListedOnce(stores: seq<Dict>, id: string)
    requires DistinctIds(stores)
    ensures Listed(stores, id) <= 1
    ensures Listed(stores, id) == 0 <==> forall i | 0 <= i < |stores| :: Get(stores[i], "id", "") != id
  {
    if stores != [] {
      ListedOnce(stores[..|stores| - 1], id);
    }
  }

  /** So with distinct store ids every device is accounted for in the rows that build_store_rows returns. */
  lemma DistinctStoresConserve(rows: seq<Row>, stores: seq<Dict>, clusters: seq<Dict>, branches: seq<Dict>,
                               devices: seq<Dict>)
    requires |rows| == |stores| && forall i | 0 <= i < |stores| ::
        rows[i] == RowOf(stores[i], clusters, branches, devices)
    requires DistinctIds(stores)
    ensures TotalCount(rows) + Unassigned(devices) + Unknown(stores, devices) == |devices|
  {
    RowsCount(rows, stores, clusters, branches, devices);
    forall i | 0 <= i < |devices| ensures RowsOf(stores, devices[i]) <= 1 {
      ListedOnce(stores, Get(devices[i], "store_id", ""));
    }
    DevicesAreConserved(stores, devices);
  }

  /** A member that is there and not empty. */
  predicate Tells(d: Dict, key: string) { key in d && d[key] != "" }

  /** What a row says of its store: its own members, and a dash for what is missing. */
  lemma RowSaysStore(store: Dict, clusters: seq<Dict>, branches: seq<Dict>, devices: seq<Dict>)
    ensures
      var row := RowOf(store, clusters, branches, devices);
      && row.name == (if "name" in store then store["name"] else "")
      && row.code == (if "code" in store then store["code"] else "")
      && row.format == (if Tells(store, "format") then store["format"] else "\U{2014}")
      && row.status == (if "status" in store then store["status"] else "\U{2014}")
  {
  }

  /** Its cluster is the last one with the store's cluster id, its branch the last one with the cluster's branch id. */
  lemma RowSaysPlace(store: Dict, clusters: seq<Dict>, branches: seq<Dict>, devices: seq<Dict>)
    ensures
      var row := RowOf(store, clusters, branches, devices);
      var cluster := LastById(clusters, if "cluster_id" in store then store["cluster_id"] else "");
      var branch := LastById(branches, if "branch_id" in cluster then cluster["branch_id"] else "");
      && row.clusterName == (if "name" in cluster then cluster["name"] else "\U{2014}")
      && row.branchName == (if "name" in branch then branch["name"] else "\U{2014}")
  {
  }
}
