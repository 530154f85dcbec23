/** Routing a request to the head of a live cluster (router.py). */
module Routers {
  import opened Basics
  import opened Models
  import opened Rings
  import opened Tables
  import opened Addressing
  import opened Stores
  import opened Invariants
  import opened Consequences
  import Text

  predicate ServesModel(rec: ClusterRecord, model: Token) {
    rec.model == model && rec.status.Live?
  }

  class ClusterRouter {
    const store: Store
    const apiPort: nat

    constructor (store: Store, apiPort: nat)
      ensures this.store == store && this.apiPort == apiPort
    {
      this.store := store;
      this.apiPort := apiPort;
    }

    /** A live cluster of the model than which no other is older; none only if there is none. */
    method FindLiveCluster(model: Token) returns (found: Option<ClusterRecord>)
      requires store.Valid()
      ensures found.None? ==> NoneLive(store.View(), model)
      ensures found.Some? ==> IsOldestLive(store.View(), model, found.value)
    {
      var records := store.ListClusters();
      var i := 0;
      while i < |records|
        invariant 0 <= i <= |records|
        invariant forall k :: 0 <= k < i ==> !ServesModel(records[k], model)
      {
        if records[i].model == model && records[i].status == Live {
          ListedOldest(store.View(), records, model, i);
          return Some(records[i]);
        }
        i := i + 1;
      }
      ListedNone(store.View(), records, model);
      found := None;
    }
  }

  function HeadIp(rec: ClusterRecord): Option<string> {
    if rec.members == [] then None
    else if rec.members[0] in rec.ips then Some(rec.ips[rec.members[0]])
    else None
  }

  function HeadUrl(rec: ClusterRecord, apiPort: nat): Option<string> {
    if Truthy(HeadIp(rec)) then Some("http://" + HeadIp(rec).value + ":" + Text.Dec(apiPort)) else None
  }

  ghost predicate LiveFor(db: Db, model: Token, c: ClusterId) {
    c in db.clusters && db.clusters[c].model == model && db.clusters[c].status.Live?
  }

  ghost predicate NoneLive(db: Db, model: Token) {
    forall c :: c in db.clusters ==> !LiveFor(db, model, c)
  }

  ghost predicate IsOldestLive(db: Db, model: Token, rec: ClusterRecord)
    requires Constraints(db)
  {
    && LiveFor(db, model, rec.clusterId) && ClusterAt(db, rec.clusterId) == Some(rec)
    && forall c :: LiveFor(db, model, c) ==> db.clusters[rec.clusterId].createdAt <= db.clusters[c].createdAt
  }

  lemma ListedAt(db: Db, records: seq<ClusterRecord>, c: ClusterId) returns (k: nat)
    requires Constraints(db) && ListsClusters(db, records) && c in db.clusters
    ensures k < |records| && records[k].clusterId == c
    ensures records[k].model == db.clusters[c].model && records[k].status == db.clusters[c].status
  {
    assert c in Elements(ClusterIds(records));
    k :| 0 <= k < |records| && ClusterIds(records)[k] == c;
    assert ClusterAt(db, records[k].clusterId) == Some(records[k]);
  }

  lemma ListedOldest(db: Db, records: seq<ClusterRecord>, model: Token, i: nat)
    requires Constraints(db) && ListsClusters(db, records) && i < |records| && ServesModel(records[i], model)
    requires forall k :: 0 <= k < i ==> !ServesModel(records[k], model)
    ensures IsOldestLive(db, model, records[i])
  {
    assert ClusterAt(db, records[i].clusterId) == Some(records[i]);
    hide Constraints;
    forall c | LiveFor(db, model, c)
      ensures db.clusters[records[i].clusterId].createdAt <= db.clusters[c].createdAt
    {
      var k := ListedAt(db, records, c);
      assert ClusterIds(records)[i] in db.clusters && ClusterIds(records)[k] == c;
    }
  }

  lemma ListedNone(db: Db, records: seq<ClusterRecord>, model: Token)
    requires Constraints(db) && ListsClusters(db, records)
    requires forall k :: 0 <= k < |records| ==> !ServesModel(records[k], model)
    ensures NoneLive(db, model)
  {
    forall c | c in db.clusters ensures !LiveFor(db, model, c) {
      var k := ListedAt(db, records, c);
    }
  }

  /** In a reachable state a request is sent to a worker that is online, holds ring position 0 of a
      fully ready cluster, and has that very address, host 1 of the cluster's subnet. */
  lemma HeadReachable(cfg: Settings, db: Db, model: Token, rec: ClusterRecord, apiPort: nat) returns (third: nat)
    requires Inv(cfg, db) && Constraints(db) && IsOldestLive(db, model, rec)
    ensures rec.members != [] && 1 <= third <= LAST_THIRD && rec.subnet == SubnetText(third)
    ensures var head := rec.members[0];
            && head in db.workers && db.workers[head].online && db.workers[head].ringPosition == Some(0)
            && db.workers[head].clusterId == Some(rec.clusterId) && db.workers[head].model == model
            && db.workers[head].assignedIp == HeadIp(rec)
    ensures rec.ready == Elements(rec.members) && rec.layerWindows.Some?
    ensures HeadUrl(rec, apiPort) == Some("http://" + HostText(third, 1) + ":" + Text.Dec(apiPort))
  {
    var c := rec.clusterId;
    LiveRing(cfg, db, c);
    HeadModel(cfg, db, c);
    hide Inv, Constraints, HostText, SubnetText;
    third := MemberAt(cfg, db, c, 0);
    HostTextNonempty(third, 1);
  }

  lemma LiveRing(cfg: Settings, db: Db, c: ClusterId)
    requires Inv(cfg, db) && Constraints(db) && c in db.clusters && db.clusters[c].status.Live?
    ensures var rec := ClusterAt(db, c).value;
            rec.members != [] && rec.ready == Elements(rec.members) && rec.layerWindows.Some?
  {
    assert ClusterHolds(db.clusters[c], db.rings[c]);
    var ring := db.rings[c];
    assert Elements(RingOrder(ring)) == ring.Keys;
    hide Inv, Compact, Constraints, UniqueSlots, On;
    assert ReadyOf(ring) == ring.Keys;
    assert ring.Keys != {};
  }

  lemma HeadModel(cfg: Settings, db: Db, c: ClusterId)
    requires Inv(cfg, db) && Constraints(db) && c in db.clusters && db.clusters[c].status.Live?
    requires ClusterAt(db, c).value.members != []
    ensures var head := ClusterAt(db, c).value.members[0];
            head in db.workers && db.workers[head].model == db.clusters[c].model
  {
    var head := RingOrder(db.rings[c])[0];
    assert head in Elements(RingOrder(db.rings[c]));
    hide Constraints;
    MemberServes(cfg, db, c, head);
  }
}
