/** What one round of formation, one departure and one sweep do to the invariant, to the history of
    clusters and to the life signs of workers. */
module Transitions {
  import opened Basics
  import opened Models
  import opened Tables
  import opened Addressing
  import opened Waitlists
  import opened Scheduling
  import opened Invariants

  // ---- History ----

  /** A cluster keeps its identity, members, slots and addresses; once terminated it keeps everything. */
  ghost predicate SameHistory(row: ClusterRow, ring: Ring, laterRow: ClusterRow, laterRing: Ring) {
    && laterRow.model == row.model && laterRow.subnet == row.subnet && laterRow.createdAt == row.createdAt
    && laterRing.Keys == ring.Keys
    && (forall w :: w in ring ==> laterRing[w].ringPosition == ring[w].ringPosition &&
                                  laterRing[w].assignedIp == ring[w].assignedIp)
    && (row.status.Terminated? ==> laterRow == row && laterRing == ring)
  }

  ghost predicate Preserves(db: Db, after: Db) {
    && db.clusters.Keys <= db.rings.Keys && after.clusters.Keys <= after.rings.Keys
    && forall c :: c in db.clusters ==>
         c in after.clusters && SameHistory(db.clusters[c], db.rings[c], after.clusters[c], after.rings[c])
  }

  lemma PreservesChain(a: Db, b: Db, c: Db)
    requires Preserves(a, b) && Preserves(b, c)
    ensures Preserves(a, c)
  {
    forall d | d in a.clusters
      ensures d in c.clusters && SameHistory(a.clusters[d], a.rings[d], c.clusters[d], c.rings[d])
    {
      assert SameHistory(a.clusters[d], a.rings[d], b.clusters[d], b.rings[d]);
      assert SameHistory(b.clusters[d], b.rings[d], c.clusters[d], c.rings[d]);
    }
  }

  lemma SameClustersPreserve(db: Db, after: Db)
    requires db.clusters.Keys <= db.rings.Keys && after.clusters == db.clusters && after.rings == db.rings
    ensures Preserves(db, after)
  {
  }

  /** Clusters may be added; those that exist stay as they are. */
  ghost predicate Extends(db: Db, after: Db) {
    && db.clusters.Keys <= db.rings.Keys && after.clusters.Keys <= after.rings.Keys
    && forall c :: c in db.clusters ==>
         c in after.clusters && after.clusters[c] == db.clusters[c] && after.rings[c] == db.rings[c]
  }

  lemma ExtendsPreserves(db: Db, after: Db)
    requires Extends(db, after)
    ensures Preserves(db, after)
  {
  }

  // ---- Life signs ----

  /** Whoever is online afterwards already was, with the same heartbeat and the same grace period. */
  ghost predicate SameLife(db: Db, after: Db) {
    forall w :: w in after.workers && after.workers[w].online ==>
      && w in db.workers && db.workers[w].online
      && after.workers[w].lastHeartbeat == db.workers[w].lastHeartbeat
      && after.workers[w].assignableAt == db.workers[w].assignableAt
  }

  // ---- Forming one cluster ----

  /** The cluster is being assembled from workers that were online and past their grace period; nobody has
      reported anything. */
  ghost predicate Assembled(db: Db, row: ClusterRow, ring: Ring, now: Time) {
    && row.status.Assembling? && !row.reported
    && (forall w :: w in ring ==> w in db.workers && db.workers[w].online && db.workers[w].assignableAt <= now)
    && (forall w :: w in ring ==> !ring[w].ready)
  }

  /** So is every cluster that was not there before. */
  ghost predicate NewMembersReady(db: Db, after: Db, now: Time) {
    forall c :: c in after.clusters && c !in db.clusters && c in after.rings ==>
      Assembled(db, after.clusters[c], after.rings[c], now)
  }

  /** What forming clusters may change. */
  ghost predicate FormingEffect(db: Db, after: Db, now: Time) {
    && Drawn(after) && Extends(db, after) && SameLife(db, after) && NewMembersReady(db, after, now)
    && (forall w :: w in db.workers && !db.workers[w].online ==>
          w in after.workers && after.workers[w] == db.workers[w])
  }

  lemma FormedFacts(cfg: Settings, db: Db, after: Db, model: Token, chosen: seq<Worker>, third: nat, now: Time)
    requires Drawn(db) && db.rings.Keys == db.clusters.Keys
    requires Formed(db, after, model, chosen, third, now) && model in cfg.models
    requires forall w :: w in chosen ==>
               w.workerId in db.workers && db.workers[w.workerId] == w &&
               Eligible(w, model, cfg.models[model].gguf, now)
    ensures FormingEffect(db, after, now)
  {
    hide SubnetText, HostText, FormedRing, FormedWorkers;
    forall w | w in after.workers
      ensures w in db.workers
      ensures after.workers[w].lastHeartbeat == db.workers[w].lastHeartbeat
      ensures after.workers[w].assignableAt == db.workers[w].assignableAt
      ensures after.workers[w].online == db.workers[w].online
      ensures !db.workers[w].online ==> after.workers[w] == db.workers[w]
    {
      FormedRow(cfg, db, after, model, chosen, third, now, w);
    }
    assert after.workers.Keys == db.workers.Keys by { FormedKeysKept(db, after, model, chosen, third, now); }
    assert after.clusters[db.next].status.Assembling? && !after.clusters[db.next].reported;
    forall c | c in after.clusters && c !in db.clusters && c in after.rings
      ensures Assembled(db, after.clusters[c], after.rings[c], now)
    {
      assert c == db.next;
      FormedMembersReady(cfg, db, after.rings[c], model, chosen, third, now);
    }
  }

  lemma FormedKeysKept(db: Db, after: Db, model: Token, chosen: seq<Worker>, third: nat, now: Time)
    requires Formed(db, after, model, chosen, third, now)
    ensures after.workers.Keys == db.workers.Keys
  {
  }

  lemma FormedRow(cfg: Settings, db: Db, after: Db, model: Token, chosen: seq<Worker>, third: nat, now: Time,
                  w: WorkerId)
    requires Formed(db, after, model, chosen, third, now) && model in cfg.models && w in after.workers
    requires forall v :: v in chosen ==>
               v.workerId in db.workers && db.workers[v.workerId] == v &&
               Eligible(v, model, cfg.models[model].gguf, now)
    ensures w in db.workers
    ensures after.workers[w].lastHeartbeat == db.workers[w].lastHeartbeat
    ensures after.workers[w].assignableAt == db.workers[w].assignableAt
    ensures after.workers[w].online == db.workers[w].online
    ensures !db.workers[w].online ==> after.workers[w] == db.workers[w]
  {
    hide SubnetText, HostText, FormedRing;
    if w in WorkerIds(chosen) {
      var i :| 0 <= i < |chosen| && WorkerIds(chosen)[i] == w;
      assert chosen[i] in chosen;
      assert after.workers[chosen[i].workerId] == Assign(chosen[i], db.next, HostText(third, i + 1), i);
    }
  }

  lemma FormedMembersReady(cfg: Settings, db: Db, ring: Ring, model: Token, chosen: seq<Worker>, third: nat, now: Time)
    requires FormedRing(ring, chosen, third) && model in cfg.models
    requires forall v :: v in chosen ==>
               v.workerId in db.workers && db.workers[v.workerId] == v &&
               Eligible(v, model, cfg.models[model].gguf, now)
    ensures forall w :: w in ring ==> w in db.workers && db.workers[w].online && db.workers[w].assignableAt <= now
    ensures forall w :: w in ring ==> !ring[w].ready
  {
    hide SubnetText, HostText;
    forall w | w in ring
      ensures w in db.workers && db.workers[w].online && db.workers[w].assignableAt <= now
      ensures !ring[w].ready
    {
      assert w in Elements(WorkerIds(chosen));
      var i :| 0 <= i < |chosen| && WorkerIds(chosen)[i] == w;
      assert chosen[i] in chosen;
    }
  }

  lemma UnformedFacts(cfg: Settings, db: Db, after: Db, now: Time)
    requires Constraints(db) && Drawn(db) && (after == db || after == db.(next := db.next + 1))
    ensures FormingEffect(db, after, now)
    ensures Inv(cfg, db) ==> Inv(cfg, after)
  {
    if Inv(cfg, db) {
      SameTablesKeep(cfg, db, after);
    }
  }

  lemma FormedEffect(cfg: Settings, db: Db, model: Token, now: Time)
    requires Constraints(db) && Drawn(db)
    requires Chosen(cfg, db, model, now) != [] && NextSubnet(db).Some?
    requires Constraints(FormCluster(cfg, db, model, now).db)
    ensures FormingEffect(db, FormCluster(cfg, db, model, now).db, now)
    ensures Inv(cfg, db) ==> Inv(cfg, FormCluster(cfg, db, model, now).db)
  {
    hide FormCluster, Chosen, Formed, FormingEffect, NextSubnet, UsedSubnets, SubnetText;
    var third := FormClusterForms(cfg, db, model, now);
    ChosenSpec(cfg, db, model, now);
    FormedFacts(cfg, db, FormCluster(cfg, db, model, now).db, model, Chosen(cfg, db, model, now), third, now);
    if Inv(cfg, db) {
      FormedKeeps(cfg, db, FormCluster(cfg, db, model, now).db, model, Chosen(cfg, db, model, now), third, now);
    }
  }

  /** One _form_cluster, whatever it does. */
  lemma FormFacts(cfg: Settings, db: Db, model: Token, now: Time)
    requires Constraints(db) && Drawn(db)
    ensures Constraints(FormCluster(cfg, db, model, now).db)
    ensures FormingEffect(db, FormCluster(cfg, db, model, now).db, now)
    ensures Inv(cfg, db) ==> Inv(cfg, FormCluster(cfg, db, model, now).db)
  {
    hide Inv, FormingEffect, Chosen, NextSubnet, Constraints, FormOn;
    FormClusterConstraints(cfg, db, model, now);
    if Chosen(cfg, db, model, now) != [] && NextSubnet(db).Some? {
      FormedEffect(cfg, db, model, now);
    } else {
      UnformedFacts(cfg, db, FormCluster(cfg, db, model, now).db, now);
    }
  }

  /** A whole round of formation. */
  lemma {:induction false} RoundFacts(cfg: Settings, db: Db, models: seq<Token>, now: Time)
    requires Constraints(db) && Drawn(db)
    ensures Constraints(CheckAndForm(cfg, db, models, now).db)
    ensures FormingEffect(db, CheckAndForm(cfg, db, models, now).db, now)
    ensures Inv(cfg, db) ==> Inv(cfg, CheckAndForm(cfg, db, models, now).db)
    decreases |models|
  {
    hide FormCluster, Inv;
    if models == [] {
      UnformedFacts(cfg, db, db, now);
    } else {
      FormFacts(cfg, db, models[0], now);
      var first := FormCluster(cfg, db, models[0], now);
      if first.ok {
        RoundFacts(cfg, first.db, models[1..], now);
        hide Constraints;
        ChainFacts(db, first.db, CheckAndForm(cfg, first.db, models[1..], now).db, now);
      }
    }
  }

  lemma ChainFacts(db: Db, mid: Db, after: Db, now: Time)
    requires FormingEffect(db, mid, now) && FormingEffect(mid, after, now)
    ensures FormingEffect(db, after, now)
  {
    ChainNewMembers(db, mid, after, now);
    hide NewMembersReady;
  }

  lemma ChainNewMembers(db: Db, mid: Db, after: Db, now: Time)
    requires NewMembersReady(db, mid, now) && NewMembersReady(mid, after, now)
    requires Extends(mid, after) && SameLife(db, mid)
    ensures NewMembersReady(db, after, now)
  {
    forall c | c in after.clusters && c !in db.clusters && c in after.rings
      ensures Assembled(db, after.clusters[c], after.rings[c], now)
    {
      if c in mid.clusters {
        assert Assembled(db, mid.clusters[c], mid.rings[c], now);
      } else {
        assert Assembled(mid, after.clusters[c], after.rings[c], now);
      }
    }
  }

  // ---- Departures and sweeps ----

  lemma RetireFacts(cfg: Settings, db: Db, dead: set<WorkerId>, broken: set<ClusterId>)
    requires Constraints(db)
    ensures Preserves(db, Retire(db, dead, broken)) && SameLife(db, Retire(db, dead, broken))
    ensures Retire(db, dead, broken).clusters.Keys == db.clusters.Keys
  {
    assert Retire(db, dead, broken).clusters.Keys == db.clusters.Keys;
  }

  /** on_worker_offline and on_worker_leave in a reachable state: at most the worker's own cluster
      is dissolved, and afterwards the worker is unplaced. */
  lemma GoneFacts(cfg: Settings, db: Db, w: WorkerId)
    requires Inv(cfg, db) && w in db.workers
    ensures var e := WorkerGone(db, db.workers[w]);
            && e.ok && Inv(cfg, e.db) && Preserves(db, e.db) && SameLife(db, e.db)
            && w in e.db.workers && e.db.workers[w].clusterId.None?
            && e.db.clusters.Keys == db.clusters.Keys
  {
    assert Placed(db, w);
    var c := db.workers[w].clusterId;
    if c.None? {
      SameClustersPreserve(db, db);
    } else {
      DissolvedIsRetired(cfg, db, c.value);
      RetireFacts(cfg, db, {}, {c.value});
    }
  }
}
