/** What holds between worker rows, clusters, membership rows and keys in every reachable state, and
    why each kind of change keeps it. */
module Invariants {
  import opened Basics
  import opened Models
  import opened Rings
  import opened Tables
  import opened Addressing
  import opened Waitlists
  import opened Scheduling
  import R = Readiness

  // ---- The invariant ----

  /** Worker w is the member its membership row says it is. */
  ghost predicate Serves(cfg: Settings, db: Db, c: ClusterId, w: WorkerId)
    requires c in db.clusters && c in db.rings && w in db.rings[c]
  {
    var row := db.rings[c][w];
    && w in db.workers
    && db.workers[w].online
    && db.workers[w].status.Assigned?
    && db.workers[w].clusterId == Some(c)
    && db.workers[w].ringPosition == Some(row.ringPosition)
    && db.workers[w].assignedIp == row.assignedIp
    && db.workers[w].model == db.clusters[c].model
    && db.workers[w].model in cfg.models
    && db.workers[w].gguf == cfg.models[db.workers[w].model].gguf
  }

  ghost predicate MembersServe(cfg: Settings, db: Db)
    requires db.rings.Keys == db.clusters.Keys
  {
    forall c, w :: Active(db, c) && w in db.rings[c] ==> Serves(cfg, db, c, w)
  }

  /** A worker row points to an active cluster it is a member of, or to nothing and is waitlisted. */
  ghost predicate Placed(db: Db, w: WorkerId)
    requires db.rings.Keys == db.clusters.Keys && w in db.workers
  {
    match db.workers[w].clusterId
    case Some(c) => Active(db, c) && w in db.rings[c]
    case None =>
      db.workers[w].status.Waitlisted? && db.workers[w].assignedIp.None? && db.workers[w].ringPosition.None?
  }

  ghost predicate PointersHold(db: Db)
    requires db.rings.Keys == db.clusters.Keys
  {
    forall w :: w in db.workers ==> Placed(db, w)
  }

  /** The membership rows carry the subnet's hosts 1, 2, ... in ring order. */
  ghost predicate On(row: ClusterRow, ring: Ring, third: nat) {
    && 1 <= third <= LAST_THIRD
    && row.subnet == SubnetText(third)
    && forall w :: w in ring ==> ring[w].assignedIp == Some(HostText(third, ring[w].ringPosition + 1))
  }

  /** Live exactly when the gate is open. */
  ghost predicate Gated(row: ClusterRow, ring: Ring) {
    row.status.Live? <==> row.reported && forall w :: w in ring ==> ring[w].ready
  }

  ghost predicate ClusterHolds(row: ClusterRow, ring: Ring) {
    && Compact(row, ring)
    && (!row.status.Terminated? ==> ring != map[] && Gated(row, ring) && exists third :: On(row, ring, third))
  }

  ghost predicate ClustersHold(db: Db)
    requires db.rings.Keys == db.clusters.Keys
  {
    forall c :: c in db.clusters ==> ClusterHolds(db.clusters[c], db.rings[c])
  }

  ghost predicate SubnetsHold(db: Db) {
    forall c, d :: Active(db, c) && Active(db, d) && c != d ==> db.clusters[c].subnet != db.clusters[d].subnet
  }

  /** A key's bound worker belongs to the key's account. */
  ghost predicate KeysHold(db: Db) {
    forall k :: k in db.keys && db.keys[k].workerId.Some? ==>
      db.keys[k].workerId.value in db.workers &&
      db.workers[db.keys[k].workerId.value].accountId == db.keys[k].accountId
  }

  ghost predicate Inv(cfg: Settings, db: Db) {
    && Constraints(db) && Drawn(db)
    && MembersServe(cfg, db) && PointersHold(db) && ClustersHold(db) && SubnetsHold(db) && KeysHold(db)
  }

  lemma EmptyHolds(cfg: Settings)
    ensures Inv(cfg, EMPTY)
  {
  }

  // ---- Rewriting one worker row ----

  /** A rewrite that leaves a member's place alone and gives an unplaced worker none. */
  ghost predicate Harmless(before: Worker, after: Worker) {
    && after.workerId == before.workerId && after.accountId == before.accountId
    && after.clusterId == before.clusterId && after.assignedIp == before.assignedIp
    && after.ringPosition == before.ringPosition
    && (before.clusterId.Some? ==>
          after.online && after.status == before.status && after.model == before.model && after.gguf == before.gguf)
    && (before.clusterId.None? ==> after.status.Waitlisted?)
  }

  lemma HarmlessKeeps(cfg: Settings, db: Db, after: Worker)
    requires Inv(cfg, db) && after.workerId in db.workers
    requires Harmless(db.workers[after.workerId], after)
    ensures Inv(cfg, PutWorker(db, after))
  {
    hide ClusterHolds;
    var put := PutWorker(db, after);
    PutWorkerConstraints(db, after);
    assert put.clusters == db.clusters && put.rings == db.rings;
    assert put.workers == db.workers[after.workerId := after];
    hide PutWorker, Constraints;
    forall c, w | Active(put, c) && w in put.rings[c] ensures Serves(cfg, put, c, w) {
      assert Serves(cfg, db, c, w);
    }
    forall w | w in put.workers ensures Placed(put, w) {
      assert Placed(db, w);
    }
  }

  lemma InsertKeeps(cfg: Settings, db: Db, w: Worker)
    requires Inv(cfg, db) && w.workerId !in db.workers && w.workerId < db.next
    requires w.clusterId.None? && w.status.Waitlisted? && w.assignedIp.None? && w.ringPosition.None?
    ensures Inv(cfg, InsertWorker(db, w))
  {
    hide ClusterHolds;
    var after := InsertWorker(db, w);
    InsertWorkerConstraints(db, w);
    forall c, v | Active(after, c) && v in after.rings[c] ensures Serves(cfg, after, c, v) {
      assert Serves(cfg, db, c, v);
    }
    forall v | v in after.workers ensures Placed(after, v) {
      if v != w.workerId { assert Placed(db, v); }
    }
  }

  lemma DropKeeps(cfg: Settings, db: Db, w: WorkerId)
    requires Inv(cfg, db) && w in db.workers ==> db.workers[w].clusterId.None?
    requires Inv(cfg, db)
    ensures Inv(cfg, DropWorker(db, w))
  {
    hide ClusterHolds, Without;
    var after := DropWorker(db, w);
    DropWorkerConstraints(db, w);
    hide Constraints;
    assert after.clusters == db.clusters && after.rings == db.rings;
    forall c, v | Active(after, c) && v in after.rings[c] ensures Serves(cfg, after, c, v) {
      assert Serves(cfg, db, c, v);
    }
    forall v | v in after.workers ensures Placed(after, v) {
      assert Placed(db, v);
    }
  }

  // ---- Keys, identifiers, scan order ----

  lemma BindKeeps(cfg: Settings, db: Db, k: KeyId, w: WorkerId)
    requires Inv(cfg, db)
    requires k in db.keys && w in db.workers ==> db.workers[w].accountId == db.keys[k].accountId
    ensures Inv(cfg, BindKey(db, k, w))
  {
    SameTablesKeep(cfg, db, BindKey(db, k, w));
  }

  /** Rows of other tables may change freely around the three cluster tables. */
  lemma SameTablesKeep(cfg: Settings, db: Db, after: Db)
    requires Inv(cfg, db)
    requires after.workers == db.workers && after.clusters == db.clusters && after.rings == db.rings
    requires Enumerates(after.scan, after.workers.Keys) && after.next >= db.next
    requires forall k :: k in after.keys ==> k < after.next
    requires KeysHold(after)
    ensures Inv(cfg, after)
  {
    hide ClusterHolds;
    forall c, v | Active(after, c) && v in after.rings[c] ensures Serves(cfg, after, c, v) {
      assert Serves(cfg, db, c, v);
    }
    forall v | v in after.workers ensures Placed(after, v) {
      assert Placed(db, v);
    }
  }

  // ---- Reports ----

  /** A report on a cluster: everything but readiness and windows stays, and the gate is right. */
  ghost predicate Reported(before: R.Stored, after: R.Stored) {
    && after.row == before.row.(status := after.row.status, reported := after.row.reported)
    && !after.row.status.Terminated? && Compact(after.row, after.ring) && Gated(after.row, after.ring)
    && after.ring.Keys == before.ring.Keys
    && forall w :: w in after.ring ==> after.ring[w].ringPosition == before.ring[w].ringPosition &&
                                       after.ring[w].assignedIp == before.ring[w].assignedIp
  }

  lemma ReportKeeps(cfg: Settings, db: Db, c: ClusterId, s: R.Stored)
    requires Inv(cfg, db) && Active(db, c) && Reported(StoredAt(db, c), s)
    ensures Inv(cfg, PutStored(db, c, s))
  {
    hide ClusterHolds, MembersServe, PointersHold, SubnetsHold, ClustersHold, Gated;
    PutStoredConstraints(db, c, s);
    ReportMembers(cfg, db, c, s);
    ReportClusters(db, c, s);
  }

  lemma ReportMembers(cfg: Settings, db: Db, c: ClusterId, s: R.Stored)
    requires db.rings.Keys == db.clusters.Keys
    requires MembersServe(cfg, db) && PointersHold(db) && SubnetsHold(db) && Active(db, c)
    requires Reported(StoredAt(db, c), s)
    ensures MembersServe(cfg, PutStored(db, c, s))
    ensures PointersHold(PutStored(db, c, s)) && SubnetsHold(PutStored(db, c, s))
  {
    hide Compact, Gated;
    var after := PutStored(db, c, s);
    forall d, w | Active(after, d) && w in after.rings[d] ensures Serves(cfg, after, d, w) {
      assert Serves(cfg, db, d, w);
    }
    forall w | w in after.workers ensures Placed(after, w) {
      assert Placed(db, w);
    }
  }

  lemma ReportClusters(db: Db, c: ClusterId, s: R.Stored)
    requires db.rings.Keys == db.clusters.Keys && ClustersHold(db) && Active(db, c)
    requires Reported(StoredAt(db, c), s)
    ensures ClustersHold(PutStored(db, c, s))
  {
    ReportedClusterHolds(StoredAt(db, c), s);
    hide ClusterHolds, Reported;
  }

  lemma ReportedClusterHolds(before: R.Stored, s: R.Stored)
    requires ClusterHolds(before.row, before.ring) && !before.row.status.Terminated? && Reported(before, s)
    ensures ClusterHolds(s.row, s.ring)
  {
    hide Compact, Gated;
    var third :| On(before.row, before.ring, third);
    assert On(s.row, s.ring, third);
    assert before.ring.Keys != {};
  }

  /** mark_member_ready keeps the invariant. */
  lemma MarkReadyKeeps(cfg: Settings, db: Db, c: ClusterId, w: WorkerId)
    requires Inv(cfg, db)
    ensures Inv(cfg, MarkMemberReady(db, c, w))
  {
    if Active(db, c) {
      ActiveMarkReadyKeeps(cfg, db, c, w);
    } else if c in db.clusters {
      PutSame(db, c);
    }
  }

  lemma ActiveMarkReadyKeeps(cfg: Settings, db: Db, c: ClusterId, w: WorkerId)
    requires Inv(cfg, db) && Active(db, c)
    ensures Inv(cfg, PutStored(db, c, R.MarkReady(StoredAt(db, c), w)))
  {
    ActiveStored(cfg, db, c);
    hide Inv, R.MarkReady, PutStored, ClusterHolds, Reported, UniqueSlots;
    MarkReadyHolds(StoredAt(db, c), w);
    ReportKeeps(cfg, db, c, R.MarkReady(StoredAt(db, c), w));
  }

  lemma ActiveStored(cfg: Settings, db: Db, c: ClusterId)
    requires Inv(cfg, db) && Active(db, c)
    ensures c in db.rings && UniqueSlots(db.rings[c]) && ClusterHolds(db.clusters[c], db.rings[c])
  {
    hide ClusterHolds;
  }

  lemma MarkedCompact(row: ClusterRow, ring: Ring, w: WorkerId)
    requires Compact(row, ring)
    ensures Compact(row, R.MarkRow(ring, w)) && R.MarkRow(ring, w).Keys == ring.Keys
  {
    R.MarkRowSlots(ring, w);
    assert R.MarkRow(ring, w).Keys == ring.Keys;
  }

  lemma RegatedHolds(s: R.Stored)
    requires !s.row.status.Terminated? && Compact(s.row, s.ring)
    requires s.row.status.Live? ==> s.row.reported && forall w :: w in s.ring ==> s.ring[w].ready
    ensures var t := R.Regate(s);
            && t.row == s.row.(status := t.row.status) && !t.row.status.Terminated?
            && t.ring == s.ring && Compact(t.row, t.ring) && Gated(t.row, t.ring)
  {
    R.GateMeansEveryMember(0, s);
    hide R.GateOpen;
  }

  lemma MarkedRows(row: ClusterRow, ring: Ring, w: WorkerId)
    requires Gated(row, ring)
    ensures row.status.Live? ==> row.reported && forall v :: v in R.MarkRow(ring, w) ==> R.MarkRow(ring, w)[v].ready
    ensures forall v :: v in R.MarkRow(ring, w) && v in ring ==>
              R.MarkRow(ring, w)[v].ringPosition == ring[v].ringPosition &&
              R.MarkRow(ring, w)[v].assignedIp == ring[v].assignedIp
  {
  }

  lemma MarkReadyHolds(s: R.Stored, w: WorkerId)
    requires !s.row.status.Terminated? && ClusterHolds(s.row, s.ring)
    ensures UniqueSlots(s.ring) && Reported(s, R.MarkReady(s, w))
  {
    assert UniqueSlots(s.ring) && Compact(s.row, s.ring) && Gated(s.row, s.ring);
    hide Compact, ClusterHolds, Gated, R.Regate, R.MarkRow, UniqueSlots;
    R.MarkRowSlots(s.ring, w);
    MarkedCompact(s.row, s.ring, w);
    MarkedRows(s.row, s.ring, w);
    RegatedHolds(s.(ring := R.MarkRow(s.ring, w)));
  }

  /** set_cluster_distribution with a dictionary keeps the invariant. */
  lemma DistributionKeeps(cfg: Settings, db: Db, c: ClusterId, windows: map<WorkerId, nat>)
    requires Inv(cfg, db) && Active(db, c)
    ensures Inv(cfg, PutStored(db, c, R.SetDistribution(StoredAt(db, c), Some(windows))))
  {
    ActiveStored(cfg, db, c);
    hide Inv, R.SetDistribution, PutStored, ClusterHolds, Reported, UniqueSlots;
    SetDistributionHolds(StoredAt(db, c), windows);
    ReportKeeps(cfg, db, c, R.SetDistribution(StoredAt(db, c), Some(windows)));
  }

  lemma WrittenCompact(row: ClusterRow, ring: Ring, windows: map<WorkerId, nat>)
    requires Compact(row, ring)
    ensures Compact(row.(reported := true), R.SetWindows(ring, windows))
    ensures R.SetWindows(ring, windows).Keys == ring.Keys
  {
    R.SetWindowsSlots(ring, windows);
    assert R.SetWindows(ring, windows).Keys == ring.Keys;
  }

  lemma SetDistributionHolds(s: R.Stored, windows: map<WorkerId, nat>)
    requires !s.row.status.Terminated? && ClusterHolds(s.row, s.ring)
    ensures UniqueSlots(s.ring) && Reported(s, R.SetDistribution(s, Some(windows)))
  {
    assert UniqueSlots(s.ring) && Compact(s.row, s.ring) && Gated(s.row, s.ring);
    hide Compact, ClusterHolds, R.Regate, UniqueSlots;
    R.SetWindowsSlots(s.ring, windows);
    WrittenCompact(s.row, s.ring, windows);
    var written := R.Stored(s.row.(reported := true), R.SetWindows(s.ring, windows));
    RegatedHolds(written);
    assert R.SetDistribution(s, Some(windows)) == R.Regate(written);
    hide R.SetDistribution, Gated;
  }

  // ---- Retiring clusters ----

  /** The workers in `dead` offline, the clusters in `broken` terminated with their members released
      to the waitlist, and nothing else. */
  function Retire(db: Db, dead: set<WorkerId>, broken: set<ClusterId>): Db {
    db.(workers := map w | w in db.workers :: RetireWorker(db.workers[w], dead, broken),
        clusters := map c | c in db.clusters ::
                      if c in broken then db.clusters[c].(status := Terminated) else db.clusters[c])
  }

  function RetireWorker(w: Worker, dead: set<WorkerId>, broken: set<ClusterId>): Worker {
    var released := if w.clusterId.Some? && w.clusterId.value in broken then Release(w) else w;
    if w.workerId in dead then released.(online := false) else released
  }

  /** Every dead worker's cluster is among the broken ones. */
  ghost predicate Covers(db: Db, dead: set<WorkerId>, broken: set<ClusterId>) {
    forall w :: w in dead && w in db.workers && db.workers[w].clusterId.Some? ==>
      db.workers[w].clusterId.value in broken
  }

  lemma RetireConstraints(db: Db, dead: set<WorkerId>, broken: set<ClusterId>)
    requires Constraints(db)
    ensures Constraints(Retire(db, dead, broken))
  {
    assert Retire(db, dead, broken).workers.Keys == db.workers.Keys;
    assert Retire(db, dead, broken).clusters.Keys == db.clusters.Keys;
  }

  lemma RetireMembers(cfg: Settings, db: Db, dead: set<WorkerId>, broken: set<ClusterId>)
    requires Constraints(db) && MembersServe(cfg, db) && PointersHold(db) && Covers(db, dead, broken)
    ensures Retire(db, dead, broken).clusters.Keys == db.clusters.Keys
    ensures MembersServe(cfg, Retire(db, dead, broken)) && PointersHold(Retire(db, dead, broken))
  {
    var after := Retire(db, dead, broken);
    assert after.clusters.Keys == db.clusters.Keys;
    forall c, w | Active(after, c) && w in after.rings[c] ensures Serves(cfg, after, c, w) {
      assert Active(db, c) && c !in broken;
      assert Serves(cfg, db, c, w);
    }
    forall w | w in after.workers ensures Placed(after, w) {
      assert Placed(db, w);
    }
  }

  lemma RetireKeeps(cfg: Settings, db: Db, dead: set<WorkerId>, broken: set<ClusterId>)
    requires Inv(cfg, db) && Covers(db, dead, broken)
    ensures Inv(cfg, Retire(db, dead, broken))
  {
    RetireConstraints(db, dead, broken);
    RetireMembers(cfg, db, dead, broken);
    RetireClusters(db, dead, broken);
    hide Constraints, MembersServe, PointersHold, ClustersHold, Compact, RetireWorker;
    assert Retire(db, dead, broken).workers.Keys == db.workers.Keys;
    RetireKeys(db, dead, broken);
  }

  lemma RetireClusters(db: Db, dead: set<WorkerId>, broken: set<ClusterId>)
    requires db.rings.Keys == db.clusters.Keys && ClustersHold(db) && SubnetsHold(db)
    ensures Retire(db, dead, broken).clusters.Keys == db.clusters.Keys
    ensures ClustersHold(Retire(db, dead, broken)) && SubnetsHold(Retire(db, dead, broken))
  {
    hide ClusterHolds, RetireWorker;
    var after := Retire(db, dead, broken);
    assert after.clusters.Keys == db.clusters.Keys && after.rings == db.rings;
    forall c | c in after.clusters ensures ClusterHolds(after.clusters[c], after.rings[c]) {
      RetiredHolds(db.clusters[c], db.rings[c]);
    }
    hide ClustersHold;
    forall c, d | Active(after, c) && Active(after, d) && c != d
      ensures after.clusters[c].subnet != after.clusters[d].subnet
    {
      assert Active(db, c) && Active(db, d);
    }
  }

  lemma RetiredHolds(row: ClusterRow, ring: Ring)
    requires ClusterHolds(row, ring)
    ensures ClusterHolds(row.(status := Terminated), ring)
  {
  }

  lemma RetireKeys(db: Db, dead: set<WorkerId>, broken: set<ClusterId>)
    requires KeysHold(db)
    ensures KeysHold(Retire(db, dead, broken))
  {
  }

  /** Dissolving one active cluster is the special case without dead workers. */
  lemma DissolvedIsRetired(cfg: Settings, db: Db, c: ClusterId)
    requires Inv(cfg, db) && Active(db, c)
    ensures Dissolved(db, c) == Retire(db, {}, {c})
    ensures Dissolve(db, ClusterAt(db, c).value) == Effect(Dissolved(db, c), true)
    ensures Inv(cfg, Dissolved(db, c))
  {
    assert ClusterHolds(db.clusters[c], db.rings[c]);
    DissolveLoaded(db, c);
    DissolvedRows(cfg, db, c);
    RetireKeeps(cfg, db, {}, {c});
  }

  lemma DissolvedRows(cfg: Settings, db: Db, c: ClusterId)
    requires Constraints(db) && MembersServe(cfg, db) && PointersHold(db) && Active(db, c)
    ensures Dissolved(db, c) == Retire(db, {}, {c})
  {
    var left, right := Dissolved(db, c), Retire(db, {}, {c});
    forall w | w in db.workers ensures left.workers[w] == right.workers[w] {
      assert Placed(db, w);
      if w in db.rings[c] { assert Serves(cfg, db, c, w); }
    }
    assert left.workers == right.workers;
    assert left.clusters == right.clusters;
  }

  // ---- Forming ----

  lemma FormedKeeps(cfg: Settings, db: Db, after: Db, model: Token, chosen: seq<Worker>, third: nat, now: Time)
    requires Inv(cfg, db) && Formed(db, after, model, chosen, third, now) && Constraints(after)
    requires model in cfg.models && chosen != [] && Distinct(WorkerIds(chosen))
    requires forall w :: w in chosen ==>
               w.workerId in db.workers && db.workers[w.workerId] == w &&
               Eligible(w, model, cfg.models[model].gguf, now)
    requires 1 <= third <= LAST_THIRD && SubnetText(third) !in UsedSubnets(db)
    ensures Inv(cfg, after)
  {
    FormedMembers(cfg, db, after, model, chosen, third, now);
    FormedPointers(cfg, db, after, model, chosen, third, now);
    FormedClusters(db, after, model, chosen, third, now);
    FormedSubnets(db, after, model, chosen, third, now);
    FormedKeys(db, after, model, chosen, third, now);
    hide ClustersHold, MembersServe, PointersHold, SubnetsHold, KeysHold, FormedRing, FormedWorkers, Eligible,
         UsedSubnets;
  }

  lemma FormedKeys(db: Db, after: Db, model: Token, chosen: seq<Worker>, third: nat, now: Time)
    requires KeysHold(db) && Drawn(db) && Formed(db, after, model, chosen, third, now)
    requires forall v :: v in chosen ==> v.workerId in db.workers && db.workers[v.workerId] == v
    ensures KeysHold(after) && Drawn(after)
  {
    hide FormedRing, SubnetText, HostText;
    forall k | k in after.keys && after.keys[k].workerId.Some?
      ensures after.keys[k].workerId.value in after.workers &&
              after.workers[after.keys[k].workerId.value].accountId == after.keys[k].accountId
    {
      FormedAccount(db.workers, after.workers, db.next, chosen, third, after.keys[k].workerId.value);
    }
  }

  /** Forming changes no account. */
  lemma FormedAccount(before: map<WorkerId, Worker>, after: map<WorkerId, Worker>, id: ClusterId,
                      chosen: seq<Worker>, third: nat, w: WorkerId)
    requires FormedWorkers(before, after, id, chosen, third) && w in before
    requires forall v :: v in chosen ==> v.workerId in before && before[v.workerId] == v
    ensures after[w].accountId == before[w].accountId && after[w].workerId == before[w].workerId
    ensures w in WorkerIds(chosen) ==> exists i :: 0 <= i < |chosen| && chosen[i].workerId == w
  {
    if w in WorkerIds(chosen) {
      var i :| 0 <= i < |chosen| && WorkerIds(chosen)[i] == w;
      assert chosen[i] in chosen;
      assert chosen[i].workerId == w;
    }
  }

  lemma FormedMembers(cfg: Settings, db: Db, after: Db, model: Token, chosen: seq<Worker>, third: nat, now: Time)
    requires Constraints(db) && Constraints(after) && Drawn(db) && MembersServe(cfg, db) && PointersHold(db)
    requires Formed(db, after, model, chosen, third, now) && model in cfg.models
    requires forall w :: w in chosen ==>
               w.workerId in db.workers && db.workers[w.workerId] == w &&
               Eligible(w, model, cfg.models[model].gguf, now)
    ensures MembersServe(cfg, after)
  {
    hide SubnetText, HostText;
    forall c, w | Active(after, c) && w in after.rings[c] ensures Serves(cfg, after, c, w) {
      if c == db.next {
        assert w in Elements(WorkerIds(chosen));
        var i :| 0 <= i < |chosen| && WorkerIds(chosen)[i] == w;
        assert chosen[i] in chosen;
        assert after.workers[chosen[i].workerId] == Assign(chosen[i], db.next, HostText(third, i + 1), i);
      } else {
        assert Serves(cfg, db, c, w);
        UnchosenMember(cfg, db, model, chosen, now, w);
      }
    }
  }

  /** A worker that is assigned cannot be chosen. */
  lemma UnchosenMember(cfg: Settings, db: Db, model: Token, chosen: seq<Worker>, now: Time, w: WorkerId)
    requires w in db.workers && db.workers[w].status.Assigned? && model in cfg.models
    requires forall v :: v in chosen ==>
               v.workerId in db.workers && db.workers[v.workerId] == v &&
               Eligible(v, model, cfg.models[model].gguf, now)
    ensures w !in WorkerIds(chosen)
  {
    forall i | 0 <= i < |chosen| ensures WorkerIds(chosen)[i] != w {
      assert chosen[i] in chosen;
    }
  }

  lemma FormedPointers(cfg: Settings, db: Db, after: Db, model: Token, chosen: seq<Worker>, third: nat, now: Time)
    requires Constraints(db) && Constraints(after) && Drawn(db) && PointersHold(db)
    requires Formed(db, after, model, chosen, third, now)
    ensures PointersHold(after)
  {
    hide SubnetText, HostText, UniqueSlots, Enumerates;
    forall w | w in after.workers ensures Placed(after, w) {
      assert Placed(db, w);
      if w in WorkerIds(chosen) {
        FormedPointer(db, after, model, chosen, third, now, w);
      }
    }
  }

  lemma FormedPointer(db: Db, after: Db, model: Token, chosen: seq<Worker>, third: nat, now: Time, w: WorkerId)
    requires Formed(db, after, model, chosen, third, now) && w in WorkerIds(chosen)
    ensures w in after.workers && after.workers[w].clusterId == Some(db.next)
    ensures Active(after, db.next) && w in after.rings[db.next]
  {
    hide SubnetText, HostText;
    var i :| 0 <= i < |chosen| && WorkerIds(chosen)[i] == w;
    assert after.workers[chosen[i].workerId] == Assign(chosen[i], db.next, HostText(third, i + 1), i);
    assert w in Elements(WorkerIds(chosen));
  }

  lemma FormedClusters(db: Db, after: Db, model: Token, chosen: seq<Worker>, third: nat, now: Time)
    requires db.rings.Keys == db.clusters.Keys && Drawn(db) && ClustersHold(db)
    requires Formed(db, after, model, chosen, third, now)
    requires chosen != [] && Distinct(WorkerIds(chosen))
    requires 1 <= third <= LAST_THIRD
    ensures after.rings.Keys == after.clusters.Keys
    ensures ClustersHold(after)
  {
    FormedRingHolds(after.clusters[db.next], after.rings[db.next], chosen, third);
    hide ClusterHolds, FormedRing, FormedWorkers, SubnetText;
  }

  lemma FormedSubnets(db: Db, after: Db, model: Token, chosen: seq<Worker>, third: nat, now: Time)
    requires Drawn(db) && SubnetsHold(db)
    requires Formed(db, after, model, chosen, third, now)
    requires SubnetText(third) !in UsedSubnets(db)
    ensures SubnetsHold(after)
  {
    hide FormedRing, FormedWorkers, SubnetText, ReferencedSubnets;
    forall c, d | Active(after, c) && Active(after, d) && c != d
      ensures after.clusters[c].subnet != after.clusters[d].subnet
    {
      assert c != db.next ==> Active(db, c) && db.clusters[c].subnet in ActiveSubnets(db);
      assert d != db.next ==> Active(db, d) && db.clusters[d].subnet in ActiveSubnets(db);
    }
  }

  lemma FormedRingHolds(row: ClusterRow, ring: Ring, chosen: seq<Worker>, third: nat)
    requires FormedRing(ring, chosen, third) && chosen != [] && Distinct(WorkerIds(chosen))
    requires 1 <= third <= LAST_THIRD && row.subnet == SubnetText(third)
    requires row.status.Assembling? && !row.reported
    ensures ClusterHolds(row, ring)
  {
    hide SubnetText, HostText;
    var ids := WorkerIds(chosen);
    DistinctCardinality(ids);
    assert chosen[0].workerId in ring;
    forall w | w in ring
      ensures exists i :: 0 <= i < |chosen| && chosen[i].workerId == w
    {
      assert w in Elements(ids);
      var i :| 0 <= i < |ids| && ids[i] == w;
      assert chosen[i].workerId == w;
    }
    assert UniqueSlots(ring) by {
      forall v, w | v in ring && w in ring && v != w ensures ring[v].ringPosition != ring[w].ringPosition {
        var i :| 0 <= i < |chosen| && chosen[i].workerId == v;
        var j :| 0 <= j < |chosen| && chosen[j].workerId == w;
      }
    }
    forall w | w in ring ensures ring[w].assignedIp != Some("") {
      HostTextNonempty(third, ring[w].ringPosition + 1);
    }
    assert On(row, ring, third);
  }

  lemma HostTextNonempty(third: nat, host: nat)
    ensures HostText(third, host) != ""
  {
  }
}
