/** Every request handler and the sweep keep the invariant, the history of clusters and the life
    signs; the one exception is the registration of a device that is in a cluster. */
module Steps {
  import opened Basics
  import opened Models
  import opened Rings
  import opened Tables
  import opened Scheduling
  import opened Invariants
  import opened Liveness
  import opened Ranks
  import opened Handlers
  import opened Transitions
  import R = Readiness

  datatype Step =
    | CreateKey(account: AccountId, scope: KeyScope)
    | RevokeKey(key: KeyId)
    | RegisterWorker(cred: Credential, body: RegisterBody, now: Time)
    | SendHeartbeat(cred: Credential, worker: WorkerId, now: Time)
    | RevokeWorker(cred: Credential, worker: WorkerId)
    | ReadState(cred: Credential, worker: WorkerId)
    | ReadConfig(cred: Credential, cluster: ClusterId)
    | ReportReady(cred: Credential, cluster: ClusterId, layers: Option<Payload>)
    | SendFrame(worker: WorkerId, cluster: ClusterId, frame: FrameWindows)
    | SweepOnce(now: Time)
    | Rescan(order: seq<WorkerId>)

  /** The database after one step. Rescan lets the engine return table scans in another order. */
  ghost function Apply(cfg: Settings, db: Db, step: Step): Db
    requires Constraints(db)
  {
    match step
    case CreateKey(a, scope) => db.(keys := db.keys[db.next := ApiKey(a, scope, None)], next := db.next + 1)
    case RevokeKey(k) => db.(keys := db.keys - {k})
    case RegisterWorker(cred, body, now) => Register(cfg, db, cred, body, now).db
    case SendHeartbeat(cred, w, now) => Heartbeat(cfg, db, cred, w, now).db
    case RevokeWorker(cred, w) => Revoke(db, cred, w).db
    case ReadState(cred, w) => WorkerFromKey(db, cred, w).db
    case ReadConfig(cred, c) => if c in db.clusters then BoundWorker(db, cred, c).db else db
    case ReportReady(cred, c, layers) => Ready(db, cred, c, layers).db
    case SendFrame(w, c, frame) => Frame(db, w, c, frame)
    case SweepOnce(now) => Sweep(db, now, cfg.heartbeatTimeout)
    case Rescan(order) => if Enumerates(order, db.workers.Keys) then db.(scan := order) else db
  }

  /** The row that a registration would re-advertise, if it comes to that. */
  function Reregistered(cfg: Settings, db: Db, cred: Credential, body: RegisterBody, now: Time): Option<Worker>
    requires Constraints(db)
  {
    if !(cred.KeyCredential? && cred.key in db.keys && db.keys[cred.key].scope.WorkerScope?) then None
    else if !Admissible(cfg, body) then None
    else
      var a := db.keys[cred.key].accountId;
      var drawn := db.(next := db.next + 1);
      if CanCreate(drawn, NewWorker(db.next, a, body, now), cfg.maxWorkersPerAccount) then None
      else Returning(cfg, drawn, a, body)
  }

  /** Every step, except that a device registering again must not be in a cluster. */
  ghost predicate Allowed(cfg: Settings, db: Db, step: Step)
    requires Constraints(db)
  {
    match step
    case RegisterWorker(cred, body, now) =>
      Reregistered(cfg, db, cred, body, now).Some? ==> Reregistered(cfg, db, cred, body, now).value.clusterId.None?
    case _ => true
  }

  // ---- Lookups ----

  lemma {:induction false} OfAccountSpec(rows: seq<Worker>, a: AccountId)
    ensures forall w :: w in OfAccount(rows, a) <==> w in rows && w.accountId == a
  {
    if rows != [] {
      OfAccountSpec(rows[1..], a);
      assert rows == [rows[0]] + rows[1..];
    }
  }

  lemma {:induction false} FirstDeviceSpec(existing: seq<Worker>, pubkey: Token)
    ensures FirstDevice(existing, pubkey).Some? ==>
              FirstDevice(existing, pubkey).value in existing && FirstDevice(existing, pubkey).value.wgPubkey == pubkey
    ensures FirstDevice(existing, pubkey).None? ==> forall w :: w in existing ==> w.wgPubkey != pubkey
  {
    if existing != [] {
      FirstDeviceSpec(existing[1..], pubkey);
      assert existing == [existing[0]] + existing[1..];
    }
  }

  lemma {:induction false} MembersOfSpec(rows: seq<Worker>, a: AccountId, c: ClusterId)
    ensures forall w :: w in MembersOf(rows, a, c) <==> w in rows && w.accountId == a && w.clusterId == Some(c)
  {
    if rows != [] {
      MembersOfSpec(rows[1..], a, c);
      assert rows == [rows[0]] + rows[1..];
    }
  }

  /** The re-advertised row is a row of the table, of the same account and device. */
  lemma ReturningSpec(cfg: Settings, db: Db, a: AccountId, body: RegisterBody)
    requires Constraints(db)
    ensures Returning(cfg, db, a, body).Some? ==>
              var prev := Returning(cfg, db, a, body).value;
              prev.workerId in db.workers && db.workers[prev.workerId] == prev &&
              prev.accountId == a && prev.wgPubkey == body.wgPubkey
  {
    RowsDistinct(db);
    OfAccountSpec(Rows(db), a);
    FirstDeviceSpec(OfAccount(Rows(db), a), body.wgPubkey);
  }

  // ---- Keys ----

  lemma BindFacts(cfg: Settings, db: Db, key: Option<KeyId>, w: WorkerId)
    requires Inv(cfg, db)
    requires key.Some? && key.value in db.keys && w in db.workers ==>
               db.workers[w].accountId == db.keys[key.value].accountId
    ensures Inv(cfg, Bind(db, key, w)) && Preserves(db, Bind(db, key, w)) && SameLife(db, Bind(db, key, w))
  {
    if key.Some? { BindKeeps(cfg, db, key.value, w); }
    SameClustersPreserve(db, Bind(db, key, w));
  }

  lemma WorkerFromKeyFacts(cfg: Settings, db: Db, cred: Credential, w: WorkerId)
    requires Inv(cfg, db)
    ensures var found := WorkerFromKey(db, cred, w);
            && Inv(cfg, found.db) && Preserves(db, found.db) && SameLife(db, found.db)
            && found.db == db.(keys := found.db.keys)
            && (found.worker.Some? ==>
                  w in db.workers && found.worker.value == db.workers[w] && db.workers[w].workerId == w)
  {
    hide Inv, Bind;
    assert Constraints(db) by { InvConstraints(cfg, db); }
    SameClustersPreserve(db, db);
    var caller := Resolve(db, cred);
    if caller.Some? && w in db.workers && db.workers[w].accountId == caller.value.accountId {
      BindFacts(cfg, db, caller.value.key, w);
      BindOnlyKeys(db, caller.value.key, w);
    }
  }

  lemma BindOnlyKeys(db: Db, key: Option<KeyId>, w: WorkerId)
    ensures Bind(db, key, w) == db.(keys := Bind(db, key, w).keys)
  {
  }

  lemma InvConstraints(cfg: Settings, db: Db)
    requires Inv(cfg, db)
    ensures Constraints(db) && Drawn(db)
  {
  }

  /** Whom _bound_worker returns: the key's own worker whenever it is in the cluster, otherwise the
      caller's only worker there; always a worker of the caller's account that is in the cluster. */
  lemma BoundWorkerSound(cfg: Settings, db: Db, cred: Credential, c: ClusterId)
    requires Inv(cfg, db)
    ensures var found := BoundWorker(db, cred, c);
            found.worker.Some? ==>
              var w := found.worker.value;
              && w.workerId in db.workers && db.workers[w.workerId] == w
              && w.clusterId == Some(c) && Active(db, c) && w.workerId in db.rings[c]
              && Resolve(db, cred).Some? && w.accountId == Resolve(db, cred).value.accountId
    ensures forall b :: Resolve(db, cred).Some? && Resolve(db, cred).value.bound == Some(b) &&
                        b in db.workers && db.workers[b].clusterId == Some(c) ==>
              BoundWorker(db, cred, c).worker == Some(db.workers[b])
  {
    InvConstraints(cfg, db);
    hide Inv, Constraints, MembersOf, Rows, Bind;
    var found := BoundWorker(db, cred, c);
    if found.worker.Some? {
      BoundWorkerRow(db, cred, c);
      PlacedMember(cfg, db, found.worker.value.workerId, c) by { BoundWorkerAccount(cfg, db, cred, c); }
      BoundWorkerAccount(cfg, db, cred, c);
    }
  }

  /** The worker returned is a row that points to the cluster. */
  lemma BoundWorkerRow(db: Db, cred: Credential, c: ClusterId)
    requires Constraints(db) && BoundWorker(db, cred, c).worker.Some?
    ensures var w := BoundWorker(db, cred, c).worker.value;
            && w.workerId in db.workers && db.workers[w.workerId] == w && w.clusterId == Some(c)
            && Resolve(db, cred).Some?
            && (w.accountId == Resolve(db, cred).value.accountId || Resolve(db, cred).value.bound == Some(w.workerId))
  {
    var caller := Resolve(db, cred);
    var w := BoundWorker(db, cred, c).worker.value;
    if caller.value.bound.Some? && caller.value.bound.value in db.workers &&
       db.workers[caller.value.bound.value].clusterId == Some(c) {
      assert db.workers[caller.value.bound.value].workerId == caller.value.bound.value;
    } else {
      OnlyMember(db, caller.value.accountId, c);
    }
    hide Constraints, MembersOf, Rows, Bind;
  }

  lemma BoundWorkerAccount(cfg: Settings, db: Db, cred: Credential, c: ClusterId)
    requires Inv(cfg, db) && Constraints(db) && BoundWorker(db, cred, c).worker.Some?
    ensures Resolve(db, cred).Some?
    ensures BoundWorker(db, cred, c).worker.value.accountId == Resolve(db, cred).value.accountId
    ensures BoundWorker(db, cred, c).worker.value.workerId in db.workers
  {
    assert KeysHold(db);
    hide Inv, Constraints, BoundWorker;
    BoundWorkerRow(db, cred, c);
  }

  lemma PlacedMember(cfg: Settings, db: Db, w: WorkerId, c: ClusterId)
    requires Inv(cfg, db) && w in db.workers && db.workers[w].clusterId == Some(c)
    ensures Active(db, c) && c in db.rings && w in db.rings[c]
  {
    assert Placed(db, w);
  }

  lemma BoundWorkerFacts(cfg: Settings, db: Db, cred: Credential, c: ClusterId)
    requires Inv(cfg, db)
    ensures var found := BoundWorker(db, cred, c);
            && Inv(cfg, found.db) && Preserves(db, found.db) && SameLife(db, found.db)
            && found.db == db.(keys := found.db.keys)
  {
    InvConstraints(cfg, db);
    hide Inv, Bind, BoundWorker, Constraints, Preserves, SameLife;
    var key, w := BoundWorkerBinds(db, cred, c);
    BindFacts(cfg, db, key, w);
    BindOnlyKeys(db, key, w);
  }

  /** All that _bound_worker may change is one key binding, to a worker of the key's account. */
  lemma BoundWorkerBinds(db: Db, cred: Credential, c: ClusterId) returns (key: Option<KeyId>, w: WorkerId)
    requires Constraints(db)
    ensures BoundWorker(db, cred, c).db == Bind(db, key, w)
    ensures key.Some? && key.value in db.keys && w in db.workers ==>
              db.workers[w].accountId == db.keys[key.value].accountId
  {
    key, w := None, 0;
    assert Bind(db, None, 0) == db;
    var caller := Resolve(db, cred);
    if BoundWorker(db, cred, c).db != db {
      assert caller.Some? && |MembersOf(Rows(db), caller.value.accountId, c)| == 1;
      key, w := caller.value.key, MembersOf(Rows(db), caller.value.accountId, c)[0].workerId;
      OnlyMember(db, caller.value.accountId, c);
      CallerKey(db, cred);
      hide Bind, MembersOf, Constraints, Rows;
    }
  }

  lemma CallerKey(db: Db, cred: Credential)
    ensures var caller := Resolve(db, cred);
            caller.Some? && caller.value.key.Some? ==>
              caller.value.key.value in db.keys && db.keys[caller.value.key.value].accountId == caller.value.accountId
  {
  }

  lemma SameLifeItself(db: Db)
    ensures SameLife(db, db)
  {
  }

  lemma OnlyMember(db: Db, a: AccountId, c: ClusterId)
    requires Constraints(db) && |MembersOf(Rows(db), a, c)| == 1
    ensures var w := MembersOf(Rows(db), a, c)[0];
            w.workerId in db.workers && db.workers[w.workerId] == w && w.accountId == a && w.clusterId == Some(c)
  {
    RowsDistinct(db);
    MembersOfSpec(Rows(db), a, c);
    assert MembersOf(Rows(db), a, c)[0] in MembersOf(Rows(db), a, c);
  }

  // ---- Reports ----

  lemma ReportPreserves(db: Db, c: ClusterId, s: R.Stored)
    requires Constraints(db) && c in db.clusters
    requires SameHistory(db.clusters[c], db.rings[c], s.row, s.ring)
    ensures Preserves(db, PutStored(db, c, s)) && SameLife(db, PutStored(db, c, s))
  {
    forall d | d in db.clusters
      ensures SameHistory(db.clusters[d], db.rings[d], PutStored(db, c, s).clusters[d], PutStored(db, c, s).rings[d])
    {
    }
  }

  lemma MarkFacts(cfg: Settings, db: Db, c: ClusterId, w: WorkerId)
    requires Inv(cfg, db)
    ensures var after := MarkMemberReady(db, c, w);
            Inv(cfg, after) && Preserves(db, after) && SameLife(db, after)
  {
    MarkReadyKeeps(cfg, db, c, w);
    InvConstraints(cfg, db);
    if c in db.clusters {
      MarkHistory(StoredAt(db, c), w);
      hide Inv, Constraints, SameHistory, R.MarkReady;
      ReportPreserves(db, c, R.MarkReady(StoredAt(db, c), w));
    } else {
      SameClustersPreserve(db, db);
    }
  }

  lemma MarkHistory(s: R.Stored, w: WorkerId)
    requires UniqueSlots(s.ring)
    ensures SameHistory(s.row, s.ring, R.MarkReady(s, w).row, R.MarkReady(s, w).ring)
  {
    hide R.GateOpen, R.Load, UniqueSlots;
    assert R.MarkRow(s.ring, w).Keys == s.ring.Keys;
  }

  lemma DistributionHistory(s: R.Stored, windows: map<WorkerId, nat>)
    requires UniqueSlots(s.ring)
    ensures var after := R.SetDistribution(s, Some(windows));
            SameHistory(s.row, s.ring, after.row, after.ring)
  {
    assert R.SetWindows(s.ring, windows).Keys == s.ring.Keys;
  }

  lemma DistributeFacts(cfg: Settings, db: Db, c: ClusterId, windows: map<WorkerId, nat>)
    requires Inv(cfg, db)
    ensures var after := Distribute(db, c, windows);
            Inv(cfg, after) && Preserves(db, after) && SameLife(db, after)
  {
    InvConstraints(cfg, db);
    if c in db.clusters {
      if Active(db, c) {
        DistributionKeeps(cfg, db, c, windows);
      } else {
        PutSame(db, c);
      }
      DistributionHistory(StoredAt(db, c), windows);
      hide Inv, Constraints, SameHistory, R.SetDistribution;
      ReportPreserves(db, c, R.SetDistribution(StoredAt(db, c), Some(windows)));
    } else {
      SameClustersPreserve(db, db);
    }
  }

  /** What a ready report writes: nothing, a key binding, a mark, or a distribution and a mark. */
  lemma ReadyCases(db: Db, cred: Credential, c: ClusterId, layers: Option<Payload>)
    returns (w: WorkerId, windows: map<WorkerId, nat>)
    requires Constraints(db)
    ensures Constraints(BoundWorker(db, cred, c).db) && Constraints(Distribute(BoundWorker(db, cred, c).db, c, windows))
    ensures var found, after := BoundWorker(db, cred, c).db, Ready(db, cred, c, layers).db;
            || after == db
            || after == found
            || after == MarkMemberReady(found, c, w)
            || after == MarkMemberReady(Distribute(found, c, windows), c, w)
  {
    w := 0;
    windows := map[];
    BoundWorkerConstraints(db, cred, c);
    var found := BoundWorker(db, cred, c);
    if c in db.clusters && found.worker.Some? {
      w := found.worker.value.workerId;
      windows := ByWorker(ClusterAt(db, c).value.members, Counts(if layers.Some? then layers.value else []));
    }
    DistributeConstraints(found.db, c, windows);
    hide Constraints, BoundWorker, Distribute, MarkMemberReady, ByWorker, Counts, RingOrder, UniqueSlots, IpsOf,
         WindowsOf, ReadyOf;
  }

  lemma ReadyFacts(cfg: Settings, db: Db, cred: Credential, c: ClusterId, layers: Option<Payload>)
    requires Inv(cfg, db)
    ensures var after := Ready(db, cred, c, layers).db;
            Inv(cfg, after) && Preserves(db, after) && SameLife(db, after)
  {
    assert Constraints(db) by { InvConstraints(cfg, db); }
    SameClustersPreserve(db, db);
    hide Inv, Preserves, SameLife, BoundWorker, Distribute, MarkMemberReady, Constraints, Ready;
    SameLifeItself(db);
    BoundWorkerFacts(cfg, db, cred, c);
    var found, after := BoundWorker(db, cred, c).db, Ready(db, cred, c, layers).db;
    var w, windows := ReadyCases(db, cred, c, layers);
    ReportedFacts(cfg, found, c, windows, w);
    MarkFacts(cfg, found, c, w);
    ChainPreserves(db, found, MarkMemberReady(found, c, w));
    ChainPreserves(db, found, MarkMemberReady(Distribute(found, c, windows), c, w));
  }

  /** The head's report, then its ready mark. */
  lemma ReportedFacts(cfg: Settings, db: Db, c: ClusterId, windows: map<WorkerId, nat>, w: WorkerId)
    requires Inv(cfg, db)
    ensures Constraints(db) && Constraints(Distribute(db, c, windows))
    ensures var after := MarkMemberReady(Distribute(db, c, windows), c, w);
            Inv(cfg, after) && Preserves(db, after) && SameLife(db, after)
  {
    InvConstraints(cfg, db);
    hide Inv, Preserves, SameLife, Distribute, MarkMemberReady, Constraints;
    DistributeFacts(cfg, db, c, windows);
    InvConstraints(cfg, Distribute(db, c, windows));
    MarkFacts(cfg, Distribute(db, c, windows), c, w);
    ChainPreserves(db, Distribute(db, c, windows), MarkMemberReady(Distribute(db, c, windows), c, w));
  }

  lemma ChainPreserves(a: Db, b: Db, c: Db)
    requires Preserves(a, b) && SameLife(a, b) && Preserves(b, c) && SameLife(b, c)
    ensures Preserves(a, c) && SameLife(a, c)
  {
    PreservesChain(a, b, c);
  }

  lemma FrameFacts(cfg: Settings, db: Db, w: WorkerId, c: ClusterId, frame: FrameWindows)
    requires Inv(cfg, db)
    ensures var after := Frame(db, w, c, frame);
            Inv(cfg, after) && Preserves(db, after) && SameLife(db, after)
  {
    assert Constraints(db) by { InvConstraints(cfg, db); }
    SameClustersPreserve(db, db);
    SameLifeItself(db);
    hide Inv, Preserves, SameLife, Distribute, ByWorker, Counts, ClusterAt, Constraints;
    if c in db.clusters {
      var windows := if frame.Object? then ByWorker(ClusterAt(db, c).value.members, Counts(frame.payload)) else map[];
      DistributeFacts(cfg, db, c, windows);
      assert Frame(db, w, c, frame) == db || Frame(db, w, c, frame) == Distribute(db, c, windows);
    }
  }

  // ---- Leaving and sweeping ----

  lemma RevokeFacts(cfg: Settings, db: Db, cred: Credential, w: WorkerId)
    requires Inv(cfg, db)
    ensures var after := Revoke(db, cred, w).db;
            Inv(cfg, after) && Preserves(db, after) && SameLife(db, after)
    ensures Revoke(db, cred, w).reply.Ok? ==> w !in Revoke(db, cred, w).db.workers
  {
    InvConstraints(cfg, db);
    WorkerFromKeyFacts(cfg, db, cred, w);
    hide Inv, Constraints, WorkerFromKey, WorkerGone, Preserves;
    var found := WorkerFromKey(db, cred, w);
    if found.worker.Some? {
      GoneFacts(cfg, found.db, w);
      var left := WorkerGone(found.db, found.worker.value).db;
      DropKeeps(cfg, left, w);
      SameClustersPreserve(left, DropWorker(left, w)) by { InvKeys(cfg, left); }
      ChainPreserves(db, found.db, left);
      ChainPreserves(db, left, DropWorker(left, w));
    }
  }

  lemma InvKeys(cfg: Settings, db: Db)
    requires Inv(cfg, db)
    ensures db.rings.Keys == db.clusters.Keys
  {
  }

  lemma SweepFacts(cfg: Settings, db: Db, now: Time)
    requires Inv(cfg, db)
    ensures var after := Sweep(db, now, cfg.heartbeatTimeout);
            Inv(cfg, after) && Preserves(db, after) && SameLife(db, after)
    ensures forall w :: w in Sweep(db, now, cfg.heartbeatTimeout).workers &&
                        Sweep(db, now, cfg.heartbeatTimeout).workers[w].online ==>
              Sweep(db, now, cfg.heartbeatTimeout).workers[w].lastHeartbeat >= now - cfg.heartbeatTimeout
  {
    InvConstraints(cfg, db);
    hide Constraints;
    var dead := Dead(db, now, cfg.heartbeatTimeout);
    SweepIsSimple(cfg, db, now, cfg.heartbeatTimeout);
    RetireFacts(cfg, db, dead, Broken(db, dead));
    hide Inv, Sweep, Preserves, Broken;
    var after := Retire(db, dead, Broken(db, dead));
    forall w | w in after.workers && after.workers[w].online
      ensures after.workers[w].lastHeartbeat >= now - cfg.heartbeatTimeout
    {
      assert w !in dead;
    }
  }

  // ---- Heartbeats and registrations ----

  lemma BeatKeeps(cfg: Settings, db: Db, w: WorkerId, now: Time)
    requires Inv(cfg, db) && w in db.workers
    ensures Inv(cfg, PutWorker(db, Beat(cfg, db.workers[w], now)))
    ensures Preserves(db, PutWorker(db, Beat(cfg, db.workers[w], now)))
  {
    InvConstraints(cfg, db);
    assert Placed(db, w);
    if db.workers[w].clusterId.Some? {
      assert Serves(cfg, db, db.workers[w].clusterId.value, w);
    }
    HarmlessKeeps(cfg, db, Beat(cfg, db.workers[w], now));
    SameClustersPreserve(db, PutWorker(db, Beat(cfg, db.workers[w], now)));
  }

  lemma HeartbeatFacts(cfg: Settings, db: Db, cred: Credential, w: WorkerId, now: Time)
    requires Inv(cfg, db)
    ensures var after := Heartbeat(cfg, db, cred, w, now).db;
            Inv(cfg, after) && Preserves(db, after)
  {
    InvConstraints(cfg, db);
    WorkerFromKeyFacts(cfg, db, cred, w);
    hide Inv, Constraints, WorkerFromKey, CheckAndForm, Preserves, Beat, PutWorker;
    var found := WorkerFromKey(db, cred, w);
    if found.worker.Some? {
      BeatKeeps(cfg, found.db, w, now);
      var beaten := PutWorker(found.db, Beat(cfg, found.worker.value, now));
      InvConstraints(cfg, beaten);
      RoundFacts(cfg, beaten, cfg.modelOrder, now);
      ExtendsPreserves(beaten, CheckAndForm(cfg, beaten, cfg.modelOrder, now).db);
      PreservesChain(db, found.db, beaten);
      PreservesChain(db, beaten, CheckAndForm(cfg, beaten, cfg.modelOrder, now).db);
    }
  }

  /** Enrolment touches one worker row and one key; who is online stays online as before. */
  ghost predicate Enrolled(db: Db, after: Db) {
    && Constraints(after) && Drawn(after)
    && after.clusters == db.clusters && after.rings == db.rings
    && SameLife(db, after)
  }

  lemma EnrollNewFacts(cfg: Settings, db: Db, k: KeyId, rec: Worker)
    requires Inv(cfg, db) && rec.workerId == db.next && k in db.keys && rec.accountId == db.keys[k].accountId
    requires rec.clusterId.None? && rec.status.Waitlisted? && rec.assignedIp.None? && rec.ringPosition.None?
    requires !rec.online
    ensures var after := BindKey(InsertWorker(db.(next := db.next + 1), rec), k, rec.workerId);
            Enrolled(db, after) && Inv(cfg, after)
  {
    InvConstraints(cfg, db);
    assert rec.workerId !in db.workers;
    hide Inv, Constraints, Drawn, InsertWorker, BindKey;
    var drawn := db.(next := db.next + 1);
    DrawKeeps(cfg, db);
    EnrollNewWrites(db, k, rec);
    InsertKeeps(cfg, drawn, rec);
    BindKeeps(cfg, InsertWorker(drawn, rec), k, rec.workerId);
    InvConstraints(cfg, BindKey(InsertWorker(drawn, rec), k, rec.workerId));
  }

  lemma EnrollNewWrites(db: Db, k: KeyId, rec: Worker)
    requires rec.workerId !in db.workers && !rec.online
    ensures var inserted := InsertWorker(db.(next := db.next + 1), rec);
            var after := BindKey(inserted, k, rec.workerId);
            && after.clusters == db.clusters && after.rings == db.rings && SameLife(db, after)
            && inserted.keys == db.keys && rec.workerId in inserted.workers
            && inserted.workers[rec.workerId] == rec
  {
  }

  lemma DrawKeeps(cfg: Settings, db: Db)
    requires Inv(cfg, db)
    ensures Inv(cfg, db.(next := db.next + 1))
  {
    SameTablesKeep(cfg, db, db.(next := db.next + 1));
  }

  lemma ReenrollWrites(db: Db, k: KeyId, prev: Worker, body: RegisterBody)
    requires prev.workerId in db.workers && db.workers[prev.workerId] == prev
    ensures var after := BindKey(PutWorker(db.(next := db.next + 1), Readvertise(prev, body)), k, prev.workerId);
            && after == db.(workers := db.workers[prev.workerId := Readvertise(prev, body)],
                            keys := after.keys, next := db.next + 1)
            && after.keys.Keys == db.keys.Keys
  {
  }

  /** The re-advertised row. */
  lemma ReenrollRows(db: Db, k: KeyId, prev: Worker, body: RegisterBody)
    requires Constraints(db) && Drawn(db) && prev.workerId in db.workers && db.workers[prev.workerId] == prev
    ensures var after := BindKey(PutWorker(db.(next := db.next + 1), Readvertise(prev, body)), k, prev.workerId);
            && Enrolled(db, after)
            && prev.workerId in after.workers && after.workers[prev.workerId] == Readvertise(prev, body)
  {
    var drawn := db.(next := db.next + 1);
    DrawnConstraints(db);
    hide Constraints, PutWorker, BindKey;
    PutWorkerConstraints(drawn, Readvertise(prev, body));
    BindKeyConstraints(PutWorker(drawn, Readvertise(prev, body)), k, prev.workerId);
    ReenrollWrites(db, k, prev, body);
  }

  lemma ReenrollKeeps(cfg: Settings, db: Db, k: KeyId, prev: Worker, body: RegisterBody)
    requires Inv(cfg, db) && prev.workerId in db.workers && db.workers[prev.workerId] == prev
    requires prev.clusterId.None? && (k in db.keys ==> prev.accountId == db.keys[k].accountId)
    ensures Inv(cfg, BindKey(PutWorker(db.(next := db.next + 1), Readvertise(prev, body)), k, prev.workerId))
  {
    var drawn := db.(next := db.next + 1);
    SameTablesKeep(cfg, db, drawn);
    HarmlessKeeps(cfg, drawn, Readvertise(prev, body));
    hide Inv;
    BindKeeps(cfg, PutWorker(drawn, Readvertise(prev, body)), k, prev.workerId);
  }

  ghost predicate Enrolling(cfg: Settings, db: Db, cred: Credential, body: RegisterBody) {
    && cred.KeyCredential? && cred.key in db.keys && db.keys[cred.key].scope.WorkerScope?
    && Admissible(cfg, body)
  }

  /** The two ways a registration can go. */
  lemma EnrollCases(cfg: Settings, db: Db, cred: Credential, body: RegisterBody, now: Time)
    requires Constraints(db) && Enrolling(cfg, db, cred, body)
    ensures var prev := Reregistered(cfg, db, cred, body, now);
            var drawn := db.(next := db.next + 1);
            match prev
            case Some(p) =>
              && Enroll(cfg, db, cred.key, body, now) ==
                 Some(BindKey(PutWorker(drawn, Readvertise(p, body)), cred.key, p.workerId))
              && p.workerId in db.workers && db.workers[p.workerId] == p && p.accountId == db.keys[cred.key].accountId
            case None =>
              var rec := NewWorker(db.next, db.keys[cred.key].accountId, body, now);
              || Enroll(cfg, db, cred.key, body, now).None?
              || Enroll(cfg, db, cred.key, body, now) == Some(BindKey(InsertWorker(drawn, rec), cred.key, rec.workerId))
  {
    var drawn := db.(next := db.next + 1);
    DrawnConstraints(db);
    ReturningSpec(cfg, drawn, db.keys[cred.key].accountId, body);
    hide Constraints, CanCreate, Returning, Admissible, PutWorker, InsertWorker, BindKey, NewWorker, Readvertise;
  }

  /** What enrolment leaves for the round of formation. */
  lemma EnrollFacts(cfg: Settings, db: Db, cred: Credential, body: RegisterBody, now: Time)
    requires Constraints(db) && Inv(cfg, db) && Enrolling(cfg, db, cred, body)
    requires Enroll(cfg, db, cred.key, body, now).Some?
    ensures Enrolled(db, Enroll(cfg, db, cred.key, body, now).value)
    ensures var prev := Reregistered(cfg, db, cred, body, now);
            (prev.Some? ==> prev.value.clusterId.None?) ==> Inv(cfg, Enroll(cfg, db, cred.key, body, now).value)
    ensures var prev := Reregistered(cfg, db, cred, body, now);
            prev.Some? ==>
              var after := Enroll(cfg, db, cred.key, body, now).value;
              && prev.value.workerId in db.workers && db.workers[prev.value.workerId] == prev.value
              && prev.value.workerId in after.workers
              && after.workers[prev.value.workerId] == Readvertise(prev.value, body)
  {
    InvConstraints(cfg, db);
    EnrollCases(cfg, db, cred, body, now);
    hide Constraints, Inv, Enroll, Reregistered, Enrolled, Admissible, PutWorker, InsertWorker, BindKey;
    match Reregistered(cfg, db, cred, body, now)
    case Some(prev) =>
      ReenrollRows(db, cred.key, prev, body);
      if prev.clusterId.None? {
        ReenrollKeeps(cfg, db, cred.key, prev, body);
      }
    case None =>
      EnrollNewFacts(cfg, db, cred.key, NewWorker(db.next, db.keys[cred.key].accountId, body, now));
  }

  lemma RegisterFacts(cfg: Settings, db: Db, cred: Credential, body: RegisterBody, now: Time)
    requires Inv(cfg, db) && Allowed(cfg, db, RegisterWorker(cred, body, now))
    ensures var after := Register(cfg, db, cred, body, now).db;
            Inv(cfg, after) && Preserves(db, after) && SameLife(db, after)
  {
    hide Inv, Constraints, Enroll, Reregistered, CheckAndForm, Preserves, SameLife, Admissible;
    InvConstraints(cfg, db);
    UnchangedFacts(cfg, db);
    if Enrolling(cfg, db, cred, body) {
      EnrollConstraints(cfg, db, cred.key, body, now);
      if Enroll(cfg, db, cred.key, body, now).Some? {
        var enrolled := Enroll(cfg, db, cred.key, body, now).value;
        EnrollFacts(cfg, db, cred, body, now);
        EnrolledFacts(db, enrolled);
        RoundFacts(cfg, enrolled, cfg.modelOrder, now);
        ExtendsPreserves(enrolled, CheckAndForm(cfg, enrolled, cfg.modelOrder, now).db);
        ChainPreserves(db, enrolled, CheckAndForm(cfg, enrolled, cfg.modelOrder, now).db);
      }
    }
  }

  /** A rejected registration changes nothing, or at most draws an identifier. */
  lemma UnchangedFacts(cfg: Settings, db: Db)
    requires Inv(cfg, db)
    ensures Preserves(db, db) && SameLife(db, db)
    ensures var drawn := db.(next := db.next + 1);
            Inv(cfg, drawn) && Preserves(db, drawn) && SameLife(db, drawn)
  {
    DrawKeeps(cfg, db);
    SameClustersPreserve(db, db);
    SameClustersPreserve(db, db.(next := db.next + 1));
    hide Preserves;
  }

  lemma EnrolledFacts(db: Db, enrolled: Db)
    requires Enrolled(db, enrolled) && Constraints(db)
    ensures Preserves(db, enrolled) && SameLife(db, enrolled) && Drawn(enrolled) && Constraints(enrolled)
  {
    SameClustersPreserve(db, enrolled);
    hide Preserves;
  }
}
