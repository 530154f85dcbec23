/** What each request handler does to the database (app.py): one handler runs to its end without
    yielding, so it is one step. */
module Handlers {
  import opened Basics
  import opened Models
  import opened Tables
  import opened Scheduling
  import opened Ranks
  import R = Readiness

  /** Denied: a 4xx answer. Failed: an exception escaped (500). */
  datatype Reply = Ok | Denied | Failed

  datatype Outcome = Outcome(db: Db, reply: Reply)

  // ---- Credentials ----

  datatype Credential = KeyCredential(key: KeyId) | SessionCredential(account: AccountId) | NoCredential

  datatype Caller = Caller(accountId: AccountId, key: Option<KeyId>, bound: Option<WorkerId>)

  /** _worker_credential: a worker-scoped key or a session. */
  function Resolve(db: Db, cred: Credential): Option<Caller> {
    match cred
    case KeyCredential(k) =>
      if k in db.keys && db.keys[k].scope.WorkerScope?
      then Some(Caller(db.keys[k].accountId, Some(k), db.keys[k].workerId))
      else None
    case SessionCredential(a) => Some(Caller(a, None, None))
    case NoCredential => None
  }

  /** A database and the worker a credential was resolved to. */
  datatype Found = Found(db: Db, worker: Option<Worker>)

  function Bind(db: Db, key: Option<KeyId>, w: WorkerId): Db {
    if key.Some? then BindKey(db, key.value, w) else db
  }

  /** _worker_from_key, with its healing of a stale or missing binding. */
  function WorkerFromKey(db: Db, cred: Credential, w: WorkerId): Found {
    match Resolve(db, cred)
    case None => Found(db, None)
    case Some(caller) =>
      if w !in db.workers || db.workers[w].accountId != caller.accountId then Found(db, None)
      else if caller.bound == Some(w) then Found(db, Some(db.workers[w]))
      else Found(Bind(db, caller.key, w), Some(db.workers[w]))
  }

  /** The rows of the account's workers that point to the cluster. */
  function MembersOf(rows: seq<Worker>, a: AccountId, c: ClusterId): seq<Worker> {
    if rows == [] then []
    else if rows[0].accountId == a && rows[0].clusterId == Some(c) then [rows[0]] + MembersOf(rows[1..], a, c)
    else MembersOf(rows[1..], a, c)
  }

  /** _bound_worker: the key's own worker if it is in the cluster, else the account's only one there. */
  function BoundWorker(db: Db, cred: Credential, c: ClusterId): Found
    requires Constraints(db)
  {
    match Resolve(db, cred)
    case None => Found(db, None)
    case Some(caller) =>
      if caller.bound.Some? && caller.bound.value in db.workers && db.workers[caller.bound.value].clusterId == Some(c)
      then Found(db, Some(db.workers[caller.bound.value]))
      else
        var matches := MembersOf(Rows(db), caller.accountId, c);
        if |matches| == 1 then Found(Bind(db, caller.key, matches[0].workerId), Some(matches[0]))
        else Found(db, None)
  }

  // ---- Registration ----

  datatype RegisterBody = RegisterBody(model: Token, gguf: Hash, memory: int, wgPubkey: Token, endpoint: Token)

  /** Field constraints, the model registry and the hash check. */
  predicate Admissible(cfg: Settings, body: RegisterBody) {
    && body.memory >= 1 && FullHash(body.gguf)
    && body.model in cfg.models
    && (cfg.models[body.model].gguf != NO_HASH ==> body.gguf == cfg.models[body.model].gguf)
  }

  function NewWorker(id: WorkerId, a: AccountId, body: RegisterBody, now: Time): Worker {
    Worker(id, a, body.model, body.gguf, body.memory, body.wgPubkey, body.endpoint,
           Waitlisted, false, 0.0, 0.0, None, None, None, now)
  }

  /** The same device registering again: its advertisement is replaced, and it starts over offline on
      the waitlist. Cluster fields are not touched. */
  function Readvertise(prev: Worker, body: RegisterBody): Worker {
    prev.(endpoint := body.endpoint, model := body.model, gguf := body.gguf, memory := body.memory,
          status := Waitlisted, online := false)
  }

  /** The first row of the device, in scan order. */
  function FirstDevice(existing: seq<Worker>, pubkey: Token): Option<Worker> {
    if existing == [] then None
    else if existing[0].wgPubkey == pubkey then Some(existing[0])
    else FirstDevice(existing[1..], pubkey)
  }

  /** The row a rejected creation falls back to: the account's own device, if there is room under
      the cap. */
  function Returning(cfg: Settings, db: Db, a: AccountId, body: RegisterBody): Option<Worker>
    requires Constraints(db)
  {
    var existing := OfAccount(Rows(db), a);
    if |existing| >= cfg.maxWorkersPerAccount then None else FirstDevice(existing, body.wgPubkey)
  }

  /** The row changes of register_worker, before it looks for a cluster to form; None is a 4xx. */
  function Enroll(cfg: Settings, db: Db, k: KeyId, body: RegisterBody, now: Time): Option<Db>
    requires Constraints(db) && k in db.keys
  {
    var a := db.keys[k].accountId;
    var rec := NewWorker(db.next, a, body, now);
    var drawn := db.(next := db.next + 1);
    if CanCreate(drawn, rec, cfg.maxWorkersPerAccount) then Some(BindKey(InsertWorker(drawn, rec), k, rec.workerId))
    else
      match Returning(cfg, drawn, a, body)
      case None => None
      case Some(prev) => Some(BindKey(PutWorker(drawn, Readvertise(prev, body)), k, prev.workerId))
  }

  /** The round of formation that ends registration and heartbeat. */
  function Finish(cfg: Settings, db: Db, now: Time): Outcome
    requires Constraints(db)
  {
    var e := CheckAndForm(cfg, db, cfg.modelOrder, now);
    Outcome(e.db, if e.ok then Ok else Failed)
  }

  lemma DrawnConstraints(db: Db)
    requires Constraints(db)
    ensures Constraints(db.(next := db.next + 1))
  {
  }

  lemma EnrollConstraints(cfg: Settings, db: Db, k: KeyId, body: RegisterBody, now: Time)
    requires Constraints(db) && k in db.keys
    ensures Enroll(cfg, db, k, body, now).Some? ==> Constraints(Enroll(cfg, db, k, body, now).value)
  {
    hide CanCreate, Returning, Constraints, InsertWorker, BindKey, PutWorker, NewWorker, Readvertise;
    var a := db.keys[k].accountId;
    var rec := NewWorker(db.next, a, body, now);
    var drawn := db.(next := db.next + 1);
    DrawnConstraints(db);
    if CanCreate(drawn, rec, cfg.maxWorkersPerAccount) {
      InsertWorkerConstraints(drawn, rec);
      BindKeyConstraints(InsertWorker(drawn, rec), k, rec.workerId);
    } else if Returning(cfg, drawn, a, body).Some? {
      var prev := Returning(cfg, drawn, a, body).value;
      PutWorkerConstraints(drawn, Readvertise(prev, body));
      BindKeyConstraints(PutWorker(drawn, Readvertise(prev, body)), k, prev.workerId);
    }
  }

  /** register_worker. */
  function Register(cfg: Settings, db: Db, cred: Credential, body: RegisterBody, now: Time): Outcome
    requires Constraints(db)
  {
    if !(cred.KeyCredential? && cred.key in db.keys && db.keys[cred.key].scope.WorkerScope?) then Outcome(db, Denied)
    else if !Admissible(cfg, body) then Outcome(db, Denied)
    else
      EnrollConstraints(cfg, db, cred.key, body, now);
      match Enroll(cfg, db, cred.key, body, now)
      case None => Outcome(db.(next := db.next + 1), Denied)
      case Some(enrolled) => Finish(cfg, enrolled, now)
  }

  // ---- Heartbeat and leave ----

  /** The row a heartbeat writes; the grace period starts when the worker comes up. */
  function Beat(cfg: Settings, w: Worker, now: Time): Worker {
    w.(online := true,
       lastHeartbeat := now,
       assignableAt := if w.online then w.assignableAt else now + cfg.assignableGrace,
       status := if !w.online && w.status.Registered? then Waitlisted else w.status)
  }

  lemma BindConstraints(db: Db, key: Option<KeyId>, w: WorkerId)
    requires Constraints(db)
    ensures Constraints(Bind(db, key, w))
  {
    if key.Some? { BindKeyConstraints(db, key.value, w); }
  }

  lemma WorkerFromKeyConstraints(db: Db, cred: Credential, w: WorkerId)
    requires Constraints(db)
    ensures Constraints(WorkerFromKey(db, cred, w).db)
  {
    hide Bind;
    var caller := Resolve(db, cred);
    if caller.Some? { BindConstraints(db, caller.value.key, w); }
  }

  lemma BoundWorkerConstraints(db: Db, cred: Credential, c: ClusterId)
    requires Constraints(db)
    ensures Constraints(BoundWorker(db, cred, c).db)
  {
    hide Bind;
    var caller := Resolve(db, cred);
    if caller.Some? && |MembersOf(Rows(db), caller.value.accountId, c)| == 1 {
      BindConstraints(db, caller.value.key, MembersOf(Rows(db), caller.value.accountId, c)[0].workerId);
    }
  }

  /** heartbeat. */
  function Heartbeat(cfg: Settings, db: Db, cred: Credential, w: WorkerId, now: Time): Outcome
    requires Constraints(db)
  {
    var found := WorkerFromKey(db, cred, w);
    WorkerFromKeyConstraints(db, cred, w);
    if found.worker.None? then Outcome(found.db, Denied)
    else
      PutWorkerConstraints(found.db, Beat(cfg, found.worker.value, now));
      Finish(cfg, PutWorker(found.db, Beat(cfg, found.worker.value, now)), now)
  }

  /** revoke_worker: leave the cluster, then delete the row. */
  function Revoke(db: Db, cred: Credential, w: WorkerId): Outcome
    requires Constraints(db)
  {
    var found := WorkerFromKey(db, cred, w);
    WorkerFromKeyConstraints(db, cred, w);
    if found.worker.None? then Outcome(found.db, Denied)
    else
      var left := WorkerGone(found.db, found.worker.value);
      if left.ok then Outcome(DropWorker(left.db, w), Ok) else Outcome(left.db, Failed)
  }

  // ---- Readiness and layers ----

  /** on_layer_distribution with a dictionary of nonnegative counts, which no CHECK rejects. */
  function Distribute(db: Db, c: ClusterId, windows: map<WorkerId, nat>): Db
    requires Constraints(db)
  {
    if c in db.clusters then PutStored(db, c, R.SetDistribution(StoredAt(db, c), Some(windows))) else db
  }

  lemma DistributeConstraints(db: Db, c: ClusterId, windows: map<WorkerId, nat>)
    requires Constraints(db)
    ensures Constraints(Distribute(db, c, windows))
  {
    if c in db.clusters {
      R.SetDistributionRefines(c, StoredAt(db, c), Some(windows));
      hide R.SetDistribution;
      PutStoredConstraints(db, c, R.SetDistribution(StoredAt(db, c), Some(windows)));
    }
  }

  lemma DistributeIsStoreOperation(db: Db, c: ClusterId, windows: map<WorkerId, nat>)
    requires Constraints(db)
    ensures SetClusterDistribution(db, c, Some(windows)) == Some(Distribute(db, c, windows))
  {
    assert NatWindows(windows) == windows;
    if c in db.clusters && db.clusters[c].status.Terminated? { PutSame(db, c); }
  }

  /** report_ready: the head's layers first, if the body carries them, then the ready mark. */
  function Ready(db: Db, cred: Credential, c: ClusterId, layers: Option<Payload>): Outcome
    requires Constraints(db)
  {
    if c !in db.clusters then Outcome(db, Denied)
    else
      var members := ClusterAt(db, c).value.members;
      var found := BoundWorker(db, cred, c);
      BoundWorkerConstraints(db, cred, c);
      if found.worker.None? then Outcome(found.db, Denied)
      else
        var w := found.worker.value;
        var reported := if layers.Some? && w.ringPosition == Some(0)
                        then Distribute(found.db, c, ByWorker(members, Counts(layers.value))) else found.db;
        DistributeConstraints(found.db, c, ByWorker(members, Counts(if layers.Some? then layers.value else [])));
        Outcome(MarkMemberReady(reported, c, w.workerId), Ok)
  }

  /** _handle_ws_frame for a layer_distribution frame of worker w: only the head of the named
      cluster is heard. */
  function Frame(db: Db, w: WorkerId, c: ClusterId, frame: FrameWindows): Db
    requires Constraints(db)
  {
    if w !in db.workers || db.workers[w].clusterId.None? then db
    else if db.workers[w].ringPosition != Some(0) || db.workers[w].clusterId != Some(c) then db
    else if c !in db.clusters then db
    else
      var members := ClusterAt(db, c).value.members;
      Distribute(db, c, if frame.Object? then ByWorker(members, Counts(frame.payload)) else map[])
  }
}
