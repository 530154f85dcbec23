/** The database as a value, and what each store operation does to it (store.py). */
module Tables {
  import opened Basics
  import opened Models
  import opened Rings
  import R = Readiness

  /** The tables, by primary key. `scan` is the order in which a full scan of `workers` happens to
      return the rows; `rings` holds `cluster_members` grouped by cluster_id; every identifier
      drawn so far is below `next`, so `next` is a fresh one. */
  datatype Db = Db(
    workers: map<WorkerId, Worker>,
    scan: seq<WorkerId>,
    clusters: map<ClusterId, ClusterRow>,
    rings: map<ClusterId, Ring>,
    keys: map<KeyId, ApiKey>,
    next: nat)

  const EMPTY := Db(map[], [], map[], map[], map[], 1)

  /** The declared keys and references, which the engine enforces in every state. */
  ghost predicate Constraints(db: Db) {
    && Enumerates(db.scan, db.workers.Keys)
    && (forall w :: w in db.workers ==> db.workers[w].workerId == w)
    && db.rings.Keys == db.clusters.Keys
    && (forall c :: c in db.rings ==> UniqueSlots(db.rings[c]))
    && (forall k :: k in db.keys && db.keys[k].workerId.Some? ==> db.keys[k].workerId.value in db.workers)
  }

  /** Identifiers already drawn. */
  ghost predicate Drawn(db: Db) {
    && (forall w :: w in db.workers ==> w < db.next)
    && (forall c :: c in db.clusters ==> c < db.next)
    && (forall k :: k in db.keys ==> k < db.next)
  }

  predicate Active(db: Db, c: ClusterId) {
    c in db.clusters && !db.clusters[c].status.Terminated?
  }

  // ---- workers ----

  /** SELECT * FROM workers. */
  function Rows(db: Db): (rows: seq<Worker>)
    requires Constraints(db)
    ensures |rows| == |db.scan|
    ensures forall i :: 0 <= i < |rows| ==> db.scan[i] in db.workers && rows[i] == db.workers[db.scan[i]]
  {
    assert forall i :: 0 <= i < |db.scan| ==> db.scan[i] in Elements(db.scan);
    seq(|db.scan|, i requires 0 <= i < |db.scan| => db.workers[db.scan[i]])
  }

  function WorkerAt(db: Db, w: WorkerId): Option<Worker> {
    if w in db.workers then Some(db.workers[w]) else None
  }

  /** UPDATE workers SET ... WHERE worker_id = :worker_id. */
  function PutWorker(db: Db, w: Worker): Db {
    if w.workerId in db.workers then db.(workers := db.workers[w.workerId := w]) else db
  }

  /** INSERT INTO workers. */
  function InsertWorker(db: Db, w: Worker): Db {
    if w.workerId in db.workers then db
    else db.(workers := db.workers[w.workerId := w], scan := db.scan + [w.workerId])
  }

  /** What remains of the scan order when the row of w is gone. */
  function Without(s: seq<WorkerId>, w: WorkerId): (rest: seq<WorkerId>)
    ensures forall x :: x in rest <==> x in s && x != w
    ensures Distinct(s) ==> Distinct(rest)
  {
    if s == [] then []
    else
      var rest := Without(s[1..], w);
      assert forall x :: x in s <==> x == s[0] || x in s[1..];
      if s[0] == w then rest else WithoutCons(s[0], rest)
  }

  function WithoutCons(x: WorkerId, rest: seq<WorkerId>): (s: seq<WorkerId>)
    ensures forall y :: y in s <==> y == x || y in rest
    ensures Distinct(rest) && x !in rest ==> Distinct(s)
  {
    [x] + rest
  }

  function UnboundKey(key: ApiKey, w: WorkerId): ApiKey {
    if key.workerId == Some(w) then key.(workerId := None) else key
  }

  function Unbound(keys: map<KeyId, ApiKey>, w: WorkerId): map<KeyId, ApiKey> {
    map k | k in keys :: UnboundKey(keys[k], w)
  }

  /** DELETE FROM workers; api_keys.worker_id is ON DELETE SET NULL. cluster_members has no
      reference to workers, so membership history stays. */
  function DropWorker(db: Db, w: WorkerId): Db {
    db.(workers := db.workers - {w}, scan := Without(db.scan, w), keys := Unbound(db.keys, w))
  }

  /** SELECT * FROM workers WHERE account_id = a. */
  function OfAccount(rows: seq<Worker>, a: AccountId): seq<Worker> {
    if rows == [] then []
    else if rows[0].accountId == a then [rows[0]] + OfAccount(rows[1..], a)
    else OfAccount(rows[1..], a)
  }

  /** Some row belongs to the same device and is past registration. */
  predicate DeviceTaken(existing: seq<Worker>, pubkey: Token) {
    exists i :: 0 <= i < |existing| && existing[i].wgPubkey == pubkey && !existing[i].status.Registered?
  }

  /** create_worker_if_available succeeds: room under the cap, device free, identifier free. */
  predicate CanCreate(db: Db, rec: Worker, cap: int)
    requires Constraints(db)
  {
    var existing := OfAccount(Rows(db), rec.accountId);
    |existing| < cap && !DeviceTaken(existing, rec.wgPubkey) && rec.workerId !in db.workers
  }

  // ---- keys ----

  /** UPDATE api_keys SET worker_id = w WHERE key_id = k; the reference must exist. */
  function BindKey(db: Db, k: KeyId, w: WorkerId): Db {
    if k in db.keys && w in db.workers then db.(keys := db.keys[k := db.keys[k].(workerId := Some(w))])
    else db
  }

  // ---- clusters ----

  function StoredAt(db: Db, c: ClusterId): R.Stored
    requires c in db.clusters && c in db.rings
  {
    R.Stored(db.clusters[c], db.rings[c])
  }

  function PutStored(db: Db, c: ClusterId, s: R.Stored): Db {
    db.(clusters := db.clusters[c := s.row], rings := db.rings[c := s.ring])
  }

  /** get_cluster. */
  function ClusterAt(db: Db, c: ClusterId): Option<ClusterRecord>
    requires Constraints(db)
  {
    if c in db.clusters then Some(R.Load(c, StoredAt(db, c))) else None
  }

  /** create_cluster; None is an IntegrityError and leaves the database alone. */
  function InsertCluster(db: Db, rec: ClusterRecord): Option<Db> {
    if rec.clusterId in db.clusters then None
    else
      match SaveRing(map[], rec)
      case None => None
      case Some(ring) => Some(PutStored(db, rec.clusterId, R.Stored(RowOf(rec), ring)))
  }

  /** update_cluster; None is an IntegrityError (a slot held by another worker, or membership rows
      of a cluster that does not exist) and leaves the database alone. */
  function WriteCluster(db: Db, rec: ClusterRecord): Option<Db>
    requires Constraints(db)
  {
    if rec.clusterId !in db.clusters then (if rec.members == [] then Some(db) else None)
    else
      match SaveRing(db.rings[rec.clusterId], rec)
      case None => None
      case Some(ring) => Some(PutStored(db, rec.clusterId, R.Stored(RowOf(rec), ring)))
  }

  function ClusterIds(records: seq<ClusterRecord>): (ids: seq<ClusterId>)
    ensures |ids| == |records|
    ensures forall i :: 0 <= i < |ids| ==> ids[i] == records[i].clusterId
  {
    seq(|records|, i requires 0 <= i < |records| => records[i].clusterId)
  }

  /** ORDER BY created_at. */
  ghost predicate OldestFirst(clusters: map<ClusterId, ClusterRow>, ids: seq<ClusterId>) {
    forall i, j :: 0 <= i < j < |ids| && ids[i] in clusters && ids[j] in clusters ==>
      clusters[ids[i]].createdAt <= clusters[ids[j]].createdAt
  }

  /** list_clusters: every cluster once, oldest first. */
  ghost predicate ListsClusters(db: Db, records: seq<ClusterRecord>)
    requires Constraints(db)
  {
    && Enumerates(ClusterIds(records), db.clusters.Keys)
    && OldestFirst(db.clusters, ClusterIds(records))
    && (forall i :: 0 <= i < |records| ==> ClusterAt(db, records[i].clusterId) == Some(records[i]))
  }

  /** mark_member_ready. */
  function MarkMemberReady(db: Db, c: ClusterId, w: WorkerId): Db
    requires Constraints(db)
  {
    if c in db.clusters then PutStored(db, c, R.MarkReady(StoredAt(db, c), w)) else db
  }

  /** CHECK (layer_window >= 0) only looks at rows the updates touch. */
  predicate WindowsAllowed(ring: Ring, windows: map<WorkerId, int>) {
    forall w :: w in windows && w in ring ==> windows[w] >= 0
  }

  function NatWindows(windows: map<WorkerId, int>): map<WorkerId, nat> {
    map w | w in windows && windows[w] >= 0 :: windows[w]
  }

  /** set_cluster_distribution; None is the IntegrityError of a negative window. */
  function SetClusterDistribution(db: Db, c: ClusterId, windows: Option<map<WorkerId, int>>): Option<Db>
    requires Constraints(db)
  {
    if c !in db.clusters then Some(db)
    else if db.clusters[c].status.Terminated? then Some(db)
    else if windows.Some? && !WindowsAllowed(db.rings[c], windows.value) then None
    else Some(PutStored(db, c, R.SetDistribution(StoredAt(db, c),
                        if windows.Some? then Some(NatWindows(windows.value)) else None)))
  }

  lemma PutSame(db: Db, c: ClusterId)
    requires c in db.clusters && c in db.rings
    ensures PutStored(db, c, StoredAt(db, c)) == db
  {
    assert db.clusters[c := db.clusters[c]] == db.clusters;
    assert db.rings[c := db.rings[c]] == db.rings;
  }

  // ---- Constraints are kept ----

  lemma PutWorkerConstraints(db: Db, w: Worker)
    requires Constraints(db)
    ensures Constraints(PutWorker(db, w))
  {
  }

  lemma InsertWorkerConstraints(db: Db, w: Worker)
    requires Constraints(db)
    ensures Constraints(InsertWorker(db, w))
  {
    if w.workerId !in db.workers {
      var after := InsertWorker(db, w);
      assert forall x :: x in after.scan <==> x in db.scan || x == w.workerId;
      assert w.workerId !in Elements(db.scan);
      assert forall i :: 0 <= i < |db.scan| ==> db.scan[i] in Elements(db.scan);
    }
  }

  lemma DropWorkerConstraints(db: Db, w: WorkerId)
    requires Constraints(db)
    ensures Constraints(DropWorker(db, w))
  {
  }

  lemma BindKeyConstraints(db: Db, k: KeyId, w: WorkerId)
    requires Constraints(db)
    ensures Constraints(BindKey(db, k, w))
  {
  }

  lemma PutStoredConstraints(db: Db, c: ClusterId, s: R.Stored)
    requires Constraints(db) && UniqueSlots(s.ring)
    ensures Constraints(PutStored(db, c, s))
  {
  }

  lemma {:induction false} UpsertFromSlots(ring: Ring, rec: ClusterRecord, i: nat)
    requires i <= |rec.members| && UniqueSlots(ring)
    ensures UpsertFrom(ring, rec, i).Some? ==> UniqueSlots(UpsertFrom(ring, rec, i).value)
    decreases |rec.members| - i
  {
    if i < |rec.members| {
      match Upsert(ring, rec.members[i], MemberValues(rec, i))
      case None =>
      case Some(next) => UpsertFromSlots(next, rec, i + 1);
    }
  }

  lemma SaveRingSlots(ring: Ring, rec: ClusterRecord)
    requires UniqueSlots(ring)
    ensures SaveRing(ring, rec).Some? ==> UniqueSlots(SaveRing(ring, rec).value)
  {
    UpsertFromSlots(ring, rec, 0);
  }
}
