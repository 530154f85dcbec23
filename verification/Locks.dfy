/** Cluster rows under the store's lock: every lock-protected operation is one action, and a dissolve
    is two of them, a read and a later write of what was read (store.py, scheduler.py). Any number
    of threads may interleave their actions. */
module Locks {
  import opened Basics
  import opened Models
  import opened Rings
  import opened Tables
  import Addressing
  import Reregistration
  import Runs
  import R = Readiness

  /** The database, and the snapshots that dissolving threads hold. */
  datatype Shared = Shared(db: Db, held: map<nat, ClusterRecord>)

  datatype Action =
    | MarkMember(cluster: ClusterId, worker: WorkerId)
    | Report(cluster: ClusterId, windows: Option<map<WorkerId, int>>)
    | Create(record: ClusterRecord)
    | WriteRow(row: Worker)
    | ReadSnapshot(thread: nat, cluster: ClusterId)
    | WriteSnapshot(thread: nat)

  function Perform(s: Shared, action: Action): Shared
    requires Constraints(s.db)
  {
    match action
    case MarkMember(c, w) => s.(db := MarkMemberReady(s.db, c, w))
    case Report(c, windows) =>
      (match SetClusterDistribution(s.db, c, windows)
       case None => s
       case Some(db) => s.(db := db))
    case Create(rec) =>
      (match InsertCluster(s.db, rec)
       case None => s
       case Some(db) => s.(db := db))
    case WriteRow(w) => s.(db := PutWorker(s.db, w))
    case ReadSnapshot(t, c) =>
      (match ClusterAt(s.db, c)
       case None => s
       case Some(rec) => s.(held := s.held[t := rec]))
    case WriteSnapshot(t) =>
      if t !in s.held then s
      else
        match WriteCluster(s.db, s.held[t].(status := Terminated))
        case None => s.(held := s.held - {t})
        case Some(db) => Shared(db, s.held - {t})
  }

  /** A schedule: threads start without snapshots, and each action is performed on what the one
      before it left. */
  ghost predicate Schedule(states: seq<Shared>, actions: seq<Action>) {
    && |states| == |actions| + 1
    && states[0].held == map[]
    && Constraints(states[0].db)
    && forall i :: 0 <= i < |actions| ==> Constraints(states[i].db) && states[i + 1] == Perform(states[i], actions[i])
  }

  // ---- What every action keeps ----

  /** The parts of a record that no action changes. */
  ghost predicate SameIdentity(a: ClusterRecord, b: ClusterRecord) {
    && b.clusterId == a.clusterId && b.model == a.model && b.subnet == a.subnet && b.createdAt == a.createdAt
    && b.members == a.members && b.ips == a.ips
  }

  /** A snapshot may be stale in its status, readiness and windows, but in nothing else. */
  ghost predicate Fits(db: Db, rec: ClusterRecord)
    requires Constraints(db)
  {
    && rec.clusterId in db.clusters
    && WellFormed(rec) && SameIdentity(ClusterAt(db, rec.clusterId).value, rec)
  }

  ghost predicate AllFit(s: Shared) {
    Constraints(s.db) && forall t :: t in s.held ==> Fits(s.db, s.held[t])
  }

  function Slots(ring: Ring): map<WorkerId, nat> {
    map w | w in ring :: ring[w].ringPosition
  }

  /** Positions 0, 1, 2, ... without gaps. */
  ghost predicate Dense(slots: map<WorkerId, nat>) {
    forall w :: w in slots ==> slots[w] < |slots|
  }

  /** A terminated cluster stays terminated; model, subnet, members, addresses and slots do not change
      (slots with gaps, which only a migration leaves, may be closed up). */
  ghost predicate Later(db: Db, after: Db) {
    Constraints(db) && Constraints(after) && forall c :: c in db.clusters ==> LaterCluster(db, after, c)
  }

  ghost predicate LaterCluster(db: Db, after: Db, c: ClusterId)
    requires Constraints(db) && Constraints(after) && c in db.clusters
  {
    && c in after.clusters
    && SameIdentity(ClusterAt(db, c).value, ClusterAt(after, c).value)
    && (Dense(Slots(db.rings[c])) ==> Slots(after.rings[c]) == Slots(db.rings[c]))
    && (db.clusters[c].status.Terminated? ==> after.clusters[c].status.Terminated?)
  }

  lemma LaterFits(db: Db, after: Db, rec: ClusterRecord)
    requires Later(db, after) && Fits(db, rec)
    ensures Fits(after, rec)
  {
    hide WellFormed, ClusterAt, Dense, Slots;
    assert LaterCluster(db, after, rec.clusterId);
  }

  lemma LaterChain(a: Db, b: Db, c: Db)
    requires Later(a, b) && Later(b, c)
    ensures Later(a, c)
  {
    hide Constraints, ClusterAt, Dense, Slots;
    forall d | d in a.clusters ensures LaterCluster(a, c, d) {
      assert LaterCluster(a, b, d);
      assert LaterCluster(b, c, d);
    }
  }

  /** Rewriting the rows of one cluster leaves the others as they load. */
  lemma PutElsewhere(db: Db, c: ClusterId, s: R.Stored, d: ClusterId)
    requires Constraints(db) && UniqueSlots(s.ring) && c != d
    ensures Constraints(PutStored(db, c, s)) && ClusterAt(PutStored(db, c, s), d) == ClusterAt(db, d)
  {
    PutStoredConstraints(db, c, s);
    hide UniqueSlots, RingOrder, IpsOf, ReadyOf, WindowsOf;
  }

  lemma PutLater(db: Db, c: ClusterId, s: R.Stored)
    requires Constraints(db) && UniqueSlots(s.ring)
    requires c in db.clusters ==>
               && SameIdentity(R.Load(c, StoredAt(db, c)), R.Load(c, s))
               && (Dense(Slots(db.rings[c])) ==> Slots(s.ring) == Slots(db.rings[c]))
               && (db.clusters[c].status.Terminated? ==> s.row.status.Terminated?)
    ensures Later(db, PutStored(db, c, s))
  {
    PutStoredConstraints(db, c, s);
    hide UniqueSlots, R.Load, Dense, Slots, SameIdentity;
    forall d | d in db.clusters ensures LaterCluster(db, PutStored(db, c, s), d) {
      SameItself(ClusterAt(db, d).value);
    }
  }

  lemma SameItself(rec: ClusterRecord)
    ensures SameIdentity(rec, rec)
  {
  }

  lemma MarkSlots(s: R.Stored, w: WorkerId)
    requires UniqueSlots(s.ring)
    ensures Slots(R.MarkReady(s, w).ring) == Slots(s.ring)
  {
    hide R.GateOpen, R.Load;
    assert Slots(R.MarkRow(s.ring, w)) == Slots(s.ring);
  }

  lemma DistributionSlots(s: R.Stored, windows: Option<map<WorkerId, nat>>)
    requires UniqueSlots(s.ring)
    ensures Slots(R.SetDistribution(s, windows).ring) == Slots(s.ring)
  {
    hide R.GateOpen, R.Load;
  }

  lemma MarkLater(db: Db, c: ClusterId, w: WorkerId)
    requires Constraints(db)
    ensures Later(db, MarkMemberReady(db, c, w))
  {
    if c in db.clusters {
      MarkSlots(StoredAt(db, c), w);
      hide Later, R.MarkReady, UniqueSlots, R.Load, R.GateOpen;
      R.MarkReadyRefines(c, StoredAt(db, c), w);
      PutLater(db, c, R.MarkReady(StoredAt(db, c), w)) by { MarkStatus(StoredAt(db, c), w); }
    } else {
      LaterItself(db);
    }
  }

  lemma MarkStatus(s: R.Stored, w: WorkerId)
    requires UniqueSlots(s.ring)
    ensures s.row.status.Terminated? ==> R.MarkReady(s, w) == s
  {
  }

  lemma DistributionStatus(s: R.Stored, windows: Option<map<WorkerId, nat>>)
    requires UniqueSlots(s.ring)
    ensures s.row.status.Terminated? ==> R.SetDistribution(s, windows) == s
  {
  }

  lemma ReportLater(db: Db, c: ClusterId, windows: Option<map<WorkerId, int>>)
    requires Constraints(db)
    ensures SetClusterDistribution(db, c, windows).Some? ==> Later(db, SetClusterDistribution(db, c, windows).value)
  {
    LaterItself(db);
    if c in db.clusters {
      var written := if windows.Some? then Some(NatWindows(windows.value)) else None;
      assert SetClusterDistribution(db, c, windows).None? || SetClusterDistribution(db, c, windows) == Some(db) ||
             SetClusterDistribution(db, c, windows) ==
             Some(PutStored(db, c, R.SetDistribution(StoredAt(db, c), written)));
      hide Later, Constraints, PutStored, R.SetDistribution, SetClusterDistribution, UniqueSlots;
      DistributionLater(db, c, written);
    }
  }

  lemma DistributionLater(db: Db, c: ClusterId, windows: Option<map<WorkerId, nat>>)
    requires Constraints(db) && c in db.clusters
    ensures Later(db, PutStored(db, c, R.SetDistribution(StoredAt(db, c), windows)))
  {
    assert UniqueSlots(db.rings[c]);
    hide Later, Constraints, R.SetDistribution, UniqueSlots, R.Load, R.GateOpen;
    var s := StoredAt(db, c);
    DistributionSlots(s, windows);
    DistributionStatus(s, windows);
    R.SetDistributionRefines(c, s, windows);
    DistributionIdentity(R.Load(c, s), windows);
    PutLater(db, c, R.SetDistribution(s, windows));
  }

  lemma DistributionIdentity(rec: ClusterRecord, windows: Option<map<WorkerId, nat>>)
    ensures SameIdentity(rec, R.DistributionRecord(rec, windows))
  {
  }

  lemma CreateLater(db: Db, rec: ClusterRecord)
    requires Constraints(db)
    ensures InsertCluster(db, rec).Some? ==> Later(db, InsertCluster(db, rec).value)
  {
    SaveRingSlots(map[], rec);
    hide SaveRing;
    if InsertCluster(db, rec).Some? {
      PutLater(db, rec.clusterId, R.Stored(RowOf(rec), SaveRing(map[], rec).value));
    }
  }

  lemma WriteRowLater(db: Db, w: Worker)
    requires Constraints(db)
    ensures Later(db, PutWorker(db, w))
  {
    PutWorkerConstraints(db, w);
    hide UniqueSlots, R.Load, Dense, Slots;
  }

  /** A record with the stored member list is saved to the same slots, if these have no gaps. */
  lemma SavedSlots(ring: Ring, rec: ClusterRecord, saved: Ring)
    requires UniqueSlots(ring) && rec.members == RingOrder(ring) && Stores(saved, rec) && Dense(Slots(ring))
    ensures Slots(saved) == Slots(ring)
  {
    hide RingOrder, UniqueSlots, Ordered, Stores, Slots, Dense;
    OrderedDistinct(ring, rec.members);
    OrderedElements(ring, rec.members);
    StoredKeys(saved, rec);
    DenseBelow(ring);
    forall w | w in ring ensures saved[w].ringPosition == ring[w].ringPosition {
      assert w in Elements(rec.members);
      var i :| 0 <= i < |rec.members| && rec.members[i] == w;
      OrderedSlot(ring, rec.members, i);
      StoredSlot(saved, rec, i);
    }
    SameSlots(saved, ring);
  }

  lemma DenseBelow(ring: Ring)
    requires Dense(Slots(ring))
    ensures forall w :: w in ring ==> ring[w].ringPosition < |ring.Keys|
  {
    assert Slots(ring).Keys == ring.Keys;
    assert forall w :: w in ring ==> ring[w].ringPosition == Slots(ring)[w];
  }

  lemma StoredSlot(ring: Ring, rec: ClusterRecord, i: nat)
    requires Stores(ring, rec) && i < |rec.members|
    ensures rec.members[i] in ring && ring[rec.members[i]].ringPosition == i
  {
    assert rec.members[i] in Elements(rec.members);
    assert ring[rec.members[i]] == MemberValues(rec, i);
  }

  lemma SameSlots(a: Ring, b: Ring)
    requires a.Keys == b.Keys && forall w :: w in b && w in a ==> a[w].ringPosition == b[w].ringPosition
    ensures Slots(a) == Slots(b)
  {
  }

  /** Writing a snapshot never fails, however stale it is, and leaves exactly what was read, marked
      terminated. */
  lemma WriteSnapshotLands(db: Db, rec: ClusterRecord)
    requires Constraints(db) && Fits(db, rec)
    ensures var written := WriteCluster(db, rec.(status := Terminated));
            && written.Some? && Later(db, written.value)
            && ClusterAt(written.value, rec.clusterId) == Some(rec.(status := Terminated))
  {
    var last := rec.(status := Terminated);
    var before := db.rings[rec.clusterId];
    assert UniqueSlots(before) && last.members == RingOrder(before);
    ResaveSucceeds(before, last);
    var ring := SaveRing(before, last).value;
    assert WellFormed(last);
    LoadAfterSave(last, ring);
    if Dense(Slots(before)) { SavedSlots(before, last, ring); }
    hide SaveRing, Stores, WellFormed, UniqueSlots, Dense, Slots, RingOrder, IpsOf, ReadyOf, WindowsOf;
    PutLater(db, rec.clusterId, R.Stored(RowOf(last), ring));
  }

  lemma LoadedFits(db: Db, c: ClusterId)
    requires Constraints(db) && c in db.clusters
    ensures Fits(db, ClusterAt(db, c).value)
  {
    var rec := ClusterAt(db, c).value;
    var ring := db.rings[c];
    OrderedDistinct(ring, rec.members);
    assert "" !in rec.ips.Values by {
      forall w | w in rec.ips ensures rec.ips[w] != "" {
      }
    }
  }

  lemma ActionLater(s: Shared, action: Action)
    requires AllFit(s)
    ensures Later(s.db, Perform(s, action).db)
  {
    hide Fits, Later, MarkMemberReady, SetClusterDistribution, InsertCluster, PutWorker, ClusterAt, WriteCluster,
         Constraints;
    LaterItself(s.db);
    match action
    case MarkMember(c, w) => MarkLater(s.db, c, w);
    case Report(c, windows) => ReportLater(s.db, c, windows);
    case Create(rec) => CreateLater(s.db, rec);
    case WriteRow(w) => WriteRowLater(s.db, w);
    case ReadSnapshot(_, _) =>
    case WriteSnapshot(t) => if t in s.held { WriteSnapshotLands(s.db, s.held[t]); }
  }

  /** A thread's snapshot after an action: the one it held, or what it just read. */
  lemma HeldAfter(s: Shared, action: Action, t: nat)
    requires AllFit(s) && t in Perform(s, action).held
    ensures var rec := Perform(s, action).held[t];
            || (t in s.held && rec == s.held[t])
            || (action.ReadSnapshot? && action.cluster in s.db.clusters &&
                ClusterAt(s.db, action.cluster) == Some(rec) && Perform(s, action).db == s.db)
  {
    hide Fits, MarkMemberReady, SetClusterDistribution, InsertCluster, PutWorker, WriteCluster, Constraints,
         UniqueSlots;
  }

  lemma ActionKeeps(s: Shared, action: Action)
    requires AllFit(s)
    ensures AllFit(Perform(s, action)) && Later(s.db, Perform(s, action).db)
  {
    hide Fits, Later, Perform, ClusterAt, Constraints;
    ActionLater(s, action);
    var after := Perform(s, action);
    LaterConstraints(s.db, after.db);
    forall t | t in after.held ensures Fits(after.db, after.held[t]) {
      HeldAfter(s, action, t);
      if t in s.held && after.held[t] == s.held[t] {
        LaterFits(s.db, after.db, s.held[t]);
      } else {
        LoadedFits(s.db, action.cluster);
      }
    }
  }

  lemma LaterConstraints(db: Db, after: Db)
    requires Later(db, after)
    ensures Constraints(after)
  {
  }

  lemma LaterItself(db: Db)
    requires Constraints(db)
    ensures Later(db, db)
  {
  }

  // ---- Whole schedules ----

  lemma {:induction false} ScheduleKeeps(states: seq<Shared>, actions: seq<Action>, i: nat, j: nat)
    requires Schedule(states, actions) && i <= j <= |actions|
    ensures AllFit(states[j]) && Later(states[i].db, states[j].db)
    decreases j
  {
    hide Perform, Later, Fits, Constraints;
    if j == 0 {
      LaterItself(states[0].db);
    } else {
      ScheduleKeeps(states, actions, if i < j then i else j - 1, j - 1);
      ActionKeeps(states[j - 1], actions[j - 1]);
      if i < j {
        LaterChain(states[i].db, states[j - 1].db, states[j].db);
      } else {
        LaterItself(states[j].db);
      }
    }
  }

  /** `terminated` is absorbing under every interleaving: no late ready report, distribution report
      or second dissolve brings a cluster back, and model, subnet, members and addresses are fixed
      for good, slots too if they have no gaps. */
  lemma TerminatedIsAbsorbing(states: seq<Shared>, actions: seq<Action>, i: nat, j: nat, c: ClusterId)
    requires Schedule(states, actions) && i <= j <= |actions|
    requires c in states[i].db.clusters && states[i].db.clusters[c].status.Terminated?
    ensures c in states[j].db.clusters && states[j].db.clusters[c].status.Terminated?
    ensures Constraints(states[i].db) && Constraints(states[j].db)
    ensures SameIdentity(ClusterAt(states[i].db, c).value, ClusterAt(states[j].db, c).value)
    ensures Dense(Slots(states[i].db.rings[c])) ==> Slots(states[j].db.rings[c]) == Slots(states[i].db.rings[c])
  {
    hide ClusterAt, Dense, Slots, SameIdentity, Perform, Fits;
    ScheduleKeeps(states, actions, i, j);
    assert LaterCluster(states[i].db, states[j].db, c);
  }

  /** Every dissolve that read its cluster terminates it, whatever happened in between. */
  lemma DissolveTerminates(states: seq<Shared>, actions: seq<Action>, i: nat)
    requires Schedule(states, actions) && i < |actions|
    requires actions[i].WriteSnapshot? && actions[i].thread in states[i].held
    ensures Constraints(states[i + 1].db)
    ensures var rec := states[i].held[actions[i].thread];
            ClusterAt(states[i + 1].db, rec.clusterId) == Some(rec.(status := Terminated))
  {
    hide Later, Fits, WriteCluster, ClusterAt, Constraints, UniqueSlots;
    ScheduleKeeps(states, actions, i, i);
    ActionKeeps(states[i], actions[i]);
    WriteSnapshotLands(states[i].db, states[i].held[actions[i].thread]);
  }

  // ---- Exactly when a terminated cluster is frozen ----

  /** Writing back `rec` would leave the stored record of its cluster as it is. */
  ghost predicate Agrees(db: Db, rec: ClusterRecord)
    requires Constraints(db)
  {
    ClusterAt(db, rec.clusterId) == Some(rec.(status := Terminated))
  }

  lemma TerminatedMark(db: Db, c: ClusterId, d: ClusterId, w: WorkerId)
    requires Constraints(db) && c in db.clusters && db.clusters[c].status.Terminated?
    ensures Constraints(MarkMemberReady(db, d, w)) && ClusterAt(MarkMemberReady(db, d, w), c) == ClusterAt(db, c)
  {
    if d == c {
      MarkStatus(StoredAt(db, c), w);
      PutSame(db, c);
    } else if d in db.clusters {
      R.MarkReadyRefines(d, StoredAt(db, d), w);
      hide R.MarkReady, UniqueSlots;
      PutElsewhere(db, d, R.MarkReady(StoredAt(db, d), w), c);
    }
  }

  lemma TerminatedReport(db: Db, c: ClusterId, d: ClusterId, windows: Option<map<WorkerId, int>>)
    requires Constraints(db) && c in db.clusters && db.clusters[c].status.Terminated?
    requires SetClusterDistribution(db, d, windows).Some?
    ensures var after := SetClusterDistribution(db, d, windows).value;
            Constraints(after) && ClusterAt(after, c) == ClusterAt(db, c)
  {
    if d != c && d in db.clusters {
      var written := if windows.Some? then Some(NatWindows(windows.value)) else None;
      R.SetDistributionRefines(d, StoredAt(db, d), written);
      hide R.SetDistribution, UniqueSlots, NatWindows, WindowsAllowed;
      PutElsewhere(db, d, R.SetDistribution(StoredAt(db, d), written), c);
    }
  }

  lemma TerminatedCreate(db: Db, c: ClusterId, rec: ClusterRecord)
    requires Constraints(db) && c in db.clusters && InsertCluster(db, rec).Some?
    ensures var after := InsertCluster(db, rec).value;
            Constraints(after) && ClusterAt(after, c) == ClusterAt(db, c)
  {
    SaveRingSlots(map[], rec);
    hide SaveRing, UniqueSlots;
    PutElsewhere(db, rec.clusterId, R.Stored(RowOf(rec), SaveRing(map[], rec).value), c);
  }

  lemma TerminatedWriteRow(db: Db, c: ClusterId, w: Worker)
    requires Constraints(db)
    ensures Constraints(PutWorker(db, w)) && ClusterAt(PutWorker(db, w), c) == ClusterAt(db, c)
  {
    PutWorkerConstraints(db, w);
  }

  lemma TerminatedWrite(db: Db, c: ClusterId, rec: ClusterRecord)
    requires Constraints(db) && c in db.clusters && Fits(db, rec) && rec.clusterId != c
    ensures var written := WriteCluster(db, rec.(status := Terminated));
            written.Some? && Constraints(written.value) && ClusterAt(written.value, c) == ClusterAt(db, c)
  {
    var last := rec.(status := Terminated);
    WriteSnapshotLands(db, rec);
    SaveRingSlots(db.rings[rec.clusterId], last);
    hide SaveRing, UniqueSlots, Fits, Later, Constraints;
    PutElsewhere(db, rec.clusterId, R.Stored(RowOf(last), SaveRing(db.rings[rec.clusterId], last).value), c);
  }

  /** The only action that changes the record of a terminated cluster is the write of a snapshot that
      differs from it by more than the status. */
  lemma TerminatedChangesExactly(s: Shared, action: Action, c: ClusterId)
    requires AllFit(s) && c in s.db.clusters && s.db.clusters[c].status.Terminated?
    ensures Constraints(Perform(s, action).db)
    ensures ClusterAt(Perform(s, action).db, c) != ClusterAt(s.db, c) <==>
            && action.WriteSnapshot? && action.thread in s.held
            && s.held[action.thread].clusterId == c && !Agrees(s.db, s.held[action.thread])
  {
    hide Constraints, Fits, Later, ClusterAt, MarkMemberReady, SetClusterDistribution, InsertCluster, PutWorker,
         WriteCluster;
    ActionKeeps(s, action);
    match action
    case MarkMember(d, w) => TerminatedMark(s.db, c, d, w);
    case Report(d, windows) =>
      if SetClusterDistribution(s.db, d, windows).Some? { TerminatedReport(s.db, c, d, windows); }
    case Create(rec) =>
      if InsertCluster(s.db, rec).Some? { TerminatedCreate(s.db, c, rec); }
    case WriteRow(w) => TerminatedWriteRow(s.db, c, w);
    case ReadSnapshot(_, _) =>
    case WriteSnapshot(t) =>
      if t in s.held {
        WriteSnapshotLands(s.db, s.held[t]);
        if s.held[t].clusterId != c { TerminatedWrite(s.db, c, s.held[t]); }
      }
  }

  /** No snapshot of the cluster is held that differs from what is stored, except in status. */
  ghost predicate Quiet(s: Shared, c: ClusterId)
    requires Constraints(s.db)
  {
    forall t :: t in s.held && s.held[t].clusterId == c ==> Agrees(s.db, s.held[t])
  }

  lemma QuietStep(s: Shared, action: Action, c: ClusterId)
    requires AllFit(s) && c in s.db.clusters && s.db.clusters[c].status.Terminated? && Quiet(s, c)
    ensures AllFit(Perform(s, action)) && Quiet(Perform(s, action), c)
    ensures ClusterAt(Perform(s, action).db, c) == ClusterAt(s.db, c)
    ensures c in Perform(s, action).db.clusters && Perform(s, action).db.clusters[c].status.Terminated?
  {
    hide Constraints, Fits, Later, ClusterAt, Perform;
    ActionKeeps(s, action);
    TerminatedChangesExactly(s, action, c);
    var after := Perform(s, action);
    LaterTerminated(s.db, after.db, c);
    forall t | t in after.held && after.held[t].clusterId == c ensures Agrees(after.db, after.held[t]) {
      HeldAfter(s, action, t);
      if t in s.held && after.held[t] == s.held[t] {
        assert Agrees(s.db, s.held[t]);
      } else {
        LoadedId(s.db, action.cluster);
        StatusAt(s.db, c);
      }
    }
  }

  lemma LaterTerminated(db: Db, after: Db, c: ClusterId)
    requires Later(db, after) && c in db.clusters && db.clusters[c].status.Terminated?
    ensures c in after.clusters && after.clusters[c].status.Terminated?
  {
    assert LaterCluster(db, after, c);
  }

  lemma LoadedId(db: Db, c: ClusterId)
    requires Constraints(db) && c in db.clusters
    ensures ClusterAt(db, c).Some? && ClusterAt(db, c).value.clusterId == c
  {
  }

  /** A terminated cluster loads as terminated, so a snapshot read now agrees. */
  lemma StatusAt(db: Db, c: ClusterId)
    requires Constraints(db) && c in db.clusters && db.clusters[c].status.Terminated?
    ensures var rec := ClusterAt(db, c).value;
            rec.clusterId == c && rec.(status := Terminated) == rec
  {
  }

  /** What may follow on state s: any actions of any threads. */
  ghost predicate Continuation(s: Shared, states: seq<Shared>, actions: seq<Action>) {
    && |states| == |actions| + 1 && states[0] == s
    && (forall i :: 0 <= i < |states| ==> Constraints(states[i].db))
    && (forall i :: 0 <= i < |actions| ==> states[i + 1] == Perform(states[i], actions[i]))
  }

  lemma {:induction false} QuietForever(s: Shared, states: seq<Shared>, actions: seq<Action>, c: ClusterId, j: nat)
    requires AllFit(s) && c in s.db.clusters && s.db.clusters[c].status.Terminated? && Quiet(s, c)
    requires Continuation(s, states, actions) && j <= |actions|
    ensures AllFit(states[j]) && Quiet(states[j], c)
    ensures ClusterAt(states[j].db, c) == ClusterAt(s.db, c)
    ensures c in states[j].db.clusters && states[j].db.clusters[c].status.Terminated?
  {
    hide Constraints, Fits, Quiet, ClusterAt, Perform;
    if j > 0 {
      QuietForever(s, states, actions, c, j - 1);
      QuietStep(states[j - 1], actions[j - 1], c);
    }
  }

  /** The last state has the same record of the cluster. */
  ghost predicate EndsWith(s: Shared, states: seq<Shared>, c: ClusterId)
    requires Constraints(s.db)
  {
    && states != [] && Constraints(states[|states| - 1].db)
    && ClusterAt(states[|states| - 1].db, c) == ClusterAt(s.db, c)
  }

  ghost predicate Frozen(s: Shared, c: ClusterId)
    requires Constraints(s.db)
  {
    forall states: seq<Shared>, actions: seq<Action> :: Continuation(s, states, actions) ==> EndsWith(s, states, c)
  }

  /** From any state of any schedule on, the record of a terminated cluster is frozen under every
      continuation if and only if no thread holds a snapshot that differs from it. */
  lemma FrozenExactly(states: seq<Shared>, actions: seq<Action>, i: nat, c: ClusterId)
    requires Schedule(states, actions) && i <= |actions|
    requires c in states[i].db.clusters && states[i].db.clusters[c].status.Terminated?
    ensures Constraints(states[i].db)
    ensures Frozen(states[i], c) <==> Quiet(states[i], c)
  {
    hide Constraints, Fits, Later, ClusterAt, Perform, Agrees, Continuation;
    ScheduleKeeps(states, actions, i, i);
    hide Schedule;
    var s := states[i];
    if Quiet(s, c) {
      forall later: seq<Shared>, next: seq<Action> | Continuation(s, later, next) ensures EndsWith(s, later, c) {
        ContinuationLength(s, later, next);
        QuietForever(s, later, next, c, |next|);
      }
    } else {
      var t :| t in s.held && s.held[t].clusterId == c && !Agrees(s.db, s.held[t]);
      TerminatedChangesExactly(s, WriteSnapshot(t), c);
      OneAction(s, WriteSnapshot(t));
      assert !EndsWith(s, [s, Perform(s, WriteSnapshot(t))], c);
    }
  }

  lemma ContinuationLength(s: Shared, states: seq<Shared>, actions: seq<Action>)
    requires Continuation(s, states, actions)
    ensures |states| == |actions| + 1
  {
  }

  lemma OneAction(s: Shared, action: Action)
    requires Constraints(s.db) && Constraints(Perform(s, action).db)
    ensures Continuation(s, [s, Perform(s, action)], [action])
  {
    hide Constraints, Perform;
  }

  // ---- What is not fixed ----

  /** Two dissolves of one cluster, a ready report between their reads. */
  function Race(c: ClusterId, w: WorkerId): seq<Action> {
    [ReadSnapshot(0, c), MarkMember(c, w), ReadSnapshot(1, c), WriteSnapshot(0), WriteSnapshot(1)]
  }

  /** What the second reader sees. */
  lemma MarkedRecord(db: Db, c: ClusterId, w: WorkerId)
    requires Constraints(db) && Active(db, c) && w in db.rings[c]
    ensures Constraints(MarkMemberReady(db, c, w)) && c in MarkMemberReady(db, c, w).clusters
    ensures ClusterAt(MarkMemberReady(db, c, w), c).value.ready == ClusterAt(db, c).value.ready + {w}
    ensures ClusterAt(MarkMemberReady(db, c, w), c).value.clusterId == c
  {
    MarkLater(db, c, w);
    R.MarkReadyRefines(c, StoredAt(db, c), w);
    assert w in Elements(RingOrder(db.rings[c]));
    hide R.MarkReady, RingOrder, UniqueSlots, ReadyOf, IpsOf, WindowsOf;
  }

  /** Both snapshots are written, the older one first. */
  lemma RaceWrites(db: Db, c: ClusterId, w: WorkerId)
    returns (first: ClusterRecord, second: ClusterRecord, once: Db, twice: Db)
    requires Constraints(db) && Active(db, c) && w in db.rings[c]
    ensures Constraints(MarkMemberReady(db, c, w)) && Constraints(once) && Constraints(twice)
    ensures ClusterAt(db, c) == Some(first) && ClusterAt(MarkMemberReady(db, c, w), c) == Some(second)
    ensures second.ready == first.ready + {w}
    ensures WriteCluster(MarkMemberReady(db, c, w), first.(status := Terminated)) == Some(once)
    ensures WriteCluster(once, second.(status := Terminated)) == Some(twice)
    ensures ClusterAt(once, c) == Some(first.(status := Terminated))
    ensures ClusterAt(twice, c) == Some(second.(status := Terminated))
  {
    first := ClusterAt(db, c).value;
    LoadedFits(db, c);
    MarkedRecord(db, c, w);
    MarkLater(db, c, w);
    assert first.clusterId == c;
    hide Constraints, Fits, Later, ClusterAt, MarkMemberReady, WriteCluster, UniqueSlots, WellFormed;
    var marked := MarkMemberReady(db, c, w);
    LaterFits(db, marked, first);
    second := ClusterAt(marked, c).value;
    LoadedFits(marked, c);
    WriteSnapshotLands(marked, first);
    once := WriteCluster(marked, first.(status := Terminated)).value;
    LaterFits(marked, once, second);
    LaterConstraints(marked, once);
    WriteSnapshotLands(once, second);
    twice := WriteCluster(once, second.(status := Terminated)).value;
    LaterConstraints(once, twice);
  }

  lemma RaceStates(s: Shared, c: ClusterId, w: WorkerId, first: ClusterRecord, second: ClusterRecord,
                   once: Db, twice: Db)
    requires Constraints(s.db) && s.held == map[] && ClusterAt(s.db, c) == Some(first)
    requires Constraints(MarkMemberReady(s.db, c, w)) && ClusterAt(MarkMemberReady(s.db, c, w), c) == Some(second)
    requires WriteCluster(MarkMemberReady(s.db, c, w), first.(status := Terminated)) == Some(once)
    requires Constraints(once) && WriteCluster(once, second.(status := Terminated)) == Some(twice)
    ensures |Race(c, w)| == 5
    ensures var marked := MarkMemberReady(s.db, c, w);
            var race := Race(c, w);
            && Perform(s, race[0]) == s.(held := map[0 := first])
            && Perform(s.(held := map[0 := first]), race[1]) == Shared(marked, map[0 := first])
            && Perform(Shared(marked, map[0 := first]), race[2]) == Shared(marked, map[0 := first, 1 := second])
            && Perform(Shared(marked, map[0 := first, 1 := second]), race[3]) == Shared(once, map[1 := second])
            && Perform(Shared(once, map[1 := second]), race[4]) == Shared(twice, map[])
  {
    hide Constraints, ClusterAt, MarkMemberReady, WriteCluster;
    assert map[0 := first, 1 := second] - {0} == map[1 := second];
    assert map[1 := second] - {1} == map[];
  }

  lemma FiveActions(states: seq<Shared>, actions: seq<Action>)
    requires |actions| == 5 && |states| == 6 && states[0].held == map[]
    requires Constraints(states[0].db) && Constraints(states[1].db) && Constraints(states[2].db)
    requires Constraints(states[3].db) && Constraints(states[4].db)
    requires Perform(states[0], actions[0]) == states[1] && Perform(states[1], actions[1]) == states[2]
    requires Perform(states[2], actions[2]) == states[3] && Perform(states[3], actions[3]) == states[4]
    requires Perform(states[4], actions[4]) == states[5]
    ensures Schedule(states, actions)
  {
    hide Perform, Constraints;
  }

  lemma ReadyGrows(db: Db, c: ClusterId, w: WorkerId)
    requires Constraints(db) && c in db.clusters && w in db.rings[c]
    ensures ClusterAt(db, c).Some?
    ensures ClusterAt(db, c).value.ready + {w} != ClusterAt(db, c).value.ready <==> !db.rings[c][w].ready
  {
    hide RingOrder, IpsOf, WindowsOf, UniqueSlots;
  }

  /** From every state: two dissolves around a ready report change the ready set of a cluster that is
      already terminated, exactly when the reporter was not ready before, because the second writes back
      the one it had read. (A handler runs without interruption; between handlers no snapshot is held.) */
  lemma RaceRewrites(s: Shared, c: ClusterId, w: WorkerId) returns (states: seq<Shared>)
    requires s.held == map[] && Constraints(s.db) && Active(s.db, c) && w in s.db.rings[c]
    ensures Schedule(states, Race(c, w)) && states[0] == s
    ensures Constraints(states[4].db) && Constraints(states[5].db)
    ensures ClusterAt(states[4].db, c).Some? && ClusterAt(states[5].db, c).Some?
    ensures ClusterAt(states[4].db, c).value.status.Terminated?
    ensures ClusterAt(states[4].db, c).value.ready == ClusterAt(s.db, c).value.ready
    ensures ClusterAt(states[5].db, c).value.ready == ClusterAt(s.db, c).value.ready + {w}
    ensures ClusterAt(states[5].db, c).value.ready == ClusterAt(states[4].db, c).value.ready <==>
            s.db.rings[c][w].ready
  {
    hide Constraints, ClusterAt, MarkMemberReady, WriteCluster, Schedule, Perform, UniqueSlots, Race;
    ReadyGrows(s.db, c, w);
    var first, second, once, twice := RaceWrites(s.db, c, w);
    var marked := MarkMemberReady(s.db, c, w);
    RaceStates(s, c, w, first, second, once, twice);
    states := [s, s.(held := map[0 := first]), Shared(marked, map[0 := first]),
               Shared(marked, map[0 := first, 1 := second]), Shared(once, map[1 := second]), Shared(twice, map[])];
    FiveActions(states, Race(c, w));
  }

  /** One such schedule, from a state that a run reaches, with a cluster of one member that is not yet
      ready: terminated with nobody ready, and one action later with worker 2 ready. */
  lemma ReadySetNotFrozen() returns (worlds: seq<Runs.World>, states: seq<Shared>)
    ensures Runs.Execution(Reregistration.CONFIG, worlds, Reregistration.STEPS[..3])
    ensures Schedule(states, Race(3, 2)) && states[0] == Shared(worlds[3].db, map[])
    ensures Constraints(states[4].db) && Constraints(states[5].db)
    ensures ClusterAt(states[4].db, 3).Some? && ClusterAt(states[5].db, 3).Some?
    ensures ClusterAt(states[4].db, 3).value.status.Terminated?
    ensures ClusterAt(states[4].db, 3).value.ready == {} && ClusterAt(states[5].db, 3).value.ready == {2}
  {
    hide Runs.Next, Schedule, Addressing.HostText;
    var third;
    worlds, third := Reregistration.DeviceGrouped();
    var db := worlds[3].db;
    assert ClusterAt(db, 3).value.ready == {} by {
      hide RingOrder, UniqueSlots, IpsOf, WindowsOf;
    }
    hide Constraints, ClusterAt;
    states := RaceRewrites(Shared(db, map[]), 3, 2);
  }
}
