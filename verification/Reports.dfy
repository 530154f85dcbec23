/** Ready reports and layer reports (app.py: report_ready, _handle_ws_frame): whose report is recorded,
    where, and what a cluster has on record at any point of a run. */
module Reports {
  import opened Basics
  import opened Models
  import opened Rings
  import opened Tables
  import opened Scheduling
  import opened Invariants
  import opened Liveness
  import opened Ranks
  import opened Handlers
  import opened Transitions
  import opened Steps
  import opened Runs
  import opened Outcomes
  import R = Readiness

  // ---- What one report writes ----

  /** The ready mark of one member at most, and new windows for everybody if there are any. */
  ghost predicate Noted(before: R.Stored, after: R.Stored, ready: Option<WorkerId>,
                        windows: Option<map<WorkerId, nat>>) {
    && after.row == before.row.(status := after.row.status, reported := before.row.reported || windows.Some?)
    && after.ring.Keys == before.ring.Keys
    && forall v :: v in before.ring ==>
         after.ring[v] == MemberRow(before.ring[v].ringPosition, before.ring[v].assignedIp,
                                    before.ring[v].ready || ready == Some(v),
                                    WindowAfter(before.ring[v].layerWindow, v, windows))
  }

  function WindowAfter(before: Option<nat>, v: WorkerId, windows: Option<map<WorkerId, nat>>): Option<nat> {
    match windows
    case None => before
    case Some(ws) => if v in ws then Some(ws[v]) else None
  }

  /** Live if and only if everybody is ready and the layers are known. */
  ghost predicate LiveIfComplete(s: R.Stored) {
    && !s.row.status.Terminated?
    && (s.row.status.Live? <==> s.row.reported && forall v :: v in s.ring ==> s.ring[v].ready)
  }

  /** Nothing changed but the keys and what is stored of the cluster. */
  ghost predicate OnlyCluster(db: Db, after: Db, c: ClusterId) {
    && c in after.clusters && c in after.rings
    && after == db.(clusters := db.clusters[c := after.clusters[c]], rings := db.rings[c := after.rings[c]],
                    keys := after.keys)
  }

  lemma MarkNoted(s: R.Stored, w: WorkerId)
    requires UniqueSlots(s.ring) && !s.row.status.Terminated?
    ensures Noted(s, R.MarkReady(s, w), Some(w), None)
  {
    hide R.GateOpen, R.Load, UniqueSlots;
    assert R.MarkRow(s.ring, w).Keys == s.ring.Keys;
  }

  lemma DistributionNoted(s: R.Stored, windows: map<WorkerId, nat>)
    requires UniqueSlots(s.ring) && !s.row.status.Terminated?
    ensures Noted(s, R.SetDistribution(s, Some(windows)), None, Some(windows))
  {
    hide R.GateOpen, R.Load, UniqueSlots;
    assert R.SetWindows(s.ring, windows).Keys == s.ring.Keys;
  }

  lemma NotedBoth(a: R.Stored, b: R.Stored, c: R.Stored, windows: map<WorkerId, nat>, w: WorkerId)
    requires Noted(a, b, None, Some(windows)) && Noted(b, c, Some(w), None)
    ensures Noted(a, c, Some(w), Some(windows))
  {
  }

  lemma ActiveGate(cfg: Settings, db: Db, c: ClusterId)
    requires Inv(cfg, db) && Active(db, c)
    ensures c in db.rings && UniqueSlots(db.rings[c]) && LiveIfComplete(StoredAt(db, c))
  {
    assert ClusterHolds(db.clusters[c], db.rings[c]);
  }

  lemma MarkOnly(cfg: Settings, db: Db, c: ClusterId, w: WorkerId)
    requires Inv(cfg, db) && Constraints(db) && Active(db, c) && c in db.rings
    ensures var after := MarkMemberReady(db, c, w);
            && OnlyCluster(db, after, c) && Active(after, c)
            && Noted(StoredAt(db, c), StoredAt(after, c), Some(w), None)
  {
    hide Inv, Constraints, R.MarkReady, Noted, LiveIfComplete, UniqueSlots;
    ActiveGate(cfg, db, c);
    MarkNoted(StoredAt(db, c), w);
    MarkReadyKeeps(cfg, db, c, w);
    StillActive(StoredAt(db, c), w);
  }

  lemma StillActive(s: R.Stored, w: WorkerId)
    requires UniqueSlots(s.ring) && !s.row.status.Terminated?
    ensures !R.MarkReady(s, w).row.status.Terminated?
    ensures forall windows :: !R.SetDistribution(s, windows).row.status.Terminated?
  {
    hide R.GateOpen, R.Load, UniqueSlots;
  }

  lemma DistributeOnly(cfg: Settings, db: Db, c: ClusterId, windows: map<WorkerId, nat>)
    requires Inv(cfg, db) && Constraints(db) && Active(db, c) && c in db.rings
    ensures var after := Distribute(db, c, windows);
            && OnlyCluster(db, after, c) && Active(after, c)
            && Noted(StoredAt(db, c), StoredAt(after, c), None, Some(windows))
  {
    hide Inv, Constraints, R.SetDistribution, Noted, LiveIfComplete, UniqueSlots;
    ActiveGate(cfg, db, c);
    DistributionNoted(StoredAt(db, c), windows);
    StillActive(StoredAt(db, c), 0);
  }

  // ---- One ready report ----

  /** The worker heads the cluster. */
  predicate Heads(db: Db, v: WorkerId, c: ClusterId) {
    && v in db.workers && db.workers[v].clusterId == Some(c)
    && c in db.rings && v in db.rings[c] && db.rings[c][v].ringPosition == 0
  }

  lemma HeadPosition(cfg: Settings, db: Db, v: WorkerId, c: ClusterId)
    requires Inv(cfg, db) && v in db.workers && db.workers[v].clusterId == Some(c)
    ensures Active(db, c) && c in db.rings && v in db.rings[c]
    ensures db.workers[v].ringPosition == Some(0) <==> Heads(db, v, c)
  {
    assert Placed(db, v);
    assert Serves(cfg, db, c, v);
  }

  /** What the head's payload says about the members. */
  ghost function Reported(db: Db, c: ClusterId, payload: Payload): map<WorkerId, nat>
    requires c in db.rings && UniqueSlots(db.rings[c])
  {
    ByWorker(RingOrder(db.rings[c]), Counts(payload))
  }

  /** The windows that come with a ready report: the payload's, if the reporter is the head. */
  ghost function ReadyWindows(db: Db, v: WorkerId, c: ClusterId, layers: Option<Payload>): Option<map<WorkerId, nat>>
    requires c in db.rings && UniqueSlots(db.rings[c])
  {
    if layers.Some? && Heads(db, v, c) then Some(Reported(db, c, layers.value)) else None
  }

  function Written(db: Db, c: ClusterId, windows: Option<map<WorkerId, nat>>): Db
    requires Constraints(db)
  {
    match windows
    case None => db
    case Some(ws) => Distribute(db, c, ws)
  }

  lemma OnlyChain(a: Db, b: Db, d: Db, c: ClusterId)
    requires OnlyCluster(a, b, c) && OnlyCluster(b, d, c)
    ensures OnlyCluster(a, d, c)
  {
    assert a.clusters[c := b.clusters[c]][c := d.clusters[c]] == a.clusters[c := d.clusters[c]];
    assert a.rings[c := b.rings[c]][c := d.rings[c]] == a.rings[c := d.rings[c]];
  }

  lemma WrittenKeeps(cfg: Settings, db: Db, c: ClusterId, windows: Option<map<WorkerId, nat>>)
    requires Inv(cfg, db) && Constraints(db)
    ensures Inv(cfg, Written(db, c, windows)) && Constraints(Written(db, c, windows))
  {
    hide Inv, Constraints, Distribute, Preserves, SameLife;
    if windows.Some? { DistributeFacts(cfg, db, c, windows.value); }
    InvConstraints(cfg, Written(db, c, windows));
  }

  /** The windows, if there are any, and then the mark. */
  lemma MarkWritten(cfg: Settings, db: Db, c: ClusterId, w: WorkerId, windows: Option<map<WorkerId, nat>>)
    requires Inv(cfg, db) && Constraints(db) && Active(db, c) && c in db.rings
    ensures Constraints(Written(db, c, windows))
    ensures var after := MarkMemberReady(Written(db, c, windows), c, w);
            && OnlyCluster(db, after, c) && LiveIfComplete(StoredAt(after, c)) && Inv(cfg, after)
            && Noted(StoredAt(db, c), StoredAt(after, c), Some(w), windows)
  {
    hide Inv, Constraints, Distribute, MarkMemberReady, Noted, LiveIfComplete, OnlyCluster, UniqueSlots;
    WrittenKeeps(cfg, db, c, windows);
    var mid := Written(db, c, windows);
    if windows.Some? {
      DistributeOnly(cfg, db, c, windows.value);
    }
    StoredRings(mid);
    MarkOnly(cfg, mid, c, w);
    var after := MarkMemberReady(mid, c, w);
    MarkReadyKeeps(cfg, mid, c, w);
    InvConstraints(cfg, after);
    StoredRings(after);
    ActiveGate(cfg, after, c);
    if windows.Some? {
      OnlyChain(db, mid, after, c);
      NotedBoth(StoredAt(db, c), StoredAt(mid, c), StoredAt(after, c), windows.value, w);
    }
  }

  lemma StoredRings(db: Db)
    requires Constraints(db)
    ensures db.rings.Keys == db.clusters.Keys && forall c :: c in db.rings ==> UniqueSlots(db.rings[c])
  {
  }

  /** A ready report is denied, and changes nothing, unless the caller speaks for a member. Otherwise it
      marks that very member ready; with the head's layers it also sets everybody's window; the cluster is
      then live if and only if everybody is ready and the layers are known. */
  lemma ReadyExactly(cfg: Settings, db: Db, cred: Credential, c: ClusterId, layers: Option<Payload>)
    requires Inv(cfg, db) && Constraints(db)
    ensures c !in db.clusters || BoundWorker(db, cred, c).worker.None? ==>
              Ready(db, cred, c, layers) == Outcome(db, Denied)
    ensures c in db.clusters && BoundWorker(db, cred, c).worker.Some? ==>
              var e := Ready(db, cred, c, layers);
              var v := BoundWorker(db, cred, c).worker.value.workerId;
              && e.reply == Ok && Inv(cfg, e.db) && OnlyCluster(db, e.db, c)
              && c in db.rings && UniqueSlots(db.rings[c])
              && Noted(StoredAt(db, c), StoredAt(e.db, c), Some(v), ReadyWindows(db, v, c, layers))
              && LiveIfComplete(StoredAt(e.db, c))
  {
    hide Inv, Constraints, BoundWorker, Distribute, MarkMemberReady, Noted, LiveIfComplete, OnlyCluster,
         UniqueSlots, ReadyWindows, Ready, Preserves, SameLife;
    UnheardUnchanged(db, cred, c);
    StoredRings(db);
    if c in db.clusters && BoundWorker(db, cred, c).worker.Some? {
      var found := BoundWorker(db, cred, c);
      var v := found.worker.value.workerId;
      BoundWorkerFacts(cfg, db, cred, c);
      InvConstraints(cfg, found.db);
      BoundWorkerSound(cfg, db, cred, c);
      HeadPosition(cfg, db, v, c);
      var windows := ReadyWindows(db, v, c, layers);
      MarkWritten(cfg, found.db, c, v, windows);
      ReadyIs(db, cred, c, layers);
      KeysAside(db, found.db, MarkMemberReady(Written(found.db, c, windows), c, v), c);
    } else {
      ReadyDenied(db, cred, c, layers);
    }
  }

  lemma KeysAside(db: Db, found: Db, after: Db, c: ClusterId)
    requires found == db.(keys := found.keys) && OnlyCluster(found, after, c)
    ensures OnlyCluster(db, after, c)
  {
  }

  lemma ReadyDenied(db: Db, cred: Credential, c: ClusterId, layers: Option<Payload>)
    requires Constraints(db) && (c !in db.clusters || BoundWorker(db, cred, c).worker.None?)
    ensures Ready(db, cred, c, layers).reply == Denied
    ensures Ready(db, cred, c, layers).db == if c in db.clusters then BoundWorker(db, cred, c).db else db
  {
    hide Constraints, BoundWorker, Distribute, MarkMemberReady, ByWorker, Counts, UniqueSlots, RingOrder, IpsOf,
         WindowsOf, ReadyOf;
  }

  /** The handler looks at the position in the worker's row to tell whether it is the head. */
  lemma ReadyIs(db: Db, cred: Credential, c: ClusterId, layers: Option<Payload>)
    requires Constraints(db) && c in db.clusters && BoundWorker(db, cred, c).worker.Some?
    requires c in db.rings && UniqueSlots(db.rings[c]) && Constraints(BoundWorker(db, cred, c).db)
    requires var w := BoundWorker(db, cred, c).worker.value;
             w.ringPosition == Some(0) <==> Heads(db, w.workerId, c)
    ensures var found := BoundWorker(db, cred, c);
            var windows := ReadyWindows(db, found.worker.value.workerId, c, layers);
            && Constraints(Written(found.db, c, windows))
            && Ready(db, cred, c, layers) ==
               Outcome(MarkMemberReady(Written(found.db, c, windows), c, found.worker.value.workerId), Ok)
  {
    hide Constraints, BoundWorker, Distribute, MarkMemberReady, ByWorker, Counts, UniqueSlots, RingOrder, IpsOf,
         WindowsOf, ReadyOf, Heads;
    var found := BoundWorker(db, cred, c);
    if layers.Some? {
      DistributeConstraints(found.db, c, Reported(db, c, layers.value));
    }
  }

  lemma UnheardUnchanged(db: Db, cred: Credential, c: ClusterId)
    requires Constraints(db)
    ensures BoundWorker(db, cred, c).worker.None? ==> BoundWorker(db, cred, c).db == db
  {
    hide Constraints, MembersOf, Rows, Bind;
  }

  // ---- One layer frame ----

  /** A frame that is no object counts as an empty report. */
  function FramePayload(frame: FrameWindows): Payload {
    if frame.Object? then frame.payload else []
  }

  /** A layer frame changes nothing unless its sender heads the cluster it names. From the head it sets
      everybody's window and marks nobody ready. */
  lemma FrameExactly(cfg: Settings, db: Db, w: WorkerId, c: ClusterId, frame: FrameWindows)
    requires Inv(cfg, db) && Constraints(db)
    ensures !Heads(db, w, c) ==> Frame(db, w, c, frame) == db
    ensures Heads(db, w, c) ==>
              var after := Frame(db, w, c, frame);
              && Inv(cfg, after) && OnlyCluster(db, after, c) && UniqueSlots(db.rings[c])
              && Noted(StoredAt(db, c), StoredAt(after, c), None, Some(Reported(db, c, FramePayload(frame))))
              && LiveIfComplete(StoredAt(after, c))
  {
    hide Inv, Constraints, Distribute, Noted, LiveIfComplete, OnlyCluster, UniqueSlots, ByWorker, Counts, RingOrder,
         IpsOf, WindowsOf, ReadyOf;
    StoredRings(db);
    if w in db.workers && db.workers[w].clusterId == Some(c) {
      HeadPosition(cfg, db, w, c);
    }
    if Heads(db, w, c) {
      NoCounts(RingOrder(db.rings[c]));
      var windows := Reported(db, c, FramePayload(frame));
      assert Frame(db, w, c, frame) == Distribute(db, c, windows);
      DistributeOnly(cfg, db, c, windows);
      WrittenKeeps(cfg, db, c, Some(windows));
      StoredRings(Distribute(db, c, windows));
      ActiveGate(cfg, Distribute(db, c, windows), c);
    }
  }

  lemma NoCounts(members: seq<WorkerId>)
    ensures ByWorker(members, Counts([])) == map[]
  {
  }

  // ---- What a step reports ----

  /** The member that the step, a ready report that is accepted, marks ready in c. */
  ghost function ReporterOf(db: Db, step: Step, c: ClusterId): Option<WorkerId>
    requires Constraints(db)
  {
    if step.ReportReady? && step.cluster == c && c in db.clusters && BoundWorker(db, step.cred, c).worker.Some?
    then Some(BoundWorker(db, step.cred, c).worker.value.workerId)
    else None
  }

  /** The layers that the step brings for c: with the ready report of its head, or in a frame of its head. */
  ghost function LayersOf(db: Db, step: Step, c: ClusterId): Option<Payload>
    requires Constraints(db)
  {
    match step
    case ReportReady(_, _, layers) =>
      if ReporterOf(db, step, c).Some? && Heads(db, ReporterOf(db, step, c).value, c) then layers else None
    case SendFrame(w, d, frame) => if d == c && Heads(db, w, c) then Some(FramePayload(frame)) else None
    case _ => None
  }

  ghost function WindowsBrought(db: Db, step: Step, c: ClusterId): Option<map<WorkerId, nat>>
    requires Constraints(db) && c in db.rings && UniqueSlots(db.rings[c])
  {
    match LayersOf(db, step, c)
    case None => None
    case Some(payload) => Some(Reported(db, c, payload))
  }

  lemma SameNoted(db: Db, after: Db, c: ClusterId)
    requires c in db.clusters && c in db.rings && after.clusters == db.clusters && after.rings == db.rings
    ensures Noted(StoredAt(db, c), StoredAt(after, c), None, None)
  {
  }

  lemma OtherNoted(db: Db, after: Db, c: ClusterId, d: ClusterId)
    requires c in db.clusters && c in db.rings && OnlyCluster(db, after, d) && d != c
    ensures c in after.clusters && c in after.rings && Noted(StoredAt(db, c), StoredAt(after, c), None, None)
  {
  }

  lemma KeptNoted(db: Db, after: Db, c: ClusterId)
    requires c in db.clusters && c in db.rings && c in after.clusters && c in after.rings
    requires after.rings[c] == db.rings[c]
    requires after.clusters[c] == db.clusters[c] || Ended(db.clusters[c], after.clusters[c])
    ensures Noted(StoredAt(db, c), StoredAt(after, c), None, None)
  {
  }

  lemma RoundNoted(cfg: Settings, start: Db, now: Time, c: ClusterId)
    requires Constraints(start) && Drawn(start) && c in start.clusters && c in start.rings
    ensures var after := CheckAndForm(cfg, start, cfg.modelOrder, now).db;
            c in after.clusters && c in after.rings && Noted(StoredAt(start, c), StoredAt(after, c), None, None)
  {
    hide CheckAndForm, Noted, Constraints;
    RoundFacts(cfg, start, cfg.modelOrder, now);
    KeptNoted(start, CheckAndForm(cfg, start, cfg.modelOrder, now).db, c);
  }

  lemma RegisterNoted(cfg: Settings, db: Db, cred: Credential, body: RegisterBody, now: Time, c: ClusterId)
    requires Inv(cfg, db) && Constraints(db) && c in db.clusters && c in db.rings
    ensures var after := Register(cfg, db, cred, body, now).db;
            c in after.clusters && c in after.rings && Noted(StoredAt(db, c), StoredAt(after, c), None, None)
  {
    hide Inv, Constraints, Drawn, Enroll, CheckAndForm, Admissible, Noted;
    if Enrolling(cfg, db, cred, body) && Enroll(cfg, db, cred.key, body, now).Some? {
      RegisterRound(cfg, db, cred, body, now);
      RoundNoted(cfg, Enroll(cfg, db, cred.key, body, now).value, now, c);
      hide Register;
    } else {
      SameNoted(db, Register(cfg, db, cred, body, now).db, c);
    }
  }

  lemma HeartbeatNoted(cfg: Settings, db: Db, cred: Credential, w: WorkerId, now: Time, c: ClusterId)
    requires Inv(cfg, db) && Constraints(db) && c in db.clusters && c in db.rings
    ensures var after := Heartbeat(cfg, db, cred, w, now).db;
            c in after.clusters && c in after.rings && Noted(StoredAt(db, c), StoredAt(after, c), None, None)
  {
    hide Inv, Constraints, Drawn, WorkerFromKey, CheckAndForm, Heartbeat, Noted, Beat, PutWorker, Preserves, SameLife;
    if WorkerFromKey(db, cred, w).worker.Some? {
      HeartbeatRound(cfg, db, cred, w, now);
      var found := WorkerFromKey(db, cred, w);
      RoundNoted(cfg, PutWorker(found.db, Beat(cfg, found.worker.value, now)), now, c);
    } else {
      WorkerFromKeyFacts(cfg, db, cred, w);
      DeniedHeartbeat(cfg, db, cred, w, now);
      SameNoted(db, WorkerFromKey(db, cred, w).db, c);
    }
  }

  lemma RevokeNoted(cfg: Settings, db: Db, cred: Credential, w: WorkerId, c: ClusterId)
    requires Inv(cfg, db) && Constraints(db) && c in db.clusters && c in db.rings
    ensures var after := Revoke(db, cred, w).db;
            c in after.clusters && c in after.rings && Noted(StoredAt(db, c), StoredAt(after, c), None, None)
  {
    hide Inv, Constraints, Revoke, Noted, BackOnWaitlist, Partner, Owns;
    RevokeExactly(cfg, db, cred, w);
    KeptNoted(db, Revoke(db, cred, w).db, c);
  }

  lemma SweepNoted(cfg: Settings, db: Db, now: Time, timeout: Time, c: ClusterId)
    requires Inv(cfg, db) && Constraints(db) && c in db.clusters && c in db.rings
    ensures var after := Sweep(db, now, timeout);
            c in after.clusters && c in after.rings && Noted(StoredAt(db, c), StoredAt(after, c), None, None)
  {
    hide Inv, Constraints, Sweep, Noted, BackOnWaitlist, Shaken, Silent;
    SweepExactly(cfg, db, now, timeout);
    KeptNoted(db, Sweep(db, now, timeout), c);
  }

  lemma ReadyNoted(cfg: Settings, db: Db, step: Step, c: ClusterId)
    requires Inv(cfg, db) && Constraints(db) && c in db.clusters && step.ReportReady?
    requires c in db.rings && UniqueSlots(db.rings[c])
    ensures var after := Ready(db, step.cred, step.cluster, step.layers).db;
            && c in after.clusters && c in after.rings
            && Noted(StoredAt(db, c), StoredAt(after, c), ReporterOf(db, step, c), WindowsBrought(db, step, c))
  {
    hide Inv, Constraints, Ready, BoundWorker, Noted, LiveIfComplete, UniqueSlots, Heads, OnlyCluster, Reported;
    var d := step.cluster;
    ReadyExactly(cfg, db, step.cred, d, step.layers);
    var after := Ready(db, step.cred, d, step.layers).db;
    if d !in db.clusters || BoundWorker(db, step.cred, d).worker.None? {
      SameNoted(db, after, c);
    } else if d != c {
      OtherNoted(db, after, c, d);
    } else {
      OnlyKeeps(db, after, c);
    }
  }

  lemma OnlyKeeps(db: Db, after: Db, c: ClusterId)
    requires OnlyCluster(db, after, c)
    ensures c in after.clusters && c in after.rings
  {
  }

  lemma FrameNoted(cfg: Settings, db: Db, step: Step, c: ClusterId)
    requires Inv(cfg, db) && Constraints(db) && c in db.clusters && step.SendFrame?
    requires c in db.rings && UniqueSlots(db.rings[c])
    ensures var after := Frame(db, step.worker, step.cluster, step.frame);
            && c in after.clusters && c in after.rings
            && Noted(StoredAt(db, c), StoredAt(after, c), None, WindowsBrought(db, step, c))
  {
    hide Inv, Constraints, Frame, Noted, LiveIfComplete, UniqueSlots, Heads, OnlyCluster, Reported;
    var d := step.cluster;
    FrameExactly(cfg, db, step.worker, d, step.frame);
    var after := Frame(db, step.worker, d, step.frame);
    if !Heads(db, step.worker, d) {
      SameNoted(db, after, c);
    } else if d != c {
      OtherNoted(db, after, c, d);
    } else {
      OnlyKeeps(db, after, c);
    }
  }

  /** Every step records in a cluster exactly what it reports about it. */
  lemma StepNoted(cfg: Settings, db: Db, step: Step, c: ClusterId)
    requires Inv(cfg, db) && Constraints(db) && c in db.clusters
    ensures c in db.rings && UniqueSlots(db.rings[c])
    ensures var after := Apply(cfg, db, step);
            && c in after.clusters && c in after.rings
            && Noted(StoredAt(db, c), StoredAt(after, c), ReporterOf(db, step, c), WindowsBrought(db, step, c))
  {
    hide Inv, Constraints, Ready, BoundWorker, Noted, UniqueSlots, Frame, Revoke, Sweep, Register, Heartbeat,
         WorkerFromKey, Heads, Preserves, SameLife, Reported;
    StoredRings(db);
    match step
    case RegisterWorker(cred, body, now) => RegisterNoted(cfg, db, cred, body, now, c);
    case SendHeartbeat(cred, w, now) => HeartbeatNoted(cfg, db, cred, w, now, c);
    case RevokeWorker(cred, w) => RevokeNoted(cfg, db, cred, w, c);
    case ReadState(cred, w) => WorkerFromKeyFacts(cfg, db, cred, w); SameNoted(db, Apply(cfg, db, step), c);
    case ReadConfig(cred, d) => BoundWorkerFacts(cfg, db, cred, d); SameNoted(db, Apply(cfg, db, step), c);
    case ReportReady(_, _, _) => ReadyNoted(cfg, db, step, c);
    case SendFrame(_, _, _) => FrameNoted(cfg, db, step, c);
    case SweepOnce(now) => SweepNoted(cfg, db, now, cfg.heartbeatTimeout, c);
    case _ => SameNoted(db, Apply(cfg, db, step), c);
  }

  // ---- What a cluster has on record ----

  /** At step j of the run v's own ready report on c was accepted. */
  ghost predicate ReportedBy(cfg: Settings, states: seq<World>, steps: seq<Step>, j: nat, c: ClusterId, v: WorkerId)
    requires Execution(cfg, states, steps) && j < |steps|
  {
    assert Next(cfg, states[j], steps[j], states[j + 1]);
    ReporterOf(states[j].db, steps[j], c) == Some(v)
  }

  /** At step j the head of c reported layers. */
  ghost predicate LayersBy(cfg: Settings, states: seq<World>, steps: seq<Step>, j: nat, c: ClusterId)
    requires Execution(cfg, states, steps) && j < |steps|
  {
    assert Next(cfg, states[j], steps[j], states[j + 1]);
    LayersOf(states[j].db, steps[j], c).Some?
  }

  /** Nobody reported layers for c after step j and before step i. */
  ghost predicate LastLayers(cfg: Settings, states: seq<World>, steps: seq<Step>, j: nat, i: nat, c: ClusterId)
    requires Execution(cfg, states, steps) && j < i <= |steps|
  {
    LayersBy(cfg, states, steps, j, c) && forall k :: j < k < i ==> !LayersBy(cfg, states, steps, k, c)
  }

  /** The windows in the rows are what the payload says about the members. */
  ghost predicate WindowsAre(ring: Ring, payload: Payload)
    requires UniqueSlots(ring)
  {
    var windows := ByWorker(RingOrder(ring), Counts(payload));
    forall v :: v in ring ==> ring[v].layerWindow == if v in windows then Some(windows[v]) else None
  }

  ghost predicate LayersAre(db: Db, c: ClusterId, at: Db, step: Step)
    requires c in db.rings && UniqueSlots(db.rings[c]) && Constraints(at)
  {
    LayersOf(at, step, c).Some? ==> WindowsAre(db.rings[c], LayersOf(at, step, c).value)
  }

  /** v's own ready report on c was accepted before state i. */
  ghost predicate ReportedBefore(cfg: Settings, states: seq<World>, steps: seq<Step>, i: nat, c: ClusterId,
                                 v: WorkerId)
    requires Execution(cfg, states, steps) && i <= |steps|
  {
    exists j: nat :: j < i && ReportedBy(cfg, states, steps, j, c, v)
  }

  /** A head of c reported layers before state i. */
  ghost predicate LayersBefore(cfg: Settings, states: seq<World>, steps: seq<Step>, i: nat, c: ClusterId)
    requires Execution(cfg, states, steps) && i <= |steps|
  {
    exists j: nat :: j < i && LayersBy(cfg, states, steps, j, c)
  }

  /** A member is marked ready if and only if its own report was accepted before. */
  ghost predicate ReadyOnRecord(cfg: Settings, states: seq<World>, steps: seq<Step>, i: nat, c: ClusterId)
    requires Execution(cfg, states, steps) && i <= |steps| && c in states[i].db.rings
  {
    forall v :: v in states[i].db.rings[c] ==>
      (states[i].db.rings[c][v].ready <==> ReportedBefore(cfg, states, steps, i, c, v))
  }

  /** The layers are known if and only if the head reported some before. */
  ghost predicate KnownOnRecord(cfg: Settings, states: seq<World>, steps: seq<Step>, i: nat, c: ClusterId)
    requires Execution(cfg, states, steps) && i <= |steps| && c in states[i].db.clusters
  {
    states[i].db.clusters[c].reported <==> LayersBefore(cfg, states, steps, i, c)
  }

  /** And the windows are those of the newest report. */
  ghost predicate WindowsOnRecord(cfg: Settings, states: seq<World>, steps: seq<Step>, i: nat, c: ClusterId)
    requires Execution(cfg, states, steps) && i <= |steps|
    requires c in states[i].db.rings && UniqueSlots(states[i].db.rings[c])
  {
    forall j: nat :: j < i && LastLayers(cfg, states, steps, j, i, c) ==>
      Constraints(states[j].db) && LayersAre(states[i].db, c, states[j].db, steps[j])
  }

  lemma SameOrder(a: Ring, b: Ring)
    requires UniqueSlots(a) && UniqueSlots(b) && a.Keys == b.Keys
    requires forall v :: v in a ==> b[v].ringPosition == a[v].ringPosition
    ensures RingOrder(a) == RingOrder(b)
  {
    R.SameSlotsSameOrder(a, b);
  }

  /** Step i in the run. */
  lemma RunNoted(cfg: Settings, states: seq<World>, steps: seq<Step>, i: nat, c: ClusterId)
    requires cfg.heartbeatTimeout >= 0.0
    requires Execution(cfg, states, steps) && i < |steps| && c in states[i].db.clusters
    ensures Constraints(states[i].db) && c in states[i].db.rings && UniqueSlots(states[i].db.rings[c])
    ensures var db, after := states[i].db, states[i + 1].db;
            && c in after.clusters && c in after.rings && UniqueSlots(after.rings[c])
            && Noted(StoredAt(db, c), StoredAt(after, c), ReporterOf(db, steps[i], c), WindowsBrought(db, steps[i], c))
  {
    hide Inv, Constraints, Apply, Allowed, Timed, UniqueSlots, Noted, ReporterOf, WindowsBrought;
    RunInvariant(cfg, states, steps, i);
    RunInvariant(cfg, states, steps, i + 1);
    assert Next(cfg, states[i], steps[i], states[i + 1]);
    InvConstraints(cfg, states[i + 1].db);
    StoredRings(states[i + 1].db);
    StepNoted(cfg, states[i].db, steps[i], c);
  }

  lemma ReadyRecorded(cfg: Settings, states: seq<World>, steps: seq<Step>, i: nat, c: ClusterId)
    requires cfg.heartbeatTimeout >= 0.0
    requires Execution(cfg, states, steps) && i < |steps| && c in states[i].db.clusters && c in states[i].db.rings
    requires ReadyOnRecord(cfg, states, steps, i, c)
    ensures c in states[i + 1].db.rings && ReadyOnRecord(cfg, states, steps, i + 1, c)
  {
    hide Next, Constraints, UniqueSlots, ReporterOf, WindowsBrought, LayersOf, WindowAfter;
    RunNoted(cfg, states, steps, i, c);
    var ring := states[i + 1].db.rings[c];
    forall v | v in ring ensures ring[v].ready <==> ReportedBefore(cfg, states, steps, i + 1, c, v) {
      assert ReportedBy(cfg, states, steps, i, c, v) <==> ReporterOf(states[i].db, steps[i], c) == Some(v);
    }
  }

  lemma KnownRecorded(cfg: Settings, states: seq<World>, steps: seq<Step>, i: nat, c: ClusterId)
    requires cfg.heartbeatTimeout >= 0.0
    requires Execution(cfg, states, steps) && i < |steps| && c in states[i].db.clusters
    requires KnownOnRecord(cfg, states, steps, i, c)
    ensures c in states[i + 1].db.clusters && KnownOnRecord(cfg, states, steps, i + 1, c)
  {
    hide Next, Constraints, UniqueSlots, ReporterOf, LayersOf, WindowAfter;
    RunNoted(cfg, states, steps, i, c);
    assert LayersBy(cfg, states, steps, i, c) <==> LayersOf(states[i].db, steps[i], c).Some?;
  }

  lemma WindowsRecorded(cfg: Settings, states: seq<World>, steps: seq<Step>, i: nat, c: ClusterId)
    requires cfg.heartbeatTimeout >= 0.0
    requires Execution(cfg, states, steps) && i < |steps| && c in states[i].db.clusters
    requires c in states[i].db.rings && UniqueSlots(states[i].db.rings[c])
    requires c in states[i + 1].db.rings && UniqueSlots(states[i + 1].db.rings[c])
    requires WindowsOnRecord(cfg, states, steps, i, c)
    ensures WindowsOnRecord(cfg, states, steps, i + 1, c)
  {
    hide Next, Constraints, UniqueSlots, ReporterOf, LayersOf, ByWorker, Counts, RingOrder;
    RunNoted(cfg, states, steps, i, c);
    SameOrder(states[i].db.rings[c], states[i + 1].db.rings[c]);
    assert LayersBy(cfg, states, steps, i, c) <==> LayersOf(states[i].db, steps[i], c).Some?;
    forall j: nat | j < i + 1 && LastLayers(cfg, states, steps, j, i + 1, c)
      ensures Constraints(states[j].db) && LayersAre(states[i + 1].db, c, states[j].db, steps[j])
    {
      if j < i {
        assert !LayersBy(cfg, states, steps, i, c);
        assert LastLayers(cfg, states, steps, j, i, c);
      }
    }
  }

  ghost predicate NobodyReady(ring: Ring) {
    forall v :: v in ring ==> !ring[v].ready
  }

  /** When a cluster appears nothing is on record. */
  lemma AppearsUnreported(cfg: Settings, states: seq<World>, steps: seq<Step>, i: nat, c: ClusterId)
    requires cfg.heartbeatTimeout >= 0.0 && Execution(cfg, states, steps) && i < |steps|
    requires c !in states[i].db.clusters && c in states[i + 1].db.clusters
    ensures c in states[i + 1].db.rings && UniqueSlots(states[i + 1].db.rings[c])
    ensures !states[i + 1].db.clusters[c].reported
    ensures NobodyReady(states[i + 1].db.rings[c])
  {
    hide Inv, Constraints, Apply, Allowed, Timed, UniqueSlots, RoundDb, CheckAndForm, Drawn;
    RunInvariant(cfg, states, steps, i);
    RunInvariant(cfg, states, steps, i + 1);
    assert Next(cfg, states[i], steps[i], states[i + 1]);
    InvConstraints(cfg, states[i + 1].db);
    StoredRings(states[i + 1].db);
    RoundSpec(cfg, states[i].db, steps[i]);
    var start := RoundDb(cfg, states[i].db, steps[i]).value;
    RoundFacts(cfg, start, cfg.modelOrder, steps[i].now);
    assert Assembled(start, states[i + 1].db.clusters[c], states[i + 1].db.rings[c], steps[i].now);
  }

  /** And nothing was reported about it before. */
  lemma NothingBefore(cfg: Settings, states: seq<World>, steps: seq<Step>, i: nat, c: ClusterId, j: nat, v: WorkerId)
    requires cfg.heartbeatTimeout >= 0.0 && Execution(cfg, states, steps) && i < |steps| && j <= i
    requires c !in states[i].db.clusters
    ensures !ReportedBy(cfg, states, steps, j, c, v) && !LayersBy(cfg, states, steps, j, c)
  {
    hide Inv, Constraints, Apply, Allowed, Timed, BoundWorker, SameHistory;
    HistoryPreserved(cfg, states, steps, j, i);
    RunInvariant(cfg, states, steps, j);
    assert Next(cfg, states[j], steps[j], states[j + 1]);
    StoredRings(states[j].db);
  }

  lemma NewOnRecord(cfg: Settings, states: seq<World>, steps: seq<Step>, i: nat, c: ClusterId)
    requires cfg.heartbeatTimeout >= 0.0 && Execution(cfg, states, steps) && i < |steps|
    requires c !in states[i].db.clusters && c in states[i + 1].db.clusters
    ensures c in states[i + 1].db.rings && UniqueSlots(states[i + 1].db.rings[c])
    ensures ReadyOnRecord(cfg, states, steps, i + 1, c) && KnownOnRecord(cfg, states, steps, i + 1, c)
    ensures WindowsOnRecord(cfg, states, steps, i + 1, c)
  {
    hide Next, Constraints, UniqueSlots, ReportedBy, LayersBy;
    AppearsUnreported(cfg, states, steps, i, c);
    forall j: nat, v | j < i + 1 ensures !ReportedBy(cfg, states, steps, j, c, v) {
      NothingBefore(cfg, states, steps, i, c, j, v);
    }
    forall j: nat | j < i + 1 ensures !LayersBy(cfg, states, steps, j, c) {
      NothingBefore(cfg, states, steps, i, c, j, 0);
    }
  }

  /** In every state of every run each cluster, active or terminated, has on record what was reported about
      it: the ready marks of exactly those members whose own reports were accepted, layers if and only if its
      head reported some, and then the windows of the newest report. */
  lemma {:induction false} ReportsOnRecord(cfg: Settings, states: seq<World>, steps: seq<Step>, i: nat, c: ClusterId)
    requires cfg.heartbeatTimeout >= 0.0 && Execution(cfg, states, steps) && i <= |steps|
    requires c in states[i].db.clusters
    ensures c in states[i].db.rings && UniqueSlots(states[i].db.rings[c])
    ensures ReadyOnRecord(cfg, states, steps, i, c) && KnownOnRecord(cfg, states, steps, i, c)
    ensures WindowsOnRecord(cfg, states, steps, i, c)
  {
    hide Next, ReadyOnRecord, KnownOnRecord, WindowsOnRecord, UniqueSlots;
    if i == 0 {
      assert false;
    } else if c in states[i - 1].db.clusters {
      ReportsOnRecord(cfg, states, steps, i - 1, c);
      RunNoted(cfg, states, steps, i - 1, c);
      ReadyRecorded(cfg, states, steps, i - 1, c);
      KnownRecorded(cfg, states, steps, i - 1, c);
      WindowsRecorded(cfg, states, steps, i - 1, c);
    } else {
      NewOnRecord(cfg, states, steps, i - 1, c);
    }
  }

  /** So a cluster that has not ended is live if and only if each member's own ready report and a layer
      report of its head were accepted. */
  lemma LiveExactlyWhenReported(cfg: Settings, states: seq<World>, steps: seq<Step>, i: nat, c: ClusterId)
    requires cfg.heartbeatTimeout >= 0.0 && Execution(cfg, states, steps) && i <= |steps|
    requires Active(states[i].db, c)
    ensures c in states[i].db.rings
    ensures states[i].db.clusters[c].status.Live? <==>
            && (forall v :: v in states[i].db.rings[c] ==> ReportedBefore(cfg, states, steps, i, c, v))
            && LayersBefore(cfg, states, steps, i, c)
  {
    hide Next, Inv, Timed, UniqueSlots, ReportedBefore, LayersBefore;
    RunInvariant(cfg, states, steps, i);
    ActiveGate(cfg, states[i].db, c);
    ReportsOnRecord(cfg, states, steps, i, c);
  }
}
