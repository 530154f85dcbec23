/** Registration (app.py: register_worker; store.py: create_worker_if_available): who gets a row, which one,
    and what that means for the worker table over whole runs. */
module Registrations {
  import opened Basics
  import opened Models
  import opened Tables
  import opened Waitlists
  import opened Scheduling
  import opened Invariants
  import opened Handlers
  import opened Transitions
  import opened Steps
  import opened Runs
  import opened Outcomes
  import opened Reports
  import opened Liveness
  import opened Advertisements

  // ---- The account's devices ----

  ghost function DevicesOf(db: Db, a: AccountId): set<WorkerId> {
    set w | w in db.workers && db.workers[w].accountId == a
  }

  /** The account has a worker for the device. */
  ghost predicate Known(db: Db, a: AccountId, pubkey: Token) {
    exists w :: w in db.workers && db.workers[w].accountId == a && db.workers[w].wgPubkey == pubkey
  }

  lemma {:induction false} OfAccountDistinct(rows: seq<Worker>, a: AccountId)
    requires Distinct(WorkerIds(rows))
    ensures Distinct(WorkerIds(OfAccount(rows, a)))
  {
    if rows != [] {
      var rest := rows[1..];
      forall i, j | 0 <= i < j < |rest| ensures WorkerIds(rest)[i] != WorkerIds(rest)[j] {
        assert WorkerIds(rows)[i + 1] != WorkerIds(rows)[j + 1];
      }
      OfAccountDistinct(rest, a);
      OfAccountSpec(rest, a);
      var found := OfAccount(rest, a);
      forall i | 0 <= i < |found| ensures found[i].workerId != rows[0].workerId {
        assert found[i] in rest;
        var j :| 0 <= j < |rest| && rest[j] == found[i];
        assert WorkerIds(rows)[0] != WorkerIds(rows)[j + 1];
      }
    }
  }

  lemma AccountRows(db: Db, a: AccountId)
    requires Constraints(db)
    ensures |OfAccount(Rows(db), a)| == |DevicesOf(db, a)|
    ensures forall w :: w in OfAccount(Rows(db), a) <==>
                        w.workerId in db.workers && db.workers[w.workerId] == w && w.accountId == a
  {
    hide Rows, OfAccount;
    RowsDistinct(db);
    OfAccountSpec(Rows(db), a);
    OfAccountDistinct(Rows(db), a);
    var found := OfAccount(Rows(db), a);
    forall w ensures w in WorkerIds(found) <==> w in DevicesOf(db, a) {
      if w in WorkerIds(found) {
        var i :| 0 <= i < |found| && WorkerIds(found)[i] == w;
        assert found[i] in found;
      }
      if w in DevicesOf(db, a) {
        assert db.workers[w].workerId == w && db.workers[w] in found;
        var i :| 0 <= i < |found| && found[i] == db.workers[w];
        assert WorkerIds(found)[i] == w;
      }
    }
    assert Elements(WorkerIds(found)) == DevicesOf(db, a);
    DistinctCardinality(WorkerIds(found));
  }

  /** In a reachable state every worker is past registration. */
  lemma PastRegistration(cfg: Settings, db: Db, w: WorkerId)
    requires Inv(cfg, db) && w in db.workers
    ensures db.workers[w].workerId == w && !db.workers[w].status.Registered?
  {
    assert Placed(db, w);
    if db.workers[w].clusterId.Some? { assert Serves(cfg, db, db.workers[w].clusterId.value, w); }
  }

  lemma TakenExactly(cfg: Settings, db: Db, a: AccountId, pubkey: Token)
    requires Inv(cfg, db) && Constraints(db)
    ensures DeviceTaken(OfAccount(Rows(db), a), pubkey) <==> Known(db, a, pubkey)
  {
    hide Rows, OfAccount, Constraints, Inv;
    AccountRows(db, a);
    var rows := OfAccount(Rows(db), a);
    if DeviceTaken(rows, pubkey) {
      var i :| 0 <= i < |rows| && rows[i].wgPubkey == pubkey && !rows[i].status.Registered?;
      assert rows[i] in rows;
    }
    if Known(db, a, pubkey) {
      var w :| w in db.workers && db.workers[w].accountId == a && db.workers[w].wgPubkey == pubkey;
      PastRegistration(cfg, db, w);
      assert db.workers[w] in rows;
      var i :| 0 <= i < |rows| && rows[i] == db.workers[w];
    }
  }

  // ---- One registration ----

  /** The row starts out as the body says: waiting, offline, of the account. */
  predicate Enlisted(body: RegisterBody, a: AccountId, row: Worker) {
    && row.accountId == a && row.wgPubkey == body.wgPubkey && row.endpoint == body.endpoint
    && row.model == body.model && row.gguf == body.gguf && row.memory == body.memory
    && row.status == Waitlisted && !row.online
  }

  /** w is the device's old row, with the new advertisement; or it is a new row without a past. */
  predicate EnlistedAs(db: Db, body: RegisterBody, now: Time, known: bool, w: WorkerId, row: Worker) {
    if known
    then && w in db.workers && db.workers[w].accountId == row.accountId && db.workers[w].wgPubkey == row.wgPubkey
         && row.workerId == w && row.createdAt == db.workers[w].createdAt
         && row.lastHeartbeat == db.workers[w].lastHeartbeat && row.assignableAt == db.workers[w].assignableAt
         && row.clusterId == db.workers[w].clusterId && row.assignedIp == db.workers[w].assignedIp
         && row.ringPosition == db.workers[w].ringPosition
    else && w == db.next && w !in db.workers && row.workerId == w && row.createdAt == now
         && row.clusterId.None? && row.assignedIp.None? && row.ringPosition.None?
         && row.lastHeartbeat == 0.0 && row.assignableAt == 0.0
  }

  /** Enrolment fails if and only if the account is at its cap. Otherwise exactly one row changes. */
  lemma EnrollExactly(cfg: Settings, db: Db, k: KeyId, body: RegisterBody, now: Time) returns (w: WorkerId)
    requires Inv(cfg, db) && Constraints(db) && k in db.keys
    ensures var a := db.keys[k].accountId;
            Enroll(cfg, db, k, body, now).None? <==> |DevicesOf(db, a)| >= cfg.maxWorkersPerAccount
    ensures Enroll(cfg, db, k, body, now).Some? ==>
              var a := db.keys[k].accountId;
              var after := Enroll(cfg, db, k, body, now).value;
              && w in after.workers && Enlisted(body, a, after.workers[w])
              && EnlistedAs(db, body, now, Known(db, a, body.wgPubkey), w, after.workers[w])
              && after.workers == db.workers[w := after.workers[w]]
              && after.keys == db.keys[k := db.keys[k].(workerId := Some(w))]
              && after.clusters == db.clusters && after.rings == db.rings && after.next == db.next + 1
  {
    hide Inv, Constraints, Rows, OfAccount, Drawn, FirstDevice, DeviceTaken;
    var a := db.keys[k].accountId;
    var drawn := db.(next := db.next + 1);
    InvConstraints(cfg, db);
    NextFree(db);
    DrawnConstraints(db);
    SameRows(db, drawn);
    AccountRows(db, a);
    TakenExactly(cfg, db, a, body.wgPubkey);
    var existing := OfAccount(Rows(db), a);
    FirstDeviceSpec(existing, body.wgPubkey);
    w := db.next;
    if Known(db, a, body.wgPubkey) {
      KnownDevice(db, a, body.wgPubkey);
      w := FirstDevice(existing, body.wgPubkey).value.workerId;
    }
  }

  lemma NextFree(db: Db)
    requires Drawn(db)
    ensures db.next !in db.workers
  {
  }

  lemma SameRows(db: Db, after: Db)
    requires Constraints(db) && Constraints(after) && after.workers == db.workers && after.scan == db.scan
    ensures Rows(after) == Rows(db)
  {
  }

  lemma KnownDevice(db: Db, a: AccountId, pubkey: Token)
    requires Constraints(db) && Known(db, a, pubkey)
    ensures FirstDevice(OfAccount(Rows(db), a), pubkey).Some?
  {
    hide Rows, OfAccount, Constraints;
    AccountRows(db, a);
    FirstDeviceSpec(OfAccount(Rows(db), a), pubkey);
    var w :| w in db.workers && db.workers[w].accountId == a && db.workers[w].wgPubkey == pubkey;
    WorkerIdAt(db, w);
    assert db.workers[w] in OfAccount(Rows(db), a);
  }

  lemma WorkerIdAt(db: Db, w: WorkerId)
    requires Constraints(db) && w in db.workers
    ensures db.workers[w].workerId == w
  {
  }

  /** The constraints on the body: memory, a full hash, a model of the registry, and its registered hash
      unless that is empty. */
  predicate Acceptable(cfg: Settings, body: RegisterBody) {
    && body.memory >= 1 && |body.gguf| == 64 && body.model in cfg.models
    && (cfg.models[body.model].gguf == "" || body.gguf == cfg.models[body.model].gguf)
  }

  predicate WorkerKey(db: Db, cred: Credential) {
    cred.KeyCredential? && cred.key in db.keys && db.keys[cred.key].scope == WorkerScope
  }

  /** A registration is denied, leaving every table alone, unless a worker key presents an acceptable body for
      an account below its cap. Otherwise exactly one row is new or re-advertised, the key is bound to it,
      and the round that follows changes nothing of the others but their place. */
  lemma RegisterExactly(cfg: Settings, db: Db, cred: Credential, body: RegisterBody, now: Time) returns (w: WorkerId)
    requires Inv(cfg, db) && Constraints(db)
    ensures !WorkerKey(db, cred) || !Acceptable(cfg, body) ==> Register(cfg, db, cred, body, now) == Outcome(db, Denied)
    ensures WorkerKey(db, cred) && Acceptable(cfg, body) &&
            |DevicesOf(db, db.keys[cred.key].accountId)| >= cfg.maxWorkersPerAccount ==>
              Register(cfg, db, cred, body, now) == Outcome(db.(next := db.next + 1), Denied)
    ensures WorkerKey(db, cred) && Acceptable(cfg, body) &&
            |DevicesOf(db, db.keys[cred.key].accountId)| < cfg.maxWorkersPerAccount ==>
              var a := db.keys[cred.key].accountId;
              var e := Register(cfg, db, cred, body, now);
              && e.reply != Denied && e.db.workers.Keys == db.workers.Keys + {w} && e.db.next > db.next
              && Enlisted(body, a, e.db.workers[w])
              && EnlistedAs(db, body, now, Known(db, a, body.wgPubkey), w, e.db.workers[w])
              && (forall v :: v in db.workers && v != w ==> SameButPlace(db.workers[v], e.db.workers[v]))
              && e.db.keys == db.keys[cred.key := db.keys[cred.key].(workerId := Some(w))]
  {
    hide Inv, Constraints, Enroll, CheckAndForm, SameLife, PlacesOnly, Enlisted, EnlistedAs, DevicesOf, Known, Drawn,
         SameButPlace;
    w := 0;
    if WorkerKey(db, cred) && Acceptable(cfg, body) {
      assert Enrolling(cfg, db, cred, body);
      w := EnrollExactly(cfg, db, cred.key, body, now);
      if Enroll(cfg, db, cred.key, body, now).Some? {
        RegisterRound(cfg, db, cred, body, now);
        var enrolled := Enroll(cfg, db, cred.key, body, now).value;
        RoundPlaces(cfg, enrolled, cfg.modelOrder, now);
        RoundFacts(cfg, enrolled, cfg.modelOrder, now);
        EnrolledStays(body, db.keys[cred.key].accountId, enrolled, w,
                      CheckAndForm(cfg, enrolled, cfg.modelOrder, now).db, now);
        hide Register;
      }
    }
  }

  /** The row is offline, so the round leaves it alone. */
  lemma EnrolledStays(body: RegisterBody, a: AccountId, enrolled: Db, w: WorkerId, after: Db, now: Time)
    requires w in enrolled.workers && Enlisted(body, a, enrolled.workers[w])
    requires PlacesOnly(enrolled, after) && FormingEffect(enrolled, after, now)
    ensures after.workers.Keys == enrolled.workers.Keys && after.workers[w] == enrolled.workers[w]
    ensures after.keys == enrolled.keys && after.next >= enrolled.next
    ensures forall v :: v in enrolled.workers ==> SameButPlace(enrolled.workers[v], after.workers[v])
  {
    hide SameButPlace, Extends, SameLife, NewMembersReady;
  }

  // ---- The worker table over runs ----

  /** The step wrote the advertisement of w: a row that the device had, or one of a new worker of an account
      below its cap without that device. */
  ghost predicate Signs(cfg: Settings, db: Db, after: Db, step: Step, w: WorkerId) {
    && step.RegisterWorker? && w in after.workers
    && (forall v :: v in after.workers && v != w ==> v in db.workers && SameAdvert(db.workers[v], after.workers[v]))
    && Acceptable(cfg, step.body)
    && after.workers[w].model == step.body.model && after.workers[w].gguf == step.body.gguf
    && after.workers[w].memory == step.body.memory
    && if w in db.workers then SameDevice(db.workers[w], after.workers[w])
       else NewDevice(cfg, db, after.workers[w], step.now) && db.next <= w < after.next
  }

  predicate SameDevice(before: Worker, after: Worker) {
    && after.accountId == before.accountId && after.wgPubkey == before.wgPubkey && after.createdAt == before.createdAt
  }

  ghost predicate NewDevice(cfg: Settings, db: Db, row: Worker, now: Time) {
    && row.createdAt == now && |DevicesOf(db, row.accountId)| < cfg.maxWorkersPerAccount
    && !Known(db, row.accountId, row.wgPubkey)
  }

  /** Nobody is new and nobody advertises anything else, or one worker signs. */
  ghost predicate Roster(cfg: Settings, db: Db, after: Db, step: Step) {
    after.next >= db.next && (SameAdverts(db, after) || exists w :: Signs(cfg, db, after, step, w))
  }

  lemma RegisterRoster(cfg: Settings, db: Db, step: Step)
    requires Inv(cfg, db) && Constraints(db) && step.RegisterWorker?
    ensures Roster(cfg, db, Apply(cfg, db, step), step)
  {
    hide Inv, Constraints, Register, DevicesOf, Known, Acceptable;
    var w := RegisterExactly(cfg, db, step.cred, step.body, step.now);
    var after := Register(cfg, db, step.cred, step.body, step.now).db;
    if after.workers == db.workers {
      SameWorkers(db, after);
    } else {
      assert Signs(cfg, db, after, step, w);
    }
  }

  /** No step goes back on the identifiers drawn. */
  lemma NextGrows(cfg: Settings, db: Db, step: Step)
    requires Inv(cfg, db) && Constraints(db) && !step.RegisterWorker?
    ensures Apply(cfg, db, step).next >= db.next
  {
    hide Inv, Constraints, Heartbeat, Revoke, WorkerFromKey, BoundWorker, Ready, Frame, Sweep, Preserves, SameLife,
         Noted, LiveIfComplete, Heads, BackOnWaitlist, Partner, Heard, SameButPlace, Shaken, Silent;
    match step
    case SendHeartbeat(cred, w, now) => HeartbeatExactly(cfg, db, cred, w, now);
    case RevokeWorker(cred, w) => RevokeExactly(cfg, db, cred, w);
    case ReadState(cred, w) => WorkerFromKeyFacts(cfg, db, cred, w);
    case ReadConfig(cred, c) => BoundWorkerFacts(cfg, db, cred, c);
    case ReportReady(cred, c, layers) => ReadyExactly(cfg, db, cred, c, layers);
    case SendFrame(w, c, frame) => FrameExactly(cfg, db, w, c, frame);
    case SweepOnce(now) => SweepExactly(cfg, db, now, cfg.heartbeatTimeout);
    case _ =>
  }

  lemma StepRoster(cfg: Settings, db: Db, step: Step)
    requires Inv(cfg, db) && Constraints(db)
    ensures Roster(cfg, db, Apply(cfg, db, step), step)
  {
    hide Inv, Constraints, Apply, SameAdverts, Signs, NewAdverts;
    if step.RegisterWorker? {
      RegisterRoster(cfg, db, step);
    } else {
      NextGrows(cfg, db, step);
      StepAdverts(cfg, db, step);
    }
  }

  lemma RunRoster(cfg: Settings, states: seq<World>, steps: seq<Step>, i: nat)
    requires cfg.heartbeatTimeout >= 0.0 && Execution(cfg, states, steps) && i < |steps|
    ensures Roster(cfg, states[i].db, states[i + 1].db, steps[i])
    ensures Drawn(states[i].db) && Drawn(states[i + 1].db)
  {
    hide Inv, Constraints, Drawn, Apply, Allowed, Timed, Roster;
    RunInvariant(cfg, states, steps, i);
    RunInvariant(cfg, states, steps, i + 1);
    InvConstraints(cfg, states[i].db);
    InvConstraints(cfg, states[i + 1].db);
    assert Next(cfg, states[i], steps[i], states[i + 1]);
    StepRoster(cfg, states[i].db, steps[i]);
  }

  /** No account is above its cap, no account has two workers for one device, and every worker advertises a
      model of the registry with its registered hash. */
  ghost predicate Orderly(cfg: Settings, db: Db) {
    && (forall a: AccountId :: DevicesOf(db, a) == {} || |DevicesOf(db, a)| <= cfg.maxWorkersPerAccount)
    && (forall v, w :: v in db.workers && w in db.workers && v != w ==>
          !OneDevice(db.workers[v], db.workers[w]))
    && (forall w :: w in db.workers ==> Vetted(cfg, db.workers[w]))
  }

  predicate OneDevice(v: Worker, w: Worker) {
    v.accountId == w.accountId && v.wgPubkey == w.wgPubkey
  }

  predicate Vetted(cfg: Settings, w: Worker) {
    && w.memory >= 1 && |w.gguf| == 64 && w.model in cfg.models
    && (cfg.models[w.model].gguf == "" || w.gguf == cfg.models[w.model].gguf)
  }

  lemma QuietOrderly(cfg: Settings, db: Db, after: Db)
    requires Orderly(cfg, db) && SameAdverts(db, after)
    ensures Orderly(cfg, after)
  {
    forall a: AccountId ensures DevicesOf(after, a) == {} || |DevicesOf(after, a)| <= cfg.maxWorkersPerAccount {
      SubsetCardinality(DevicesOf(after, a), DevicesOf(db, a));
    }
    hide DevicesOf;
    forall v, w | v in after.workers && w in after.workers && v != w
      ensures !OneDevice(after.workers[v], after.workers[w])
    {
      assert OneDevice(db.workers[v], db.workers[w]) <==> OneDevice(after.workers[v], after.workers[w]);
    }
  }

  lemma SignedDevices(cfg: Settings, db: Db, after: Db, step: Step, w: WorkerId, a: AccountId)
    requires Orderly(cfg, db) && Signs(cfg, db, after, step, w)
    ensures DevicesOf(after, a) == {} || |DevicesOf(after, a)| <= cfg.maxWorkersPerAccount
  {
    hide Acceptable, Vetted, Known;
    if w in db.workers || after.workers[w].accountId != a {
      assert DevicesOf(after, a) <= DevicesOf(db, a);
      SubsetCardinality(DevicesOf(after, a), DevicesOf(db, a));
    } else {
      assert DevicesOf(after, a) <= DevicesOf(db, a) + {w};
      SubsetCardinality(DevicesOf(after, a), DevicesOf(db, a) + {w});
    }
  }

  lemma SignedOrderly(cfg: Settings, db: Db, after: Db, step: Step, w: WorkerId)
    requires Orderly(cfg, db) && Signs(cfg, db, after, step, w)
    ensures Orderly(cfg, after)
  {
    hide DevicesOf;
    forall a: AccountId ensures DevicesOf(after, a) == {} || |DevicesOf(after, a)| <= cfg.maxWorkersPerAccount {
      SignedDevices(cfg, db, after, step, w, a);
    }
    forall u, v | u in after.workers && v in after.workers && u != v
      ensures !OneDevice(after.workers[u], after.workers[v])
    {
      if u in db.workers && v in db.workers {
        assert OneDevice(db.workers[u], db.workers[v]) <==> OneDevice(after.workers[u], after.workers[v]);
      }
    }
  }

  /** In every state of every run. */
  lemma {:induction false} RunOrderly(cfg: Settings, states: seq<World>, steps: seq<Step>, i: nat)
    requires cfg.heartbeatTimeout >= 0.0 && Execution(cfg, states, steps) && i <= |steps|
    ensures Orderly(cfg, states[i].db)
  {
    hide Next, Signs, SameAdverts, Drawn;
    if i == 0 {
      assert states[0].db == EMPTY;
    } else {
      hide Orderly;
      RunOrderly(cfg, states, steps, i - 1);
      RunRoster(cfg, states, steps, i - 1);
      if SameAdverts(states[i - 1].db, states[i].db) {
        QuietOrderly(cfg, states[i - 1].db, states[i].db);
      } else {
        var w :| Signs(cfg, states[i - 1].db, states[i].db, steps[i - 1], w);
        SignedOrderly(cfg, states[i - 1].db, states[i].db, steps[i - 1], w);
      }
    }
  }

  // ---- Who came first ----

  /** The worker's row appears at step i. */
  ghost predicate Joins(states: seq<World>, i: nat, w: WorkerId)
    requires i + 1 < |states|
  {
    w !in states[i].db.workers && w in states[i + 1].db.workers
  }

  /** A row that appears at step i carries that step's time as long as it exists, and an identifier that is
      gone does not come back. */
  lemma {:induction false} RowSinceJoined(cfg: Settings, states: seq<World>, steps: seq<Step>, i: nat, k: nat,
                                          w: WorkerId)
    requires cfg.heartbeatTimeout >= 0.0 && Execution(cfg, states, steps) && i < k <= |steps| && Joins(states, i, w)
    ensures TimeOf(steps[i]).Some? && w < states[k].db.next
    ensures w in states[k].db.workers ==> states[k].db.workers[w].createdAt == TimeOf(steps[i]).value
    decreases k
  {
    hide Next, Drawn, Acceptable, DevicesOf, Known;
    RunRoster(cfg, states, steps, k - 1);
    if k == i + 1 {
      JoinedNow(cfg, states[i].db, states[k].db, steps[i], w);
    } else {
      RowSinceJoined(cfg, states, steps, i, k - 1, w);
      KeptSince(cfg, states[k - 1].db, states[k].db, steps[k - 1], w);
    }
  }

  lemma JoinedNow(cfg: Settings, db: Db, after: Db, step: Step, w: WorkerId)
    requires Roster(cfg, db, after, step) && w !in db.workers && w in after.workers
    ensures TimeOf(step).Some? && w < after.next && after.workers[w].createdAt == TimeOf(step).value
  {
    if !SameAdverts(db, after) {
      var v :| Signs(cfg, db, after, step, v);
    }
  }

  lemma KeptSince(cfg: Settings, db: Db, after: Db, step: Step, w: WorkerId)
    requires Roster(cfg, db, after, step) && w < db.next
    ensures w < after.next
    ensures w in after.workers ==> w in db.workers && after.workers[w].createdAt == db.workers[w].createdAt
  {
    if !SameAdverts(db, after) {
      var v :| Signs(cfg, db, after, step, v);
    }
  }

  lemma {:induction false} ClockForward(cfg: Settings, states: seq<World>, steps: seq<Step>, i: nat, j: nat)
    requires Execution(cfg, states, steps) && i <= j <= |steps|
    ensures states[i].clock <= states[j].clock
    decreases j
  {
    hide Constraints, Allowed, Apply;
    if i < j {
      ClockForward(cfg, states, steps, i, j - 1);
      assert Next(cfg, states[j - 1], steps[j - 1], states[j]);
    }
  }

  /** First come, first served means: of two workers that exist, the one that registered earlier does not have
      the later creation time. */
  lemma CreatedInOrder(cfg: Settings, states: seq<World>, steps: seq<Step>, i: nat, j: nat, k: nat, v: WorkerId,
                       w: WorkerId)
    requires cfg.heartbeatTimeout >= 0.0 && Execution(cfg, states, steps) && i <= j < k <= |steps|
    requires Joins(states, i, v) && Joins(states, j, w)
    requires v in states[k].db.workers && w in states[k].db.workers
    ensures TimeOf(steps[i]).Some? && TimeOf(steps[j]).Some?
    ensures states[k].db.workers[v].createdAt == TimeOf(steps[i]).value
    ensures states[k].db.workers[w].createdAt == TimeOf(steps[j]).value
    ensures states[k].db.workers[v].createdAt <= states[k].db.workers[w].createdAt
  {
    hide Constraints, Allowed, Apply;
    RowSinceJoined(cfg, states, steps, i, k, v);
    RowSinceJoined(cfg, states, steps, j, k, w);
    assert Next(cfg, states[i], steps[i], states[i + 1]);
    assert Next(cfg, states[j], steps[j], states[j + 1]);
    if i < j {
      ClockForward(cfg, states, steps, i + 1, j);
    }
  }
}
