/** What workers advertise, over whole runs, and what that means for formation: memory is positive and
    the model hash has its 64 characters (app.py: register_worker; models.py: the field constraints). */
module Advertisements {
  import opened Basics
  import opened Models
  import opened Tables
  import opened Waitlists
  import opened Scheduling
  import opened Invariants
  import opened Liveness
  import opened Handlers
  import opened Transitions
  import opened Steps
  import opened Runs
  import R = Readiness

  predicate SameAdvert(v: Worker, w: Worker) {
    && w.accountId == v.accountId && w.wgPubkey == v.wgPubkey && w.endpoint == v.endpoint
    && w.model == v.model && w.gguf == v.gguf && w.memory == v.memory && w.createdAt == v.createdAt
  }

  /** No row is added, and nobody advertises anything new. */
  ghost predicate SameAdverts(db: Db, after: Db) {
    forall w :: w in after.workers ==> w in db.workers && SameAdvert(db.workers[w], after.workers[w])
  }

  ghost predicate Advertised(db: Db) {
    forall w :: w in db.workers ==> db.workers[w].memory >= 1 && FullHash(db.workers[w].gguf)
  }

  lemma SameAdvertsKeep(db: Db, after: Db)
    requires Advertised(db) && SameAdverts(db, after)
    ensures Advertised(after)
  {
  }

  lemma SameAdvertsChain(a: Db, b: Db, c: Db)
    requires SameAdverts(a, b) && SameAdverts(b, c)
    ensures SameAdverts(a, c)
  {
  }

  lemma SameWorkers(db: Db, after: Db)
    requires after.workers == db.workers
    ensures SameAdverts(db, after)
  {
  }

  // ---- Forming, dissolving, sweeping ----

  lemma FormedAdverts(db: Db, after: Db, model: Token, chosen: seq<Worker>, third: nat, now: Time)
    requires Formed(db, after, model, chosen, third, now)
    requires forall w :: w in chosen ==> w.workerId in db.workers && db.workers[w.workerId] == w
    ensures SameAdverts(db, after)
  {
    forall w | w in after.workers ensures SameAdvert(db.workers[w], after.workers[w]) {
      if w in WorkerIds(chosen) {
        var i :| 0 <= i < |chosen| && WorkerIds(chosen)[i] == w;
        assert chosen[i] in chosen && chosen[i].workerId == w;
      }
    }
  }

  lemma FormAdverts(cfg: Settings, db: Db, model: Token, now: Time)
    requires Constraints(db) && Drawn(db)
    ensures SameAdverts(db, FormCluster(cfg, db, model, now).db)
  {
    hide Chosen, Formed, NextSubnet, UsedSubnets, Constraints, FormOn, SameAdverts;
    var after := FormCluster(cfg, db, model, now).db;
    if Chosen(cfg, db, model, now) != [] && NextSubnet(db).Some? {
      var third := FormClusterForms(cfg, db, model, now);
      ChosenSpec(cfg, db, model, now);
      FormedAdverts(db, after, model, Chosen(cfg, db, model, now), third, now);
    } else {
      SameWorkers(db, after);
    }
  }

  lemma {:induction false} RoundAdverts(cfg: Settings, db: Db, models: seq<Token>, now: Time)
    requires Constraints(db) && Drawn(db)
    ensures SameAdverts(db, CheckAndForm(cfg, db, models, now).db)
    decreases |models|
  {
    hide FormCluster, Constraints, SameAdverts, FormingEffect;
    if models == [] {
      SameWorkers(db, db);
    } else {
      FormAdverts(cfg, db, models[0], now);
      FormFacts(cfg, db, models[0], now);
      var first := FormCluster(cfg, db, models[0], now);
      if first.ok {
        assert Drawn(first.db) by { EffectDrawn(db, first.db, now); }
        RoundAdverts(cfg, first.db, models[1..], now);
        SameAdvertsChain(db, first.db, CheckAndForm(cfg, first.db, models[1..], now).db);
      }
    }
  }

  lemma EffectDrawn(db: Db, after: Db, now: Time)
    requires FormingEffect(db, after, now)
    ensures Drawn(after)
  {
  }

  lemma RetireAdverts(db: Db, dead: set<WorkerId>, broken: set<ClusterId>)
    ensures SameAdverts(db, Retire(db, dead, broken))
  {
  }

  lemma GoneAdverts(cfg: Settings, db: Db, w: WorkerId)
    requires Inv(cfg, db) && Constraints(db) && w in db.workers
    ensures SameAdverts(db, WorkerGone(db, db.workers[w]).db)
  {
    assert Placed(db, w);
    var c := db.workers[w].clusterId;
    if c.None? {
      SameWorkers(db, db);
    } else {
      hide SameAdverts, Retire, Dissolve, Dissolved;
      DissolvedIsRetired(cfg, db, c.value);
      RetireAdverts(db, {}, {c.value});
    }
  }

  // ---- Steps ----

  lemma RevokeAdverts(cfg: Settings, db: Db, cred: Credential, w: WorkerId)
    requires Inv(cfg, db) && Constraints(db)
    ensures SameAdverts(db, Revoke(db, cred, w).db)
  {
    hide Inv, WorkerFromKey, WorkerGone, Preserves, SameLife, Constraints, SameAdverts;
    WorkerFromKeyFacts(cfg, db, cred, w);
    var found := WorkerFromKey(db, cred, w);
    SameWorkers(db, found.db);
    if found.worker.Some? {
      InvConstraints(cfg, found.db);
      GoneAdverts(cfg, found.db, w);
      var left := WorkerGone(found.db, found.worker.value);
      DropAdverts(left.db, w);
      SameAdvertsChain(db, found.db, left.db);
      SameAdvertsChain(db, left.db, DropWorker(left.db, w));
    }
  }

  lemma DropAdverts(db: Db, w: WorkerId)
    ensures SameAdverts(db, DropWorker(db, w))
  {
  }

  lemma HeartbeatAdverts(cfg: Settings, db: Db, cred: Credential, w: WorkerId, now: Time)
    requires Inv(cfg, db) && Constraints(db)
    ensures SameAdverts(db, Heartbeat(cfg, db, cred, w, now).db)
  {
    hide Inv, WorkerFromKey, CheckAndForm, Preserves, SameLife, Constraints, SameAdverts, PutWorker, Beat;
    WorkerFromKeyFacts(cfg, db, cred, w);
    var found := WorkerFromKey(db, cred, w);
    SameWorkers(db, found.db);
    if found.worker.Some? {
      BeatKeeps(cfg, found.db, w, now);
      var beaten := PutWorker(found.db, Beat(cfg, found.worker.value, now));
      InvConstraints(cfg, beaten);
      BeatAdverts(cfg, found.db, w, now);
      RoundAdverts(cfg, beaten, cfg.modelOrder, now);
      SameAdvertsChain(db, found.db, beaten);
      SameAdvertsChain(db, beaten, CheckAndForm(cfg, beaten, cfg.modelOrder, now).db);
    }
  }

  lemma BeatAdverts(cfg: Settings, db: Db, w: WorkerId, now: Time)
    requires w in db.workers && db.workers[w].workerId == w
    ensures SameAdverts(db, PutWorker(db, Beat(cfg, db.workers[w], now)))
  {
  }

  /** Every row advertises what it did before, or what the body says. */
  ghost predicate NewAdverts(db: Db, after: Db, body: RegisterBody) {
    forall w :: w in after.workers ==>
      || (w in db.workers && SameAdvert(db.workers[w], after.workers[w]))
      || (after.workers[w].memory == body.memory && after.workers[w].gguf == body.gguf)
  }

  lemma NewAdvertsChain(a: Db, b: Db, c: Db, body: RegisterBody)
    requires NewAdverts(a, b, body) && SameAdverts(b, c)
    ensures NewAdverts(a, c, body)
  {
  }

  lemma EnrollAdverts(cfg: Settings, db: Db, cred: Credential, body: RegisterBody, now: Time)
    requires Constraints(db) && Enrolling(cfg, db, cred, body) && Enroll(cfg, db, cred.key, body, now).Some?
    ensures NewAdverts(db, Enroll(cfg, db, cred.key, body, now).value, body)
  {
    EnrollCases(cfg, db, cred, body, now);
    hide Constraints, Enroll, Reregistered, NewAdverts;
    RowAdverts(db, cred.key, body, now, Enroll(cfg, db, cred.key, body, now).value,
               Reregistered(cfg, db, cred, body, now));
  }

  lemma RowAdverts(db: Db, k: KeyId, body: RegisterBody, now: Time, enrolled: Db, prev: Option<Worker>)
    requires k in db.keys
    requires var drawn := db.(next := db.next + 1);
             if prev.Some?
             then enrolled == BindKey(PutWorker(drawn, Readvertise(prev.value, body)), k, prev.value.workerId)
             else var rec := NewWorker(db.next, db.keys[k].accountId, body, now);
                  enrolled == BindKey(InsertWorker(drawn, rec), k, rec.workerId)
    ensures NewAdverts(db, enrolled, body)
  {
  }

  /** A registration advertises nothing, or something admissible. */
  lemma RegisterAdverts(cfg: Settings, db: Db, cred: Credential, body: RegisterBody, now: Time)
    requires Inv(cfg, db) && Constraints(db)
    ensures var after := Register(cfg, db, cred, body, now).db;
            SameAdverts(db, after) || (Admissible(cfg, body) && NewAdverts(db, after, body))
  {
    hide Inv, Constraints, Enroll, Reregistered, CheckAndForm, SameAdverts, NewAdverts, SameLife, Admissible;
    if Enrolling(cfg, db, cred, body) && Enroll(cfg, db, cred.key, body, now).Some? {
      EnrollConstraints(cfg, db, cred.key, body, now);
      EnrollFacts(cfg, db, cred, body, now);
      EnrollAdverts(cfg, db, cred, body, now);
      var enrolled := Enroll(cfg, db, cred.key, body, now).value;
      RoundAdverts(cfg, enrolled, cfg.modelOrder, now);
      NewAdvertsChain(db, enrolled, CheckAndForm(cfg, enrolled, cfg.modelOrder, now).db, body);
    } else {
      SameWorkers(db, Register(cfg, db, cred, body, now).db);
    }
  }

  lemma ReadyAdverts(cfg: Settings, db: Db, cred: Credential, c: ClusterId, layers: Option<Ranks.Payload>)
    requires Inv(cfg, db) && Constraints(db)
    ensures Ready(db, cred, c, layers).db.workers == db.workers
  {
    hide Inv, Constraints, BoundWorker, Preserves, SameLife, Distribute, MarkMemberReady, Ready;
    BoundWorkerFacts(cfg, db, cred, c);
    var found := BoundWorker(db, cred, c).db;
    var w, windows := ReadyCases(db, cred, c, layers);
    DistributeWorkers(found, c, windows);
    MarkWorkers(found, c, w);
    MarkWorkers(Distribute(found, c, windows), c, w);
  }

  lemma DistributeWorkers(db: Db, c: ClusterId, windows: map<WorkerId, nat>)
    requires Constraints(db)
    ensures Distribute(db, c, windows).workers == db.workers
  {
    hide R.SetDistribution;
  }

  lemma MarkWorkers(db: Db, c: ClusterId, w: WorkerId)
    requires Constraints(db)
    ensures MarkMemberReady(db, c, w).workers == db.workers
  {
    hide R.MarkReady;
  }

  lemma FrameWorkers(db: Db, w: WorkerId, c: ClusterId, frame: Ranks.FrameWindows)
    requires Constraints(db)
    ensures Frame(db, w, c, frame).workers == db.workers
  {
    hide R.SetDistribution;
  }

  lemma SweepAdverts(cfg: Settings, db: Db, now: Time)
    requires Inv(cfg, db) && Constraints(db)
    ensures SameAdverts(db, Sweep(db, now, cfg.heartbeatTimeout))
  {
    hide Inv, Constraints, Sweep, Retire, SameAdverts, Broken;
    SweepIsSimple(cfg, db, now, cfg.heartbeatTimeout);
    RetireAdverts(db, Dead(db, now, cfg.heartbeatTimeout), Broken(db, Dead(db, now, cfg.heartbeatTimeout)));
  }

  /** Only a registration changes what workers advertise. */
  lemma StepAdverts(cfg: Settings, db: Db, step: Step)
    requires Inv(cfg, db) && Constraints(db)
    ensures || SameAdverts(db, Apply(cfg, db, step))
            || (step.RegisterWorker? && Admissible(cfg, step.body) && NewAdverts(db, Apply(cfg, db, step), step.body))
  {
    hide Inv, Constraints, Preserves, SameLife, SameAdverts, NewAdverts, Admissible, Register, Heartbeat, Revoke,
         WorkerFromKey, BoundWorker, Ready, Frame, Sweep;
    var after := Apply(cfg, db, step);
    match step
    case RegisterWorker(cred, body, now) => RegisterAdverts(cfg, db, cred, body, now);
    case SendHeartbeat(cred, w, now) => HeartbeatAdverts(cfg, db, cred, w, now);
    case RevokeWorker(cred, w) => RevokeAdverts(cfg, db, cred, w);
    case ReadState(cred, w) => WorkerFromKeyFacts(cfg, db, cred, w); SameWorkers(db, after);
    case ReadConfig(cred, c) => BoundWorkerFacts(cfg, db, cred, c); SameWorkers(db, after);
    case ReportReady(cred, c, layers) => ReadyAdverts(cfg, db, cred, c, layers); SameWorkers(db, after);
    case SendFrame(w, c, frame) => FrameWorkers(db, w, c, frame); SameWorkers(db, after);
    case SweepOnce(now) => SweepAdverts(cfg, db, now);
    case _ => SameWorkers(db, after);
  }

  lemma StepAdvertised(cfg: Settings, db: Db, step: Step)
    requires Inv(cfg, db) && Constraints(db) && Advertised(db)
    ensures Advertised(Apply(cfg, db, step))
  {
    hide Inv, Constraints, Apply;
    StepAdverts(cfg, db, step);
  }

  lemma {:induction false} RunAdvertised(cfg: Settings, states: seq<World>, steps: seq<Step>, i: nat)
    requires cfg.heartbeatTimeout >= 0.0
    requires Execution(cfg, states, steps) && i <= |steps|
    ensures Inv(cfg, states[i].db) && Constraints(states[i].db) && Advertised(states[i].db)
  {
    hide Inv, Constraints, Apply, Allowed, Timed;
    RunInvariant(cfg, states, steps, i);
    InvConstraints(cfg, states[i].db);
    if i == 0 {
      assert states[0].db == EMPTY;
    } else {
      hide Advertised;
      RunAdvertised(cfg, states, steps, i - 1);
      assert Next(cfg, states[i - 1], steps[i - 1], states[i]);
      StepAdvertised(cfg, states[i - 1].db, steps[i - 1]);
    }
  }

  // ---- A floor under the advertised memory ----

  ghost predicate Offers(db: Db, least: nat) {
    forall w :: w in db.workers ==> db.workers[w].memory >= least
  }

  /** Every registration of the run, accepted or not, offers at least this much memory. */
  ghost predicate AllOffer(steps: seq<Step>, least: nat) {
    forall i :: 0 <= i < |steps| && steps[i].RegisterWorker? ==> steps[i].body.memory >= least
  }

  lemma OffersKeep(db: Db, after: Db, body: RegisterBody, least: nat)
    requires Offers(db, least)
    requires SameAdverts(db, after) || (NewAdverts(db, after, body) && body.memory >= least)
    ensures Offers(after, least)
  {
  }

  lemma {:induction false} RunOffers(cfg: Settings, states: seq<World>, steps: seq<Step>, i: nat, least: nat)
    requires cfg.heartbeatTimeout >= 0.0 && AllOffer(steps, least)
    requires Execution(cfg, states, steps) && i <= |steps|
    ensures Offers(states[i].db, least)
  {
    hide Inv, Constraints, Advertised, Apply, Allowed, SameAdverts, NewAdverts;
    if i == 0 {
      assert states[0].db == EMPTY;
    } else {
      hide Offers;
      RunOffers(cfg, states, steps, i - 1, least);
      RunAdvertised(cfg, states, steps, i - 1);
      assert Next(cfg, states[i - 1], steps[i - 1], states[i]);
      StepAdverts(cfg, states[i - 1].db, steps[i - 1]);
      var body := if steps[i - 1].RegisterWorker? then steps[i - 1].body else RegisterBody(0, NO_HASH, 0, 0, 0);
      OffersKeep(states[i - 1].db, states[i].db, body, least);
    }
  }

  // ---- Choosing from advertised memory ----

  lemma ChosenExact(cfg: Settings, db: Db, model: Token, now: Time)
    requires Constraints(db) && Advertised(db) && model in cfg.models
    ensures var chosen := Chosen(cfg, db, model, now);
            var ws := Waitlist(Rows(db), model, cfg.models[model].gguf, now);
            var required := cfg.models[model].requiredMemory;
            && chosen <= ws
            && (chosen == [] <==> ws == [] || MemorySum(ws) < required)
            && (chosen != [] ==> MemorySum(chosen) >= required)
            && forall n :: 1 <= n < |chosen| ==> MemorySum(chosen[..n]) < required
  {
    var ws := Waitlist(Rows(db), model, cfg.models[model].gguf, now);
    forall w | w in ws ensures w.memory >= 0 {
      WaitlistSpec(Rows(db), model, cfg.models[model].gguf, now);
      RowsDistinct(db);
    }
    hide Constraints, Advertised, Rows, Waitlist, PrefixSize, MemorySum;
    ShortestPrefix(ws, cfg.models[model].requiredMemory);
    PrefixPrefixes(ws, cfg.models[model].requiredMemory);
  }

  lemma PrefixPrefixes(ws: seq<Worker>, required: int)
    requires PrefixSize(ws, required).Some? ==> PrefixSize(ws, required).value <= |ws|
    ensures PrefixSize(ws, required).Some? ==>
              var n := PrefixSize(ws, required).value;
              forall k :: 0 <= k <= n ==> ws[..n][..k] == ws[..k]
  {
    hide PrefixSize;
  }
}
