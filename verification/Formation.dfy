/** What runs form: every cluster that ever appears, when one has to appear, and when a request fails
    for want of a subnet (scheduler.py: _form_cluster, check_and_form; app.py: register_worker,
    heartbeat). */
module Formations {
  import opened Basics
  import opened Models
  import opened Rings
  import opened Tables
  import opened Addressing
  import opened Waitlists
  import opened Scheduling
  import opened Invariants
  import opened Handlers
  import opened Transitions
  import opened Steps
  import opened Runs
  import opened Consequences
  import opened Settling
  import opened Advertisements
  import opened Outcomes
  import Text

  // ---- The database a round starts from ----

  lemma RoundDbAdverts(cfg: Settings, db: Db, step: Step)
    requires Inv(cfg, db) && Constraints(db) && RoundDb(cfg, db, step).Some?
    ensures var start := RoundDb(cfg, db, step).value;
            || SameAdverts(db, start)
            || (step.RegisterWorker? && Admissible(cfg, step.body) && NewAdverts(db, start, step.body))
  {
    hide Inv, Constraints, Enroll, SameLife, Preserves, WorkerFromKey, Beat, PutWorker, SameAdverts, NewAdverts,
         Admissible;
    match step
    case RegisterWorker(cred, body, now) =>
      EnrollAdverts(cfg, db, cred, body, now);
    case SendHeartbeat(cred, w, now) =>
      WorkerFromKeyFacts(cfg, db, cred, w);
      var found := WorkerFromKey(db, cred, w).db;
      SameWorkers(db, found);
      BeatAdverts(cfg, found, w, now);
      SameAdvertsChain(db, found, PutWorker(found, Beat(cfg, found.workers[w], now)));
  }

  lemma RoundDbAdvertised(cfg: Settings, db: Db, step: Step)
    requires Inv(cfg, db) && Constraints(db) && Advertised(db) && RoundDb(cfg, db, step).Some?
    ensures Advertised(RoundDb(cfg, db, step).value)
  {
    hide Inv, Constraints, RoundDb;
    RoundDbAdverts(cfg, db, step);
  }

  /** Step i of a run, with the round it contains. */
  lemma RunRound(cfg: Settings, states: seq<World>, steps: seq<Step>, i: nat)
    requires cfg.heartbeatTimeout >= 0.0 && Execution(cfg, states, steps) && i < |steps|
    ensures Constraints(states[i].db) && Inv(cfg, states[i].db) && Inv(cfg, states[i + 1].db)
    ensures Advertised(states[i].db) && Advertised(states[i + 1].db)
    ensures match RoundDb(cfg, states[i].db, steps[i])
            case None => states[i + 1].db.clusters.Keys == states[i].db.clusters.Keys
            case Some(start) =>
              && (steps[i].RegisterWorker? || steps[i].SendHeartbeat?)
              && Constraints(start) && Drawn(start) && Inv(cfg, start) && Advertised(start)
              && start.clusters == states[i].db.clusters && start.rings == states[i].db.rings
              && states[i + 1].db == CheckAndForm(cfg, start, cfg.modelOrder, steps[i].now).db
  {
    hide Inv, Constraints, Advertised, Apply, Allowed, RoundDb, CheckAndForm, Drawn;
    RunAdvertised(cfg, states, steps, i);
    RunAdvertised(cfg, states, steps, i + 1);
    assert Next(cfg, states[i], steps[i], states[i + 1]);
    RoundSpec(cfg, states[i].db, steps[i]);
    if RoundDb(cfg, states[i].db, steps[i]).Some? {
      RoundDbAdvertised(cfg, states[i].db, steps[i]);
    }
  }

  // ---- What a round forms ----

  /** The n first of the waitlist are its shortest nonempty prefix that reaches the requirement. */
  ghost predicate Shortest(ws: seq<Worker>, required: int, n: nat) {
    && 1 <= n <= |ws|
    && MemorySum(ws[..n]) >= required
    && forall k :: 1 <= k < n ==> MemorySum(ws[..k]) < required
  }

  lemma PlannedMember(cfg: Settings, db: Db, models: set<Token>, now: Time, group: Group)
    requires Constraints(db) && Advertised(db) && group in Planned(cfg, db, models, now)
    ensures group.0 in models && group.0 in cfg.models
    ensures var ws := Waitlist(Rows(db), group.0, cfg.models[group.0].gguf, now);
            && Shortest(ws, cfg.models[group.0].requiredMemory, |group.1|)
            && group.1 == WorkerIds(ws[..|group.1|])
  {
    hide Constraints, Advertised, Chosen, Waitlist, Rows, MemorySum, Planned, Eligible;
    PlannedChosen(cfg, db, models, now, group);
    var chosen := Chosen(cfg, db, group.0, now);
    ChosenSpec(cfg, db, group.0, now);
    ChosenExact(cfg, db, group.0, now);
    ChosenPrefixes(chosen, Waitlist(Rows(db), group.0, cfg.models[group.0].gguf, now));
  }

  lemma PlannedChosen(cfg: Settings, db: Db, models: set<Token>, now: Time, group: Group)
    requires Constraints(db) && group in Planned(cfg, db, models, now)
    ensures group.0 in models && Chosen(cfg, db, group.0, now) != []
    ensures group.1 == WorkerIds(Chosen(cfg, db, group.0, now))
  {
    hide Chosen, Constraints;
  }

  lemma ChosenPrefixes(chosen: seq<Worker>, ws: seq<Worker>)
    requires chosen <= ws
    ensures chosen == ws[..|chosen|] && forall k :: 0 <= k <= |chosen| ==> chosen[..k] == ws[..k]
  {
  }

  /** A new cluster is one of the groups formed. */
  lemma NewClusterGroup(db: Db, after: Db, c: ClusterId)
    requires Constraints(after) && c in after.clusters && c !in db.clusters
    ensures c in after.rings && UniqueSlots(after.rings[c])
    ensures (after.clusters[c].model, RingOrder(after.rings[c])) in NewGroups(db, after)
  {
    hide UniqueSlots, RingOrder;
  }

  /** Every cluster that appears in a run consists, in ring order, of the shortest nonempty sufficient
      prefix of its model's waitlist, as it was when the round of that step began. */
  lemma FormationExact(cfg: Settings, states: seq<World>, steps: seq<Step>, i: nat, c: ClusterId)
    requires cfg.heartbeatTimeout >= 0.0 && Distinct(cfg.modelOrder)
    requires Execution(cfg, states, steps) && i < |steps|
    requires c in states[i + 1].db.clusters && c !in states[i].db.clusters
    ensures Constraints(states[i].db) && RoundDb(cfg, states[i].db, steps[i]).Some?
    ensures TimeOf(steps[i]).Some? && Constraints(RoundDb(cfg, states[i].db, steps[i]).value)
    ensures c in states[i + 1].db.rings && UniqueSlots(states[i + 1].db.rings[c])
    ensures states[i + 1].db.clusters[c].model in cfg.models
    ensures var start := RoundDb(cfg, states[i].db, steps[i]).value;
            var def := cfg.models[states[i + 1].db.clusters[c].model];
            var members := RingOrder(states[i + 1].db.rings[c]);
            var ws := Waitlist(Rows(start), states[i + 1].db.clusters[c].model, def.gguf, TimeOf(steps[i]).value);
            Shortest(ws, def.requiredMemory, |members|) && members == WorkerIds(ws[..|members|])
  {
    hide Inv, Constraints, Advertised, RoundDb, CheckAndForm, Drawn, Planned, NewGroups, Took, Waitlist, Rows, Shortest,
         Next, RingOrder, UniqueSlots;
    RunRound(cfg, states, steps, i);
    InvConstraints(cfg, states[i + 1].db);
    NewClusterGroup(states[i].db, states[i + 1].db, c);
    var start := RoundDb(cfg, states[i].db, steps[i]).value;
    var now := steps[i].now;
    SameNewGroups(states[i].db, start, states[i + 1].db);
    RoundGroups(cfg, start, cfg.modelOrder, now);
    PlannedMember(cfg, start, Elements(cfg.modelOrder), now,
                  (states[i + 1].db.clusters[c].model, RingOrder(states[i + 1].db.rings[c])));
  }

  lemma SameNewGroups(a: Db, b: Db, after: Db)
    requires a.clusters == b.clusters
    ensures NewGroups(a, after) == NewGroups(b, after)
  {
  }

  ghost predicate Appears(before: Db, after: Db, model: Token) {
    exists c :: c in after.clusters && c !in before.clusters && after.clusters[c].model == model
  }

  /** And conversely: a round that returns forms a cluster of a registered model exactly when the
      model's waitlist, as the round began, is nonempty and reaches the requirement. */
  lemma FormationComplete(cfg: Settings, states: seq<World>, steps: seq<Step>, i: nat, model: Token)
    requires cfg.heartbeatTimeout >= 0.0 && Enumerates(cfg.modelOrder, cfg.models.Keys) && model in cfg.models
    requires Execution(cfg, states, steps) && i < |steps| && TimeOf(steps[i]).Some?
    requires Constraints(states[i].db) && RoundDb(cfg, states[i].db, steps[i]).Some?
    requires Constraints(RoundDb(cfg, states[i].db, steps[i]).value)
    requires CheckAndForm(cfg, RoundDb(cfg, states[i].db, steps[i]).value, cfg.modelOrder, TimeOf(steps[i]).value).ok
    ensures var start := RoundDb(cfg, states[i].db, steps[i]).value;
            var ws := Waitlist(Rows(start), model, cfg.models[model].gguf, TimeOf(steps[i]).value);
            Appears(states[i].db, states[i + 1].db, model) <==>
            ws != [] && MemorySum(ws) >= cfg.models[model].requiredMemory
  {
    hide Inv, Constraints, Advertised, RoundDb, CheckAndForm, Drawn, Planned, NewGroups, Took, Waitlist, Rows, Next,
         Chosen, MemorySum;
    RunRound(cfg, states, steps, i);
    InvConstraints(cfg, states[i + 1].db);
    var start := RoundDb(cfg, states[i].db, steps[i]).value;
    var now := steps[i].now;
    SameNewGroups(states[i].db, start, states[i + 1].db);
    RoundGroups(cfg, start, cfg.modelOrder, now);
    AppearsExactly(states[i].db, states[i + 1].db, model);
    PlannedModel(cfg, start, cfg.models.Keys, now, model);
    ChosenExact(cfg, start, model, now);
  }

  ghost predicate HasGroup(groups: set<Group>, model: Token) {
    exists group :: group in groups && group.0 == model
  }

  lemma AppearsExactly(db: Db, after: Db, model: Token)
    requires Constraints(after)
    ensures Appears(db, after, model) <==> HasGroup(NewGroups(db, after), model)
  {
    if Appears(db, after, model) {
      var c :| c in after.clusters && c !in db.clusters && after.clusters[c].model == model;
      NewClusterGroup(db, after, c);
      assert (model, RingOrder(after.rings[c])).0 == model;
    }
    hide UniqueSlots, RingOrder, Constraints;
  }

  lemma PlannedModel(cfg: Settings, db: Db, models: set<Token>, now: Time, model: Token)
    requires Constraints(db) && model in models
    ensures HasGroup(Planned(cfg, db, models, now), model) <==> Chosen(cfg, db, model, now) != []
  {
    hide Constraints, Chosen;
    if Chosen(cfg, db, model, now) != [] {
      assert (model, WorkerIds(Chosen(cfg, db, model, now))) in Planned(cfg, db, models, now);
      assert (model, WorkerIds(Chosen(cfg, db, model, now))).0 == model;
    }
  }

  // ---- The same in plain terms ----

  /** The workers that may be grouped for the model. */
  ghost function Available(db: Db, model: Token, gguf: Hash, now: Time): set<WorkerId> {
    set w | w in db.workers && db.workers[w].model == model && db.workers[w].gguf == gguf &&
            db.workers[w].status == Waitlisted && db.workers[w].online && db.workers[w].assignableAt <= now
  }

  lemma WaitlistAvailable(db: Db, model: Token, gguf: Hash, now: Time)
    requires Constraints(db)
    ensures var ws := Waitlist(Rows(db), model, gguf, now);
            && Elements(WorkerIds(ws)) == Available(db, model, gguf, now)
            && Distinct(WorkerIds(ws)) && Sorted(ws)
            && forall w :: w in ws ==> w.workerId in db.workers && db.workers[w.workerId] == w
  {
    hide Waitlist, Rows;
    WaitlistSpec(Rows(db), model, gguf, now);
    RowsDistinct(db);
    WaitlistDistinct(Rows(db), model, gguf, now);
    var ws := Waitlist(Rows(db), model, gguf, now);
    forall id ensures id in WorkerIds(ws) <==> id in Available(db, model, gguf, now) {
      if id in WorkerIds(ws) {
        var i :| 0 <= i < |ws| && WorkerIds(ws)[i] == id;
        assert ws[i] in ws;
      }
      if id in Available(db, model, gguf, now) {
        assert db.workers[id].workerId == id && db.workers[id] in ws;
        var i :| 0 <= i < |ws| && ws[i] == db.workers[id];
        assert WorkerIds(ws)[i] == id;
      }
    }
    hide Constraints;
  }

  /** The first k of the waitlist and their memory together. */
  lemma PrefixPooled(db: Db, ws: seq<Worker>, k: nat)
    requires Distinct(WorkerIds(ws)) && k <= |ws|
    requires forall w :: w in ws ==> w.workerId in db.workers && db.workers[w.workerId] == w
    ensures Elements(WorkerIds(ws)[..k]) <= db.workers.Keys
    ensures MemorySum(ws[..k]) == Pooled(db.workers, Elements(WorkerIds(ws)[..k]))
  {
    assert WorkerIds(ws[..k]) == WorkerIds(ws)[..k];
    assert forall w :: w in ws[..k] ==> w in ws;
    forall i, j | 0 <= i < j < k ensures WorkerIds(ws[..k])[i] != WorkerIds(ws[..k])[j] {
      assert WorkerIds(ws)[i] != WorkerIds(ws)[j];
    }
    MemoryPooled(db.workers, ws[..k]);
  }

  /** What is right about a group, whoever computed it: its members are available; together they have the memory
      required, and none of the shorter prefixes has it; and nobody available was created before one of
      them and left out. */
  ghost predicate RightGroup(db: Db, model: Token, def: ModelDef, now: Time, members: seq<WorkerId>) {
    && members != [] && Elements(members) <= Available(db, model, def.gguf, now) <= db.workers.Keys
    && Pooled(db.workers, Elements(members)) >= def.requiredMemory
    && (forall k :: 1 <= k < |members| ==>
          Elements(members[..k]) <= db.workers.Keys &&
          Pooled(db.workers, Elements(members[..k])) < def.requiredMemory)
    && (forall i :: 0 <= i < |members| ==> InTurn(db, Available(db, model, def.gguf, now), members, i))
  }

  /** Whoever was created before members[i] is among the members before it. */
  ghost predicate InTurn(db: Db, available: set<WorkerId>, members: seq<WorkerId>, i: nat)
    requires i < |members|
  {
    forall v :: v in available && CreatedBefore(db, v, members[i]) ==> v in members[..i]
  }

  predicate CreatedBefore(db: Db, v: WorkerId, w: WorkerId) {
    v in db.workers && w in db.workers && db.workers[v].createdAt < db.workers[w].createdAt
  }

  lemma ShortestIsRight(db: Db, model: Token, def: ModelDef, now: Time, n: nat)
    requires Constraints(db) && Shortest(Waitlist(Rows(db), model, def.gguf, now), def.requiredMemory, n)
    ensures RightGroup(db, model, def, now, WorkerIds(Waitlist(Rows(db), model, def.gguf, now)[..n]))
  {
    hide Waitlist, Rows, MemorySum, Pooled, Constraints, Available;
    var ws := Waitlist(Rows(db), model, def.gguf, now);
    WaitlistAvailable(db, model, def.gguf, now);
    AvailableRows(db, model, def.gguf, now);
    var ids, members := WorkerIds(ws), WorkerIds(ws[..n]);
    assert members == ids[..n];
    forall k | 1 <= k <= n
      ensures members[..k] == ids[..k] && Elements(ids[..k]) <= db.workers.Keys
      ensures Pooled(db.workers, Elements(ids[..k])) == MemorySum(ws[..k])
    {
      PrefixPooled(db, ws, k);
    }
    forall i | 0 <= i < |members| ensures InTurn(db, Available(db, model, def.gguf, now), members, i) {
      forall v | v in Available(db, model, def.gguf, now) && CreatedBefore(db, v, members[i])
        ensures v in members[..i]
      {
        EarlierListed(db, ws, n, i, v);
      }
    }
    assert members[..n] == members;
  }

  lemma AvailableRows(db: Db, model: Token, gguf: Hash, now: Time)
    ensures Available(db, model, gguf, now) <= db.workers.Keys
  {
  }

  lemma EarlierListed(db: Db, ws: seq<Worker>, n: nat, i: nat, v: WorkerId)
    requires Sorted(ws) && i < n <= |ws| && v in Elements(WorkerIds(ws))
    requires forall w :: w in ws ==> w.workerId in db.workers && db.workers[w.workerId] == w
    requires v in db.workers && WorkerIds(ws)[i] in db.workers
    requires db.workers[v].createdAt < db.workers[WorkerIds(ws)[i]].createdAt
    ensures v in WorkerIds(ws[..n])[..i]
  {
    var j :| 0 <= j < |ws| && WorkerIds(ws)[j] == v;
    assert ws[j] in ws && ws[i] in ws;
    assert j < i;
    assert WorkerIds(ws[..n])[..i][j] == v;
  }

  /** Every cluster that appears in a run is a right group of the database its round began with, and its
      membership rows have the memory required. */
  lemma FormedRight(cfg: Settings, states: seq<World>, steps: seq<Step>, i: nat, c: ClusterId)
    requires cfg.heartbeatTimeout >= 0.0 && Distinct(cfg.modelOrder)
    requires Execution(cfg, states, steps) && i < |steps|
    requires c in states[i + 1].db.clusters && c !in states[i].db.clusters
    ensures Constraints(states[i].db) && RoundDb(cfg, states[i].db, steps[i]).Some? && TimeOf(steps[i]).Some?
    ensures c in states[i + 1].db.rings && UniqueSlots(states[i + 1].db.rings[c])
    ensures states[i + 1].db.clusters[c].model in cfg.models
    ensures var start, after := RoundDb(cfg, states[i].db, steps[i]).value, states[i + 1].db;
            var model := after.clusters[c].model;
            && RightGroup(start, model, cfg.models[model], TimeOf(steps[i]).value, RingOrder(after.rings[c]))
            && after.rings[c].Keys <= after.workers.Keys
            && Pooled(after.workers, after.rings[c].Keys) >= cfg.models[model].requiredMemory
  {
    hide Inv, Constraints, Advertised, RoundDb, CheckAndForm, Drawn, Waitlist, Rows, Shortest, Next, RingOrder,
         UniqueSlots, Ordered, Pooled, SameAdverts, RightGroup;
    FormationExact(cfg, states, steps, i, c);
    RunRound(cfg, states, steps, i);
    var start, after := RoundDb(cfg, states[i].db, steps[i]).value, states[i + 1].db;
    var model, now := after.clusters[c].model, TimeOf(steps[i]).value;
    var members := RingOrder(after.rings[c]);
    ShortestIsRight(start, model, cfg.models[model], now, |members|);
    OrderedElements(after.rings[c], members);
    RoundPlaces(cfg, start, cfg.modelOrder, now);
    RightMemory(start, after, model, cfg.models[model], now, members);
  }

  lemma RightMemory(start: Db, after: Db, model: Token, def: ModelDef, now: Time, members: seq<WorkerId>)
    requires RightGroup(start, model, def, now, members) && PlacesOnly(start, after)
    ensures Elements(members) <= after.workers.Keys
    ensures Pooled(after.workers, Elements(members)) >= def.requiredMemory
  {
    hide Pooled, Available;
    assert forall w :: w in start.workers ==> SameButPlace(start.workers[w], after.workers[w]);
    PooledSame(start.workers, after.workers, Elements(members));
  }

  /** And a round that returns forms a cluster of a registered model if and only if somebody is available for it
      and all who are have the memory required together. */
  lemma FormsExactly(cfg: Settings, states: seq<World>, steps: seq<Step>, i: nat, model: Token)
    requires cfg.heartbeatTimeout >= 0.0 && Enumerates(cfg.modelOrder, cfg.models.Keys) && model in cfg.models
    requires Execution(cfg, states, steps) && i < |steps| && TimeOf(steps[i]).Some?
    requires Constraints(states[i].db) && RoundDb(cfg, states[i].db, steps[i]).Some?
    requires Constraints(RoundDb(cfg, states[i].db, steps[i]).value)
    requires CheckAndForm(cfg, RoundDb(cfg, states[i].db, steps[i]).value, cfg.modelOrder, TimeOf(steps[i]).value).ok
    ensures var start := RoundDb(cfg, states[i].db, steps[i]).value;
            var def := cfg.models[model];
            var available := Available(start, model, def.gguf, TimeOf(steps[i]).value);
            Appears(states[i].db, states[i + 1].db, model) <==>
            available != {} && available <= start.workers.Keys && Pooled(start.workers, available) >= def.requiredMemory
  {
    hide Constraints, RoundDb, CheckAndForm, Waitlist, Rows, Next, MemorySum, Pooled, Available, Appears;
    FormationComplete(cfg, states, steps, i, model);
    var start := RoundDb(cfg, states[i].db, steps[i]).value;
    var gguf, now := cfg.models[model].gguf, TimeOf(steps[i]).value;
    var ws := Waitlist(Rows(start), model, gguf, now);
    WaitlistAvailable(start, model, gguf, now);
    AvailableRows(start, model, gguf, now);
    MemoryPooled(start.workers, ws);
    assert ws != [] ==> WorkerIds(ws)[0] in Elements(WorkerIds(ws));
  }

  // ---- Running out of subnets ----

  ghost function Answer(cfg: Settings, db: Db, step: Step): Reply
    requires Constraints(db) && (step.RegisterWorker? || step.SendHeartbeat?)
  {
    match step
    case RegisterWorker(cred, body, now) => Register(cfg, db, cred, body, now).reply
    case SendHeartbeat(cred, w, now) => Heartbeat(cfg, db, cred, w, now).reply
  }

  lemma AnswerSpec(cfg: Settings, db: Db, step: Step)
    requires Inv(cfg, db) && Constraints(db) && Allowed(cfg, db, step) && (step.RegisterWorker? || step.SendHeartbeat?)
    ensures match RoundDb(cfg, db, step)
            case None => Answer(cfg, db, step) == Denied
            case Some(start) =>
              Constraints(start) &&
              Answer(cfg, db, step) == if CheckAndForm(cfg, start, cfg.modelOrder, step.now).ok then Ok else Failed
  {
    hide Inv, Constraints, WorkerFromKey, Enroll, Heartbeat, CheckAndForm, Reregistered, Beat, PutWorker;
    match step
    case RegisterWorker(cred, body, now) =>
      if Enrolling(cfg, db, cred, body) && Enroll(cfg, db, cred.key, body, now).Some? {
        RegisterRound(cfg, db, cred, body, now);
        hide Register;
      }
    case SendHeartbeat(cred, w, now) =>
      if WorkerFromKey(db, cred, w).worker.Some? {
        HeartbeatRound(cfg, db, cred, w, now);
      } else {
        DeniedHeartbeat(cfg, db, cred, w, now);
      }
  }

  /** From every reachable state a registration or heartbeat fails (500) if and only if it gets to its
      round and the active clusters plus the groups due then exceed the 255 subnets; it leaves all of
      them in use. */
  lemma RequestFailsExactly(cfg: Settings, db: Db, step: Step)
    requires Inv(cfg, db) && Constraints(db) && Distinct(cfg.modelOrder)
    requires Allowed(cfg, db, step) && (step.RegisterWorker? || step.SendHeartbeat?)
    ensures RoundDb(cfg, db, step).Some? ==> Constraints(RoundDb(cfg, db, step).value)
    ensures Answer(cfg, db, step) == Failed <==>
            && RoundDb(cfg, db, step).Some?
            && (var due := Planned(cfg, RoundDb(cfg, db, step).value, Elements(cfg.modelOrder), step.now);
                |ActiveClusters(db)| + |due| > LAST_THIRD)
    ensures Answer(cfg, db, step) == Failed ==> |ActiveClusters(Apply(cfg, db, step))| == LAST_THIRD
  {
    hide Inv, Constraints, Allowed, RoundDb, CheckAndForm, Answer, Apply, Planned, ActiveClusters;
    AnswerSpec(cfg, db, step);
    RoundSpec(cfg, db, step);
    if RoundDb(cfg, db, step).Some? {
      var start := RoundDb(cfg, db, step).value;
      SameActive(db, start);
      RoundFailsExactly(cfg, start, cfg.modelOrder, step.now);
    }
  }

  // ---- Models whose registered hash nobody can advertise ----

  ghost predicate Hashed(cfg: Settings, db: Db) {
    forall c :: c in db.clusters ==>
      db.clusters[c].model in cfg.models && FullHash(cfg.models[db.clusters[c].model].gguf)
  }

  /** The members of an active cluster advertise its model's hash. */
  lemma ActiveHashed(cfg: Settings, db: Db, c: ClusterId)
    requires Inv(cfg, db) && Advertised(db) && Active(db, c)
    ensures db.clusters[c].model in cfg.models && FullHash(cfg.models[db.clusters[c].model].gguf)
  {
    assert ClusterHolds(db.clusters[c], db.rings[c]);
    var w :| w in db.rings[c];
    assert Serves(cfg, db, c, w);
  }

  /** A cluster is active when it appears. */
  lemma AppearsActive(start: Db, after: Db, now: Time, c: ClusterId)
    requires FormingEffect(start, after, now) && c in after.clusters && c !in start.clusters
    ensures Active(after, c)
  {
    assert Assembled(start, after.clusters[c], after.rings[c], now);
  }

  lemma RoundHashed(cfg: Settings, start: Db, after: Db, now: Time, c: ClusterId)
    requires Inv(cfg, after) && Advertised(after) && FormingEffect(start, after, now)
    requires c in after.clusters && c !in start.clusters
    ensures after.clusters[c].model in cfg.models && FullHash(cfg.models[after.clusters[c].model].gguf)
  {
    hide Inv, Advertised, FormingEffect;
    AppearsActive(start, after, now, c);
    ActiveHashed(cfg, after, c);
  }

  lemma StepHashed(cfg: Settings, states: seq<World>, steps: seq<Step>, i: nat, c: ClusterId)
    requires cfg.heartbeatTimeout >= 0.0
    requires Execution(cfg, states, steps) && i < |steps|
    requires Hashed(cfg, states[i].db) && c in states[i + 1].db.clusters
    ensures var model := states[i + 1].db.clusters[c].model;
            model in cfg.models && FullHash(cfg.models[model].gguf)
  {
    hide Inv, Constraints, Advertised, RoundDb, CheckAndForm, FormingEffect, Next, Preserves, Drawn;
    if c in states[i].db.clusters {
      HistoryPreserved(cfg, states, steps, i, i + 1);
      SameModel(states[i].db, states[i + 1].db, c);
    } else {
      RunRound(cfg, states, steps, i);
      var start := RoundDb(cfg, states[i].db, steps[i]).value;
      RoundFacts(cfg, start, cfg.modelOrder, steps[i].now);
      RoundHashed(cfg, start, states[i + 1].db, steps[i].now, c);
    }
  }

  /** A model whose registered hash is empty, or a placeholder of any length but 64, never gets a cluster:
      no cluster of any state of any run, active or terminated, is of such a model. */
  lemma {:induction false} UnhashedModelNeverForms(cfg: Settings, states: seq<World>, steps: seq<Step>, i: nat)
    requires cfg.heartbeatTimeout >= 0.0
    requires Execution(cfg, states, steps) && i <= |steps|
    ensures Hashed(cfg, states[i].db)
  {
    hide Next;
    if i == 0 {
      assert states[0].db == EMPTY;
    } else {
      UnhashedModelNeverForms(cfg, states, steps, i - 1);
      forall c | c in states[i].db.clusters
        ensures var model := states[i].db.clusters[c].model;
                model in cfg.models && FullHash(cfg.models[model].gguf)
      {
        StepHashed(cfg, states, steps, i - 1, c);
      }
    }
  }

  lemma SameModel(db: Db, after: Db, c: ClusterId)
    requires Preserves(db, after) && c in db.clusters
    ensures c in after.clusters && after.clusters[c].model == db.clusters[c].model
  {
    assert SameHistory(db.clusters[c], db.rings[c], after.clusters[c], after.rings[c]);
  }

  // ---- The server's own address ----

  lemma ShortestBound(ws: seq<Worker>, required: int, n: nat, least: nat, most: nat)
    requires Shortest(ws, required, n) && forall w :: w in ws ==> w.memory >= least
    requires 1 <= most && most * least >= required
    ensures n <= most
  {
    if most < n {
      assert forall w :: w in ws[..most] ==> w in ws;
      MemorySumAtLeast(ws[..most], least);
    }
  }

  lemma WaitlistOffers(db: Db, model: Token, gguf: Hash, now: Time, least: nat)
    requires Constraints(db) && Offers(db, least)
    ensures forall w :: w in Waitlist(Rows(db), model, gguf, now) ==> w.memory >= least
  {
    WaitlistSpec(Rows(db), model, gguf, now);
    RowsDistinct(db);
    hide Waitlist, Rows, Constraints;
  }

  lemma RoundOffers(cfg: Settings, states: seq<World>, steps: seq<Step>, i: nat, least: nat)
    requires cfg.heartbeatTimeout >= 0.0 && AllOffer(steps, least)
    requires Execution(cfg, states, steps) && i < |steps|
    requires Constraints(states[i].db) && RoundDb(cfg, states[i].db, steps[i]).Some?
    ensures Offers(RoundDb(cfg, states[i].db, steps[i]).value, least)
  {
    hide Inv, Constraints, Advertised, RoundDb, Offers, Next, SameAdverts, NewAdverts;
    RunOffers(cfg, states, steps, i, least);
    RunAdvertised(cfg, states, steps, i);
    RoundDbAdverts(cfg, states[i].db, steps[i]);
    var body := if steps[i].RegisterWorker? then steps[i].body else RegisterBody(0, NO_HASH, 0, 0, 0);
    OffersKeep(states[i].db, RoundDb(cfg, states[i].db, steps[i]).value, body, least);
  }

  /** How many members a cluster has when it appears. */
  lemma NewClusterBound(cfg: Settings, states: seq<World>, steps: seq<Step>, i: nat, c: ClusterId, least: nat,
                        most: nat)
    requires cfg.heartbeatTimeout >= 0.0 && Distinct(cfg.modelOrder) && AllOffer(steps, least) && 1 <= most
    requires forall m :: m in cfg.models ==> most * least >= cfg.models[m].requiredMemory
    requires Execution(cfg, states, steps) && i < |steps|
    requires c in states[i + 1].db.clusters && c !in states[i].db.clusters
    ensures c in states[i + 1].db.rings && |states[i + 1].db.rings[c].Keys| <= most
  {
    hide Constraints, RoundDb, Waitlist, Rows, Shortest, Next, RingOrder, UniqueSlots, Ordered, Offers, AllOffer;
    FormationExact(cfg, states, steps, i, c);
    RoundOffers(cfg, states, steps, i, least);
    var start := RoundDb(cfg, states[i].db, steps[i]).value;
    var model, now := states[i + 1].db.clusters[c].model, TimeOf(steps[i]).value;
    WaitlistOffers(start, model, cfg.models[model].gguf, now, least);
    var members := RingOrder(states[i + 1].db.rings[c]);
    ShortestBound(Waitlist(Rows(start), model, cfg.models[model].gguf, now), cfg.models[model].requiredMemory,
                  |members|, least, most);
    OrderedDistinct(states[i + 1].db.rings[c], members);
  }

  /** The cluster has at most so many members, on consecutive hosts of its subnet. */
  ghost predicate Hosted(row: ClusterRow, ring: Ring, most: nat) {
    |ring.Keys| <= most && exists third :: On(row, ring, third)
  }

  ghost predicate AllHosted(db: Db, most: nat) {
    forall c :: c in db.clusters && c in db.rings ==> Hosted(db.clusters[c], db.rings[c], most)
  }

  lemma HistoryHosted(row: ClusterRow, ring: Ring, laterRow: ClusterRow, laterRing: Ring, most: nat)
    requires SameHistory(row, ring, laterRow, laterRing) && Hosted(row, ring, most)
    ensures Hosted(laterRow, laterRing, most)
  {
    hide HostText, SubnetText;
    var third :| On(row, ring, third);
    assert On(laterRow, laterRing, third);
  }

  lemma ActiveHosted(cfg: Settings, db: Db, c: ClusterId, most: nat)
    requires Inv(cfg, db) && Active(db, c) && c in db.rings && |db.rings[c].Keys| <= most
    ensures Hosted(db.clusters[c], db.rings[c], most)
  {
    hide Inv, On, Compact;
    var third := ActiveRows(cfg, db, c);
  }

  lemma StepHosted(cfg: Settings, states: seq<World>, steps: seq<Step>, i: nat, c: ClusterId, least: nat, most: nat)
    requires cfg.heartbeatTimeout >= 0.0 && Distinct(cfg.modelOrder) && AllOffer(steps, least) && 1 <= most
    requires forall m :: m in cfg.models ==> most * least >= cfg.models[m].requiredMemory
    requires Execution(cfg, states, steps) && i < |steps|
    requires AllHosted(states[i].db, most) && c in states[i + 1].db.clusters && c in states[i + 1].db.rings
    ensures Hosted(states[i + 1].db.clusters[c], states[i + 1].db.rings[c], most)
  {
    hide Inv, Constraints, Advertised, RoundDb, CheckAndForm, FormingEffect, Next, Drawn, AllOffer, Hosted, SameHistory;
    if c in states[i].db.clusters {
      HistoryPreserved(cfg, states, steps, i, i + 1);
      assert SameHistory(states[i].db.clusters[c], states[i].db.rings[c],
                         states[i + 1].db.clusters[c], states[i + 1].db.rings[c]);
      HistoryHosted(states[i].db.clusters[c], states[i].db.rings[c],
                    states[i + 1].db.clusters[c], states[i + 1].db.rings[c], most);
    } else {
      RunRound(cfg, states, steps, i);
      var start := RoundDb(cfg, states[i].db, steps[i]).value;
      RoundFacts(cfg, start, cfg.modelOrder, steps[i].now);
      AppearsActive(start, states[i + 1].db, steps[i].now, c);
      NewClusterBound(cfg, states, steps, i, c, least, most);
      ActiveHosted(cfg, states[i + 1].db, c, most);
    }
  }

  lemma {:induction false} RunHosted(cfg: Settings, states: seq<World>, steps: seq<Step>, i: nat, least: nat,
                                     most: nat)
    requires cfg.heartbeatTimeout >= 0.0 && Distinct(cfg.modelOrder) && AllOffer(steps, least) && 1 <= most
    requires forall m :: m in cfg.models ==> most * least >= cfg.models[m].requiredMemory
    requires Execution(cfg, states, steps) && i <= |steps|
    ensures AllHosted(states[i].db, most)
  {
    hide Next, AllOffer, Hosted;
    if i == 0 {
      assert states[0].db == EMPTY;
    } else {
      RunHosted(cfg, states, steps, i - 1, least, most);
      forall c | c in states[i].db.clusters && c in states[i].db.rings
        ensures Hosted(states[i].db.clusters[c], states[i].db.rings[c], most)
      {
        StepHosted(cfg, states, steps, i - 1, c, least, most);
      }
    }
  }

  /** If every registration of a run offers the least memory and `most` workers of that size suffice for
      every model, no cluster in any state of the run, active or terminated, has more than `most` members,
      and the server's address stays clear of all of them as long as its offset is larger. With the
      default offset, 254, this takes 253 workers. */
  lemma RunsClearOfServer(cfg: Settings, states: seq<World>, steps: seq<Step>, i: nat, c: ClusterId, least: nat,
                          most: nat, offset: nat)
    requires cfg.heartbeatTimeout >= 0.0 && Distinct(cfg.modelOrder) && AllOffer(steps, least)
    requires 1 <= most < offset && forall m :: m in cfg.models ==> most * least >= cfg.models[m].requiredMemory
    requires Execution(cfg, states, steps) && i <= |steps| && c in states[i].db.clusters
    ensures Constraints(states[i].db)
    ensures |Text.Split(ClusterAt(states[i].db, c).value.subnet)| > 2
    ensures var rec := ClusterAt(states[i].db, c).value;
            |rec.members| <= most && ServerIp(rec.subnet, offset) !in rec.ips.Values
  {
    hide Inv, Advertised, AllOffer, AllHosted, Next, ServerIp, Hosted, IpsOf, RingOrder, Ordered, UniqueSlots,
         ReadyOf, WindowsOf, Compact, Constraints;
    RunAdvertised(cfg, states, steps, i);
    RunHosted(cfg, states, steps, i, least, most);
    HostedClear(cfg, states[i].db, c, most, offset);
    RecordAt(states[i].db, c);
  }

  lemma RecordAt(db: Db, c: ClusterId)
    requires Constraints(db) && c in db.clusters
    ensures c in db.rings && UniqueSlots(db.rings[c])
    ensures ClusterAt(db, c) == Some(LoadRecord(c, db.clusters[c], db.rings[c]))
  {
  }

  lemma HostedClear(cfg: Settings, db: Db, c: ClusterId, most: nat, offset: nat)
    requires Inv(cfg, db) && AllHosted(db, most) && 1 <= most < offset && c in db.clusters
    ensures c in db.rings && UniqueSlots(db.rings[c]) && |RingOrder(db.rings[c])| <= most
    ensures |Text.Split(db.clusters[c].subnet)| > 2
    ensures ServerIp(db.clusters[c].subnet, offset) !in IpsOf(db.rings[c]).Values
  {
    assert ClusterHolds(db.clusters[c], db.rings[c]);
    hide Inv, ClusterHolds, Compact, UniqueSlots, RingOrder, Ordered, On, IpsOf, ServerIp, Text.Split;
    var row, ring := db.clusters[c], db.rings[c];
    CompactSlots(row, ring);
    OrderedDistinct(ring, RingOrder(ring));
    assert Hosted(row, ring, most);
    var third :| On(row, ring, third);
    ServerAddressOnRing(row, ring, third, offset);
  }
}
