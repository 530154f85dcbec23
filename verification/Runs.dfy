/** Whole runs: any finite sequence of requests, frames and sweeps, in any order, on a clock that does
    not go back. */
module Runs {
  import opened Basics
  import opened Models
  import opened Tables
  import opened Scheduling
  import opened Invariants
  import opened Liveness
  import opened Handlers
  import opened Transitions
  import opened Steps
  import opened Ranks
  import R = Readiness

  /** The database and what an observer of the run remembers: the clock, when each worker last came
      online and was last heard, and when the last sweep ran. */
  datatype World = World(
    db: Db,
    clock: Time,
    cameUp: map<WorkerId, Time>,
    heard: map<WorkerId, Time>,
    swept: Option<Time>)

  const START := World(EMPTY, 0.0, map[], map[], None)

  function TimeOf(step: Step): Option<Time> {
    match step
    case RegisterWorker(_, _, now) => Some(now)
    case SendHeartbeat(_, _, now) => Some(now)
    case SweepOnce(now) => Some(now)
    case _ => None
  }

  /** The step is a heartbeat that is accepted. */
  predicate IsHeard(db: Db, step: Step) {
    step.SendHeartbeat? && WorkerFromKey(db, step.cred, step.worker).worker.Some?
  }

  /** And it brings its worker online. */
  predicate BringsUp(db: Db, step: Step) {
    IsHeard(db, step) && step.worker in db.workers && !db.workers[step.worker].online
  }

  ghost function Advance(cfg: Settings, world: World, step: Step): World
    requires Constraints(world.db)
  {
    World(
      Apply(cfg, world.db, step),
      if TimeOf(step).Some? then TimeOf(step).value else world.clock,
      if BringsUp(world.db, step) then world.cameUp[step.worker := step.now] else world.cameUp,
      if IsHeard(world.db, step) then world.heard[step.worker := step.now] else world.heard,
      if step.SweepOnce? then Some(step.now) else world.swept)
  }

  ghost predicate Next(cfg: Settings, world: World, step: Step, after: World) {
    && Constraints(world.db)
    && Allowed(cfg, world.db, step)
    && (TimeOf(step).Some? ==> world.clock <= TimeOf(step).value)
    && after == Advance(cfg, world, step)
  }

  /** A run: states[0] is the empty database, and steps[i] leads from states[i] to states[i + 1]. */
  ghost predicate Execution(cfg: Settings, states: seq<World>, steps: seq<Step>) {
    && |states| == |steps| + 1
    && states[0] == START
    && forall i :: 0 <= i < |steps| ==> Next(cfg, states[i], steps[i], states[i + 1])
  }

  // ---- One step ----

  /** Steps that leave workers, clusters and rings alone. */
  lemma QuietStepFacts(cfg: Settings, db: Db, step: Step)
    requires Inv(cfg, db) && Constraints(db)
    requires step.CreateKey? || step.RevokeKey? || step.Rescan?
    ensures Inv(cfg, Apply(cfg, db, step)) && Preserves(db, Apply(cfg, db, step)) && SameLife(db, Apply(cfg, db, step))
  {
    hide MembersServe, PointersHold, ClustersHold, SubnetsHold, Preserves;
    SameTablesKeep(cfg, db, Apply(cfg, db, step));
    SameClustersPreserve(db, Apply(cfg, db, step));
  }

  /** Every allowed step keeps the invariant and the history of clusters, and only a heartbeat
      changes life signs. */
  lemma StepFacts(cfg: Settings, db: Db, step: Step)
    requires Inv(cfg, db) && Constraints(db) && Allowed(cfg, db, step)
    ensures Inv(cfg, Apply(cfg, db, step)) && Preserves(db, Apply(cfg, db, step))
    ensures !step.SendHeartbeat? ==> SameLife(db, Apply(cfg, db, step))
  {
    SameClustersPreserve(db, db);
    hide Inv, Constraints, Preserves, SameLife, Register, Heartbeat, Revoke, WorkerFromKey, BoundWorker, Ready,
         Frame, Sweep;
    match step
    case CreateKey(_, _) => QuietStepFacts(cfg, db, step);
    case RevokeKey(_) => QuietStepFacts(cfg, db, step);
    case RegisterWorker(cred, body, now) => RegisterFacts(cfg, db, cred, body, now);
    case SendHeartbeat(cred, w, now) => HeartbeatFacts(cfg, db, cred, w, now);
    case RevokeWorker(cred, w) => RevokeFacts(cfg, db, cred, w);
    case ReadState(cred, w) => WorkerFromKeyFacts(cfg, db, cred, w);
    case ReadConfig(cred, c) => BoundWorkerFacts(cfg, db, cred, c); SameLifeItself(db);
    case ReportReady(cred, c, layers) => ReadyFacts(cfg, db, cred, c, layers);
    case SendFrame(w, c, frame) => FrameFacts(cfg, db, w, c, frame);
    case SweepOnce(now) => SweepFacts(cfg, db, now);
    case Rescan(_) => QuietStepFacts(cfg, db, step);
  }

  // ---- Timing ----

  /** Every online worker came up at a remembered time, its grace period ends a grace after that, its row
      carries the time it was last heard, and that was in time for the last sweep. */
  ghost predicate Timed(cfg: Settings, world: World) {
    && (world.swept.Some? ==> world.swept.value <= world.clock)
    && forall w :: w in world.db.workers && world.db.workers[w].online ==> TimedWorker(cfg, world, w)
  }

  ghost predicate TimedWorker(cfg: Settings, world: World, w: WorkerId)
    requires w in world.db.workers
  {
    && w in world.cameUp
    && world.cameUp[w] <= world.clock
    && world.db.workers[w].assignableAt == world.cameUp[w] + cfg.assignableGrace
    && w in world.heard && world.db.workers[w].lastHeartbeat == world.heard[w]
    && (world.swept.Some? ==> world.db.workers[w].lastHeartbeat >= world.swept.value - cfg.heartbeatTimeout)
  }

  /** After an accepted heartbeat the sender carries its new life signs and everyone else the old ones. */
  lemma HeartbeatLife(cfg: Settings, db: Db, cred: Credential, w: WorkerId, now: Time)
    requires Inv(cfg, db) && Constraints(db)
    ensures var after := Heartbeat(cfg, db, cred, w, now).db;
            if WorkerFromKey(db, cred, w).worker.Some?
            then w in db.workers && SameLife(PutWorker(db, Beat(cfg, db.workers[w], now)), after)
            else SameLife(db, after)
    ensures w in db.workers ==> db.workers[w].workerId == w
  {
    assert w in db.workers ==> db.workers[w].workerId == w;
    hide Inv, WorkerFromKey, CheckAndForm, Beat, Preserves, Constraints, FormingEffect, SameLife;
    WorkerFromKeyFacts(cfg, db, cred, w);
    var found := WorkerFromKey(db, cred, w);
    if found.worker.Some? {
      BeatKeeps(cfg, found.db, w, now);
      var beaten := PutWorker(found.db, Beat(cfg, found.worker.value, now));
      InvConstraints(cfg, beaten);
      RoundFacts(cfg, beaten, cfg.modelOrder, now);
      EffectLife(beaten, CheckAndForm(cfg, beaten, cfg.modelOrder, now).db, now);
      SameWorkersLife(beaten, PutWorker(db, Beat(cfg, db.workers[w], now)),
                      CheckAndForm(cfg, beaten, cfg.modelOrder, now).db);
    }
  }

  lemma SameWorkersLife(db: Db, other: Db, after: Db)
    requires SameLife(db, after) && other.workers == db.workers
    ensures SameLife(other, after)
  {
  }

  lemma EffectLife(db: Db, after: Db, now: Time)
    requires FormingEffect(db, after, now)
    ensures SameLife(db, after)
  {
  }

  lemma QuietStepTimed(cfg: Settings, world: World, step: Step, db: Db)
    requires Timed(cfg, world) && SameLife(world.db, db)
    requires TimeOf(step).Some? ==> world.clock <= TimeOf(step).value
    requires step.SweepOnce? ==>
               forall w :: w in db.workers && db.workers[w].online ==>
                 db.workers[w].lastHeartbeat >= step.now - cfg.heartbeatTimeout
    ensures Timed(cfg, World(db, if TimeOf(step).Some? then TimeOf(step).value else world.clock, world.cameUp,
                             world.heard, if step.SweepOnce? then Some(step.now) else world.swept))
  {
    forall w | w in db.workers && db.workers[w].online ensures TimedWorker(cfg, world, w) {
    }
  }

  lemma HeartbeatTimed(cfg: Settings, world: World, w: WorkerId, now: Time, db: Db)
    requires cfg.heartbeatTimeout >= 0.0
    requires Timed(cfg, world) && world.clock <= now && w in world.db.workers && world.db.workers[w].workerId == w
    requires SameLife(PutWorker(world.db, Beat(cfg, world.db.workers[w], now)), db)
    ensures var cameUp := if world.db.workers[w].online then world.cameUp else world.cameUp[w := now];
            Timed(cfg, World(db, now, cameUp, world.heard[w := now], world.swept))
  {
    var beaten := PutWorker(world.db, Beat(cfg, world.db.workers[w], now));
    var cameUp := if world.db.workers[w].online then world.cameUp else world.cameUp[w := now];
    var after := World(db, now, cameUp, world.heard[w := now], world.swept);
    forall v | v in db.workers && db.workers[v].online ensures TimedWorker(cfg, after, v) {
      assert v in beaten.workers;
      if v != w || world.db.workers[w].online {
        assert TimedWorker(cfg, world, v);
      }
    }
  }

  lemma StepTimed(cfg: Settings, world: World, step: Step, after: World)
    requires cfg.heartbeatTimeout >= 0.0
    requires Inv(cfg, world.db) && Timed(cfg, world) && Next(cfg, world, step, after)
    ensures Timed(cfg, after)
  {
    StepFacts(cfg, world.db, step);
    if step.SendHeartbeat? {
      HeartbeatLife(cfg, world.db, step.cred, step.worker, step.now);
      hide Inv, Constraints, Timed, SameLife, Heartbeat, WorkerFromKey, Preserves;
      if WorkerFromKey(world.db, step.cred, step.worker).worker.Some? {
        HeartbeatTimed(cfg, world, step.worker, step.now, after.db);
      } else {
        QuietStepTimed(cfg, world, step, after.db);
      }
    } else {
      if step.SweepOnce? {
        SweepFacts(cfg, world.db, step.now);
      }
      hide Inv, Constraints, Timed, SameLife, Preserves, Sweep;
      QuietStepTimed(cfg, world, step, after.db);
    }
  }

  // ---- Runs ----

  /** In every state of every run worker rows, active clusters, membership rows, subnets and keys
      agree, and the life signs are in time. */
  lemma {:induction false} RunInvariant(cfg: Settings, states: seq<World>, steps: seq<Step>, i: nat)
    requires cfg.heartbeatTimeout >= 0.0
    requires Execution(cfg, states, steps) && i <= |steps|
    ensures Inv(cfg, states[i].db) && Timed(cfg, states[i])
  {
    if i == 0 {
      EmptyHolds(cfg);
    } else {
      RunInvariant(cfg, states, steps, i - 1);
      assert Next(cfg, states[i - 1], steps[i - 1], states[i]);
      StepFacts(cfg, states[i - 1].db, steps[i - 1]);
      hide Inv, Apply, Allowed, Timed;
      StepTimed(cfg, states[i - 1], steps[i - 1], states[i]);
    }
  }

  /** Over the rest of a run a cluster keeps its identity, members, slots and addresses; from the
      moment it is terminated its row and its membership rows never change again. */
  lemma {:induction false} HistoryPreserved(cfg: Settings, states: seq<World>, steps: seq<Step>, i: nat, j: nat)
    requires cfg.heartbeatTimeout >= 0.0
    requires Execution(cfg, states, steps) && i <= j <= |steps|
    ensures Preserves(states[i].db, states[j].db)
    decreases j - i
  {
    hide Inv, Apply, Allowed, Preserves, Timed, Constraints, SameLife;
    if i == j {
      RunInvariant(cfg, states, steps, j);
      InvKeys(cfg, states[i].db);
      SameClustersPreserve(states[i].db, states[i].db);
    } else {
      HistoryPreserved(cfg, states, steps, i, j - 1);
      RunInvariant(cfg, states, steps, j - 1);
      assert Next(cfg, states[j - 1], steps[j - 1], states[j]);
      StepFacts(cfg, states[j - 1].db, steps[j - 1]);
      PreservesChain(states[i].db, states[j - 1].db, states[j].db);
    }
  }

  // ---- Timed safety ----

  lemma RevokeAddsNoCluster(cfg: Settings, db: Db, cred: Credential, w: WorkerId)
    requires Inv(cfg, db) && Constraints(db)
    ensures Revoke(db, cred, w).db.clusters.Keys == db.clusters.Keys
  {
    WorkerFromKeyFacts(cfg, db, cred, w);
    hide Inv, Constraints, WorkerFromKey, WorkerGone, Preserves, SameLife;
    if WorkerFromKey(db, cred, w).worker.Some? {
      GoneFacts(cfg, WorkerFromKey(db, cred, w).db, w);
    }
  }

  lemma ReportAddsNoCluster(cfg: Settings, db: Db, cred: Credential, c: ClusterId, layers: Option<Payload>)
    requires Inv(cfg, db) && Constraints(db)
    ensures Ready(db, cred, c, layers).db.clusters.Keys == db.clusters.Keys
  {
    hide Inv, Constraints, BoundWorker, Preserves, SameLife, Distribute, MarkMemberReady, Ready;
    BoundWorkerFacts(cfg, db, cred, c);
    var found := BoundWorker(db, cred, c).db;
    var w, windows := ReadyCases(db, cred, c, layers);
    DistributeKeys(found, c, windows);
    MarkKeys(found, c, w);
    MarkKeys(Distribute(found, c, windows), c, w);
  }

  lemma DistributeKeys(db: Db, c: ClusterId, windows: map<WorkerId, nat>)
    requires Constraints(db)
    ensures Distribute(db, c, windows).clusters.Keys == db.clusters.Keys
  {
    hide R.SetDistribution;
  }

  lemma MarkKeys(db: Db, c: ClusterId, w: WorkerId)
    requires Constraints(db)
    ensures MarkMemberReady(db, c, w).clusters.Keys == db.clusters.Keys
  {
    hide R.MarkReady;
  }

  lemma SweepAddsNoCluster(cfg: Settings, db: Db, now: Time)
    requires Inv(cfg, db) && Constraints(db)
    ensures Sweep(db, now, cfg.heartbeatTimeout).clusters.Keys == db.clusters.Keys
  {
    SweepIsSimple(cfg, db, now, cfg.heartbeatTimeout);
    hide Inv, Constraints, Sweep, Broken, Dead;
  }

  lemma NoNewClusters(cfg: Settings, db: Db, step: Step)
    requires Inv(cfg, db) && Constraints(db) && !step.RegisterWorker? && !step.SendHeartbeat?
    ensures Apply(cfg, db, step).clusters.Keys == db.clusters.Keys
  {
    hide Inv, Constraints, Preserves, SameLife, WorkerFromKey, BoundWorker, Ready, Revoke, Sweep, ClusterAt,
         R.SetDistribution;
    match step
    case CreateKey(_, _) =>
    case RevokeKey(_) =>
    case RevokeWorker(cred, w) => RevokeAddsNoCluster(cfg, db, cred, w);
    case ReadState(cred, w) => WorkerFromKeyFacts(cfg, db, cred, w);
    case ReadConfig(cred, c) => BoundWorkerFacts(cfg, db, cred, c);
    case ReportReady(cred, c, layers) => ReportAddsNoCluster(cfg, db, cred, c, layers);
    case SendFrame(_, _, _) =>
    case SweepOnce(now) => SweepAddsNoCluster(cfg, db, now);
    case Rescan(_) =>
  }

  /** The database that a registration or heartbeat hands to its round of formation, if it gets there. */
  ghost function RoundDb(cfg: Settings, db: Db, step: Step): Option<Db>
    requires Constraints(db)
  {
    match step
    case RegisterWorker(cred, body, now) =>
      if Enrolling(cfg, db, cred, body) then Enroll(cfg, db, cred.key, body, now) else None
    case SendHeartbeat(cred, w, now) =>
      var found := WorkerFromKey(db, cred, w);
      if found.worker.Some? then Some(PutWorker(found.db, Beat(cfg, found.worker.value, now))) else None
    case _ => None
  }

  lemma RegisterRound(cfg: Settings, db: Db, cred: Credential, body: RegisterBody, now: Time)
    requires Inv(cfg, db) && Constraints(db) && Enrolling(cfg, db, cred, body)
    requires Enroll(cfg, db, cred.key, body, now).Some?
    ensures var start := Enroll(cfg, db, cred.key, body, now).value;
            && Constraints(start) && Drawn(start) && start.clusters == db.clusters && start.rings == db.rings
            && (Allowed(cfg, db, RegisterWorker(cred, body, now)) ==> Inv(cfg, start))
            && Register(cfg, db, cred, body, now) == Finish(cfg, start, now)
  {
    hide Inv, Constraints, Drawn, Enroll, Reregistered, Admissible, CheckAndForm, SameLife;
    EnrollConstraints(cfg, db, cred.key, body, now);
    EnrollFacts(cfg, db, cred, body, now);
  }

  lemma HeartbeatRound(cfg: Settings, db: Db, cred: Credential, w: WorkerId, now: Time)
    requires Inv(cfg, db) && Constraints(db) && WorkerFromKey(db, cred, w).worker.Some?
    ensures var found := WorkerFromKey(db, cred, w);
            var start := PutWorker(found.db, Beat(cfg, found.worker.value, now));
            && Constraints(start) && Drawn(start) && start.clusters == db.clusters && start.rings == db.rings
            && Inv(cfg, start)
            && Heartbeat(cfg, db, cred, w, now) == Finish(cfg, start, now)
  {
    hide Inv, Constraints, WorkerFromKey, CheckAndForm, Beat, Preserves, SameLife;
    WorkerFromKeyFacts(cfg, db, cred, w);
    var found := WorkerFromKey(db, cred, w);
    BeatKeeps(cfg, found.db, w, now);
    InvConstraints(cfg, PutWorker(found.db, Beat(cfg, found.worker.value, now)));
  }

  /** A step changes the set of clusters only by its round. */
  lemma RoundSpec(cfg: Settings, db: Db, step: Step)
    requires Inv(cfg, db) && Constraints(db) && Allowed(cfg, db, step)
    ensures match RoundDb(cfg, db, step)
            case None => Apply(cfg, db, step).clusters.Keys == db.clusters.Keys
            case Some(start) =>
              && (step.RegisterWorker? || step.SendHeartbeat?)
              && Constraints(start) && Drawn(start) && Inv(cfg, start)
              && start.clusters == db.clusters && start.rings == db.rings
              && Apply(cfg, db, step) == CheckAndForm(cfg, start, cfg.modelOrder, step.now).db
  {
    hide Inv, Constraints, WorkerFromKey, Enroll, Heartbeat, CheckAndForm, Reregistered, Beat, PutWorker;
    match step
    case RegisterWorker(cred, body, now) =>
      if Enrolling(cfg, db, cred, body) && Enroll(cfg, db, cred.key, body, now).Some? {
        RegisterRound(cfg, db, cred, body, now);
        hide Register;
      }
    case SendHeartbeat(cred, w, now) =>
      if WorkerFromKey(db, cred, w).worker.Some? {
        HeartbeatRound(cfg, db, cred, w, now);
      } else {
        WorkerFromKeyFacts(cfg, db, cred, w);
        DeniedHeartbeat(cfg, db, cred, w, now);
      }
    case _ => NoNewClusters(cfg, db, step);
  }

  lemma DeniedHeartbeat(cfg: Settings, db: Db, cred: Credential, w: WorkerId, now: Time)
    requires Constraints(db) && WorkerFromKey(db, cred, w).worker.None?
    ensures Heartbeat(cfg, db, cred, w, now) == Outcome(WorkerFromKey(db, cred, w).db, Denied)
  {
    hide Constraints, WorkerFromKey, CheckAndForm, Beat, PutWorker;
  }

  /** Whenever a cluster forms, every member last came online at least a grace period before. */
  lemma FormedAfterGrace(cfg: Settings, states: seq<World>, steps: seq<Step>, i: nat, c: ClusterId, w: WorkerId)
    requires cfg.heartbeatTimeout >= 0.0
    requires Execution(cfg, states, steps) && i < |steps|
    requires c in states[i + 1].db.clusters && c !in states[i].db.clusters
    requires c in states[i + 1].db.rings && w in states[i + 1].db.rings[c]
    ensures TimeOf(steps[i]).Some?
    ensures w in states[i + 1].cameUp && states[i + 1].cameUp[w] <= TimeOf(steps[i]).value - cfg.assignableGrace
  {
    RunInvariant(cfg, states, steps, i);
    RunInvariant(cfg, states, steps, i + 1);
    assert Next(cfg, states[i], steps[i], states[i + 1]);
    InvConstraints(cfg, states[i + 1].db);
    hide Constraints, Apply, Allowed;
    RoundSpec(cfg, states[i].db, steps[i]);
    hide RoundDb, CheckAndForm;
    if RoundDb(cfg, states[i].db, steps[i]).Some? {
      var start := RoundDb(cfg, states[i].db, steps[i]).value;
      RoundFacts(cfg, start, cfg.modelOrder, steps[i].now);
      GraceHasPassed(cfg, start, states[i + 1], steps[i].now, c, w);
    }
  }

  lemma GraceHasPassed(cfg: Settings, start: Db, world: World, now: Time, c: ClusterId, w: WorkerId)
    requires FormingEffect(start, world.db, now) && Inv(cfg, world.db) && Timed(cfg, world)
    requires c in world.db.clusters && c !in start.clusters && c in world.db.rings && w in world.db.rings[c]
    ensures w in world.cameUp && world.cameUp[w] <= now - cfg.assignableGrace
  {
    assert Assembled(start, world.db.clusters[c], world.db.rings[c], now);
    OnlineMember(cfg, world.db, c, w);
    hide Inv, Assembled;
    assert TimedWorker(cfg, world, w);
  }

  lemma OnlineMember(cfg: Settings, db: Db, c: ClusterId, w: WorkerId)
    requires Inv(cfg, db) && Active(db, c) && c in db.rings && w in db.rings[c]
    ensures w in db.workers && db.workers[w].online
  {
    assert Serves(cfg, db, c, w);
  }

  /** Once a sweep has run, and as long as the next one is not late, every member of every active
      cluster has sent a heartbeat within the timeout plus one sweep interval. */
  lemma MembersFresh(cfg: Settings, states: seq<World>, steps: seq<Step>, i: nat, interval: Time, c: ClusterId,
                     w: WorkerId)
    requires cfg.heartbeatTimeout >= 0.0
    requires Execution(cfg, states, steps) && i <= |steps|
    requires states[i].swept.Some? && states[i].clock - states[i].swept.value <= interval
    requires Active(states[i].db, c) && c in states[i].db.rings && w in states[i].db.rings[c]
    ensures w in states[i].db.workers
    ensures states[i].clock - states[i].db.workers[w].lastHeartbeat <= cfg.heartbeatTimeout + interval
  {
    RunInvariant(cfg, states, steps, i);
    assert Serves(cfg, states[i].db, c, w);
    assert TimedWorker(cfg, states[i], w);
  }
}
