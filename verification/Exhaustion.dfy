/** A run in which the subnets run out: one device after another joins and is grouped alone, and the
    heartbeat of the 256th fails (scheduler.py: _next_subnet; app.py: heartbeat). */
module Exhaustion {
  import opened Basics
  import opened Models
  import opened Tables
  import opened Addressing
  import opened Waitlists
  import opened Scheduling
  import opened Invariants
  import opened Handlers
  import opened Transitions
  import opened Steps
  import opened Runs
  import opened Consequences
  import opened Settling
  import opened Advertisements
  import opened Formations
  import opened Reregistration

  /** n devices of accounts below n have joined, each has a cluster, and nobody waits. */
  ghost predicate Crowded(db: Db, n: nat) {
    && Inv(CONFIG, db) && Constraints(db) && Drawn(db) && Advertised(db)
    && |ActiveClusters(db)| == n && Waiting(db, 0.0) == {} && AccountsBelow(db, n)
  }

  ghost predicate AccountsBelow(db: Db, n: nat) {
    forall w :: w in db.workers ==> db.workers[w].accountId < n
  }

  // ---- The steps of one more device ----

  /** Its account is n, its key is the next identifier and its worker the one after. */
  function Joining(db: Db, n: nat): seq<Step> {
    [CreateKey(n, WorkerScope),
     RegisterWorker(KeyCredential(db.next), BODY, 0.0),
     SendHeartbeat(KeyCredential(db.next), db.next + 1, 0.0)]
  }

  function Newcomer(db: Db, n: nat): Worker {
    NewWorker(db.next + 1, n, BODY, 0.0)
  }

  /** The database after the first step, after the second, and when the third begins its round. */
  function Keyed(db: Db, n: nat): Db {
    db.(keys := db.keys[db.next := ApiKey(n, WorkerScope, None)], next := db.next + 1)
  }

  function Joined(db: Db, n: nat): Db {
    db.(workers := db.workers[db.next + 1 := Newcomer(db, n)],
        scan := db.scan + [db.next + 1],
        keys := db.keys[db.next := ApiKey(n, WorkerScope, Some(db.next + 1))],
        next := db.next + 2)
  }

  function Arrived(db: Db, n: nat): Db {
    PutWorker(Joined(db, n), Beat(CONFIG, Newcomer(db, n), 0.0))
  }

  lemma KeyedFacts(db: Db, n: nat)
    requires Inv(CONFIG, db) && Constraints(db)
    ensures Apply(CONFIG, db, Joining(db, n)[0]) == Keyed(db, n)
    ensures Inv(CONFIG, Keyed(db, n)) && Constraints(Keyed(db, n))
  {
    hide Inv, Constraints, Preserves, SameLife;
    QuietStepFacts(CONFIG, db, CreateKey(n, WorkerScope));
    InvConstraints(CONFIG, Keyed(db, n));
  }

  /** An account without a device can have one. */
  lemma AccountFree(db: Db, a: AccountId, id: WorkerId)
    requires Constraints(db) && id !in db.workers
    requires forall w :: w in db.workers ==> db.workers[w].accountId != a
    ensures CanCreate(db, NewWorker(id, a, BODY, 0.0), 5)
  {
    hide Rows, OfAccount, Constraints;
    RowsDistinct(db);
    OfAccountSpec(Rows(db), a);
    var existing := OfAccount(Rows(db), a);
    assert existing == [] || existing[0] in existing;
  }

  lemma JoinedRows(db: Db, n: nat)
    ensures var drawn := Keyed(db, n).(next := db.next + 2);
            db.next + 1 !in db.workers ==>
              BindKey(InsertWorker(drawn, Newcomer(db, n)), db.next, db.next + 1) == Joined(db, n)
    ensures Newcomer(db, n).workerId == db.next + 1
  {
  }

  lemma NewcomerEnrolls(db: Db, n: nat)
    requires Constraints(db) && Drawn(db) && AccountsBelow(db, n)
    requires Constraints(Keyed(db, n))
    ensures CanCreate(Keyed(db, n).(next := db.next + 2), Newcomer(db, n), 5)
  {
    hide Constraints, CanCreate;
    DrawnConstraints(Keyed(db, n));
    AccountFree(Keyed(db, n).(next := db.next + 2), n, db.next + 1);
  }

  lemma BodyAdmissible()
    ensures Admissible(CONFIG, BODY)
  {
  }

  lemma JoinedFacts(db: Db, n: nat)
    requires Constraints(db) && Drawn(db) && AccountsBelow(db, n)
    requires Constraints(Keyed(db, n))
    ensures Enrolling(CONFIG, Keyed(db, n), KeyCredential(db.next), BODY)
    ensures Enroll(CONFIG, Keyed(db, n), db.next, BODY, 0.0) == Some(Joined(db, n))
    ensures Allowed(CONFIG, Keyed(db, n), Joining(db, n)[1])
  {
    hide Constraints, CanCreate, Returning, Admissible, Joined, InsertWorker, BindKey, NewWorker;
    BodyAdmissible();
    NewcomerEnrolls(db, n);
    JoinedRows(db, n);
  }

  // ---- Registering forms nothing ----

  lemma JoinedWaiting(db: Db, n: nat)
    requires Drawn(db) && Waiting(db, 0.0) == {}
    ensures Waiting(Joined(db, n), 0.0) == {}
    ensures Waiting(Arrived(db, n), 0.0) == {db.next + 1}
  {
    assert forall w :: w in db.workers && Waits(db.workers[w], 0.0) ==> w in Waiting(db, 0.0);
  }

  lemma NobodyForms(db: Db)
    requires Constraints(db) && Waiting(db, 0.0) == {}
    ensures CheckAndForm(CONFIG, db, CONFIG.modelOrder, 0.0) == Effect(db, true)
  {
    hide Constraints, Chosen, Waiting;
    if Chosen(CONFIG, db, MODEL, 0.0) != [] {
      ChosenWait(CONFIG, db, MODEL, 0.0);
    }
    assert CONFIG.modelOrder[1..] == [];
  }

  lemma RegistrationApplied(db: Db, n: nat)
    requires Crowded(db, n)
    ensures Constraints(Keyed(db, n)) && Inv(CONFIG, Keyed(db, n)) && Allowed(CONFIG, Keyed(db, n), Joining(db, n)[1])
    ensures Apply(CONFIG, Keyed(db, n), Joining(db, n)[1]) == Joined(db, n)
    ensures Constraints(Joined(db, n)) && Inv(CONFIG, Joined(db, n)) && Drawn(Joined(db, n))
  {
    hide Inv, Constraints, Enroll, Allowed, CheckAndForm, Waiting, Drawn, Advertised, ActiveClusters, Keyed, Joined;
    KeyedFacts(db, n);
    JoinedFacts(db, n);
    RegisterRound(CONFIG, Keyed(db, n), KeyCredential(db.next), BODY, 0.0);
    JoinedWaiting(db, n);
    NobodyForms(Joined(db, n));
  }

  // ---- The heartbeat forms one group ----

  lemma ArrivedStarts(db: Db, n: nat)
    requires Constraints(Joined(db, n))
    ensures RoundDb(CONFIG, Joined(db, n), Joining(db, n)[2]) == Some(Arrived(db, n))
  {
    hide Constraints, Beat, PutWorker;
    var joined := Joined(db, n);
    assert WorkerFromKey(joined, KeyCredential(db.next), db.next + 1) == Found(joined, Some(Newcomer(db, n)));
  }

  lemma NewcomerListed(db: Db, w: WorkerId)
    requires Constraints(db) && Advertised(db) && Waiting(db, 0.0) == {w}
    requires w in db.workers && db.workers[w].model == MODEL && db.workers[w].gguf == HASH
    ensures var ws := Waitlist(Rows(db), MODEL, HASH, 0.0);
            ws != [] && MemorySum(ws) >= 1
  {
    hide Rows, Waitlist, MemorySum, Constraints;
    assert w in Waiting(db, 0.0);
    RowsDistinct(db);
    WorkerKey(db, w);
    WaitlistSpec(Rows(db), MODEL, HASH, 0.0);
    var ws := Waitlist(Rows(db), MODEL, HASH, 0.0);
    assert db.workers[w] in ws;
    WaitlistOffers(db, MODEL, HASH, 0.0, 1);
    MemorySumAtLeast(ws, 1);
  }

  lemma WorkerKey(db: Db, w: WorkerId)
    requires Constraints(db) && w in db.workers
    ensures db.workers[w].workerId == w
  {
  }

  lemma ChosenWaiting(db: Db)
    requires Constraints(db)
    ensures Elements(WorkerIds(Chosen(CONFIG, db, MODEL, 0.0))) <= Waiting(db, 0.0)
  {
    hide Chosen, Constraints;
    var chosen := Chosen(CONFIG, db, MODEL, 0.0);
    ChosenSpec(CONFIG, db, MODEL, 0.0);
    forall v | v in WorkerIds(chosen) ensures v in Waiting(db, 0.0) {
      var i :| 0 <= i < |chosen| && WorkerIds(chosen)[i] == v;
      assert chosen[i] in chosen;
    }
  }

  /** The newcomer is chosen, and nobody else: exactly one group is due. */
  lemma NewcomerChosen(db: Db, w: WorkerId)
    requires Constraints(db) && Advertised(db) && Waiting(db, 0.0) == {w}
    requires w in db.workers && db.workers[w].model == MODEL && db.workers[w].gguf == HASH
    ensures |Planned(CONFIG, db, Elements(CONFIG.modelOrder), 0.0)| == 1
    ensures Grouped(Planned(CONFIG, db, Elements(CONFIG.modelOrder), 0.0)) == {w}
  {
    hide Constraints, Advertised, Waiting, Chosen, Planned, Grouped, Rows, Waitlist, MemorySum;
    NewcomerListed(db, w);
    ChosenExact(CONFIG, db, MODEL, 0.0);
    PlannedOne(CONFIG, db, MODEL, 0.0);
    GroupedOne(CONFIG, db, MODEL, 0.0);
    ChosenWaiting(db);
    var ids := WorkerIds(Chosen(CONFIG, db, MODEL, 0.0));
    assert ids[0] in Elements(ids);
    assert Elements(CONFIG.modelOrder) == {MODEL};
  }

  lemma ArrivedRows(db: Db, n: nat)
    requires Advertised(db) && AccountsBelow(db, n)
    ensures Advertised(Arrived(db, n)) && AccountsBelow(Arrived(db, n), n + 1)
    ensures Arrived(db, n).clusters == db.clusters
    ensures var w := db.next + 1;
            && w in Arrived(db, n).workers
            && Arrived(db, n).workers[w].model == MODEL && Arrived(db, n).workers[w].gguf == HASH
  {
    hide Repeated;
    assert FullHash(HASH);
  }

  lemma AdvertsBelow(db: Db, after: Db, n: nat)
    requires SameAdverts(db, after) && AccountsBelow(db, n)
    ensures AccountsBelow(after, n)
  {
  }

  /** The round after the newcomer came up. */
  lemma ArrivedRound(db: Db, start: Db, n: nat, w: WorkerId)
    requires Inv(CONFIG, start) && Constraints(start) && Drawn(start) && Advertised(start)
    requires Waiting(start, 0.0) == {w} && |ActiveClusters(start)| == n
    requires w in start.workers && start.workers[w].model == MODEL && start.workers[w].gguf == HASH
    requires AccountsBelow(start, n + 1)
    ensures var e := CheckAndForm(CONFIG, start, CONFIG.modelOrder, 0.0);
            && (!e.ok <==> n == LAST_THIRD)
            && (e.ok ==> Crowded(e.db, n + 1))
  {
    hide Inv, Constraints, Drawn, Advertised, Waiting, ActiveClusters, CheckAndForm, Planned, Grouped, Took, NewGroups,
         AccountsBelow, SameAdverts, FormingEffect;
    var models := CONFIG.modelOrder;
    var after := CheckAndForm(CONFIG, start, models, 0.0).db;
    NewcomerChosen(start, w);
    AllocationExact(CONFIG, start);
    RoundFailsExactly(CONFIG, start, models, 0.0);
    RoundGroups(CONFIG, start, models, 0.0);
    RoundFacts(CONFIG, start, models, 0.0);
    EffectExtends(start, after, 0.0);
    RoundAdverts(CONFIG, start, models, 0.0);
    SameAdvertsKeep(start, after);
    AdvertsBelow(start, after, n + 1);
    TookShrinks(start, after, Grouped(NewGroups(start, after)), 0.0);
  }

  /** The newcomer's heartbeat fails if and only if 255 clusters are active; otherwise it is grouped, and
      one more cluster is active. */
  lemma HeartbeatApplied(db: Db, n: nat)
    requires Crowded(db, n) && Constraints(Joined(db, n)) && Inv(CONFIG, Joined(db, n))
    ensures var step := Joining(db, n)[2];
            && (Answer(CONFIG, Joined(db, n), step) == Failed <==> n == LAST_THIRD)
            && (n != LAST_THIRD ==> Crowded(Apply(CONFIG, Joined(db, n), step), n + 1))
  {
    hide Inv, Constraints, Drawn, Advertised, Waiting, ActiveClusters, CheckAndForm, AccountsBelow, Joined, Arrived,
         RoundDb, Answer, Apply;
    var step := Joining(db, n)[2];
    ArrivedStarts(db, n);
    RoundSpec(CONFIG, Joined(db, n), step);
    AnswerSpec(CONFIG, Joined(db, n), step);
    JoinedWaiting(db, n);
    ArrivedRows(db, n);
    SameActive(db, Arrived(db, n));
    ArrivedRound(db, Arrived(db, n), n, db.next + 1);
  }

  // ---- The run ----

  lemma ExecutionNext(states: seq<World>, steps: seq<Step>, step: Step) returns (longer: seq<World>)
    requires Execution(CONFIG, states, steps) && Constraints(states[|steps|].db)
    requires Allowed(CONFIG, states[|steps|].db, step)
    requires TimeOf(step).Some? ==> states[|steps|].clock <= TimeOf(step).value
    ensures Execution(CONFIG, longer, steps + [step]) && longer[..|states|] == states
    ensures longer[|states|].db == Apply(CONFIG, states[|steps|].db, step)
    ensures longer[|states|].clock == if TimeOf(step).Some? then TimeOf(step).value else states[|steps|].clock
  {
    hide Constraints, Allowed, Apply, BringsUp;
    var after := Advance(CONFIG, states[|steps|], step);
    longer := states + [after];
    forall i | 0 <= i < |steps + [step]| ensures Next(CONFIG, longer[i], (steps + [step])[i], longer[i + 1]) {
      if i < |steps| {
        assert Next(CONFIG, states[i], steps[i], states[i + 1]);
      }
    }
  }

  /** Creating the key and registering, after any run that ends in a crowded state. */
  lemma JoinRun(states: seq<World>, steps: seq<Step>, n: nat) returns (longer: seq<World>, more: seq<Step>)
    requires Execution(CONFIG, states, steps)
    requires states[|steps|].clock == 0.0 && Crowded(states[|steps|].db, n)
    ensures Execution(CONFIG, longer, more) && longer[|more|].clock == 0.0
    ensures longer[|more|].db == Joined(states[|steps|].db, n)
    ensures Constraints(longer[|more|].db) && Inv(CONFIG, longer[|more|].db)
  {
    hide Constraints, Inv, Crowded, Allowed, Apply, Next, Joined, Keyed;
    var db := states[|steps|].db;
    var join := Joining(db, n);
    CrowdedInv(db, n);
    FirstStepAllowed(db, n);
    KeyedFacts(db, n);
    RegistrationApplied(db, n);
    var first := ExecutionNext(states, steps, join[0]);
    longer := ExecutionNext(first, steps + [join[0]], join[1]);
    more := steps + [join[0]] + [join[1]];
  }

  lemma CrowdedInv(db: Db, n: nat)
    requires Crowded(db, n)
    ensures Inv(CONFIG, db) && Constraints(db)
  {
  }

  lemma FirstStepAllowed(db: Db, n: nat)
    requires Constraints(db)
    ensures Allowed(CONFIG, db, Joining(db, n)[0])
  {
    hide Constraints;
  }

  lemma EmptyCrowded()
    ensures Crowded(EMPTY, 0)
  {
    EmptyHolds(CONFIG);
  }

  /** n devices join, one after the other. */
  lemma {:induction false} CrowdedRun(n: nat) returns (states: seq<World>, steps: seq<Step>)
    requires n <= LAST_THIRD
    ensures Execution(CONFIG, states, steps)
    ensures states[|steps|].clock == 0.0 && Crowded(states[|steps|].db, n)
  {
    hide Crowded, Next, Joined, Constraints, Inv, Apply, BringsUp;
    if n == 0 {
      states, steps := [START], [];
      EmptyCrowded();
    } else {
      states, steps := CrowdedRun(n - 1);
      var db := states[|steps|].db;
      var step := Joining(db, n - 1)[2];
      states, steps := JoinRun(states, steps, n - 1);
      HeartbeatApplied(db, n - 1);
      states := ExecutionNext(states, steps, step);
      steps := steps + [step];
    }
  }

  /** A run whose last step is a heartbeat that fails, for want of a subnet. */
  lemma HeartbeatFailsInRun() returns (states: seq<World>, steps: seq<Step>)
    ensures Execution(CONFIG, states, steps) && steps != [] && steps[|steps| - 1].SendHeartbeat?
    ensures Constraints(states[|steps| - 1].db)
    ensures Answer(CONFIG, states[|steps| - 1].db, steps[|steps| - 1]) == Failed
  {
    hide Crowded, Next, Joined, Constraints, Inv, Apply, BringsUp, Answer;
    states, steps := CrowdedRun(LAST_THIRD);
    var db := states[|steps|].db;
    var step := Joining(db, LAST_THIRD)[2];
    states, steps := JoinRun(states, steps, LAST_THIRD);
    HeartbeatApplied(db, LAST_THIRD);
    var longer := ExecutionNext(states, steps, step);
    assert longer[|steps|] == longer[..|states|][|steps|];
    states, steps := longer, steps + [step];
  }
}
