/** Registering a device again: the one step that can break the agreement between worker rows and
    clusters, and exactly when it does (app.py: register_worker). */
module Reregistration {
  import opened Basics
  import opened Models
  import opened Tables
  import opened Addressing
  import opened Waitlists
  import opened Scheduling
  import opened Invariants
  import opened Handlers
  import opened Transitions
  import opened Steps
  import opened Runs

  // ---- Exactly when ----

  lemma PlacedWorkerOnline(cfg: Settings, db: Db, w: WorkerId)
    requires Inv(cfg, db) && w in db.workers && db.workers[w].clusterId.Some?
    ensures db.workers[w].online
  {
    assert Placed(db, w);
    assert Serves(cfg, db, db.workers[w].clusterId.value, w);
  }

  /** The round of formation that ends the registration leaves the re-advertised row alone. */
  lemma ReadvertisedRow(cfg: Settings, db: Db, cred: Credential, body: RegisterBody, now: Time)
    requires Inv(cfg, db) && Constraints(db) && Reregistered(cfg, db, cred, body, now).Some?
    ensures var prev := Reregistered(cfg, db, cred, body, now).value;
            var after := Register(cfg, db, cred, body, now).db;
            prev.workerId in after.workers && after.workers[prev.workerId] == Readvertise(prev, body)
  {
    EnrollCases(cfg, db, cred, body, now);
    EnrollFacts(cfg, db, cred, body, now);
    EnrollConstraints(cfg, db, cred.key, body, now);
    hide Inv, Constraints, Enroll, Reregistered, CheckAndForm;
    RoundFacts(cfg, Enroll(cfg, db, cred.key, body, now).value, cfg.modelOrder, now);
  }

  /** From every reachable state a re-registration keeps the invariant if and only if the device is
      in no cluster. */
  lemma ReregistrationExactly(cfg: Settings, db: Db, cred: Credential, body: RegisterBody, now: Time)
    requires Inv(cfg, db) && Constraints(db) && Reregistered(cfg, db, cred, body, now).Some?
    ensures Inv(cfg, Register(cfg, db, cred, body, now).db) <==>
            Reregistered(cfg, db, cred, body, now).value.clusterId.None?
  {
    hide Inv, Constraints, Register, Reregistered;
    if Reregistered(cfg, db, cred, body, now).value.clusterId.None? {
      RegisterFacts(cfg, db, cred, body, now);
    } else {
      ReadvertisedRow(cfg, db, cred, body, now);
      var after := Register(cfg, db, cred, body, now).db;
      if Inv(cfg, after) {
        PlacedWorkerOnline(cfg, after, Reregistered(cfg, db, cred, body, now).value.workerId);
      }
    }
  }

  // ---- A run that puts one worker into two clusters ----

  function Repeated(c: char, n: nat): (text: string)
    ensures |text| == n
  {
    seq(n, _ => c)
  }

  const MODEL: Token := 7
  const HASH: Hash := Repeated('a', 64)
  const CONFIG := Settings(map[MODEL := ModelDef(MODEL, HASH, 1)], [MODEL], 30.0, 0.0, 5)
  const BODY := RegisterBody(MODEL, HASH, 1, 11, 12)
  const KEY := KeyCredential(1)

  /** Register, come online, register again while assigned, come online again. */
  const STEPS := [
    CreateKey(0, WorkerScope),
    RegisterWorker(KEY, BODY, 0.0),
    SendHeartbeat(KEY, 2, 1.0),
    RegisterWorker(KEY, BODY, 2.0),
    SendHeartbeat(KEY, 2, 3.0)]

  /** The database has one worker and one key. */
  ghost predicate Solo(db: Db, w: Worker) {
    && Constraints(db) && Drawn(db)
    && w.workerId == 2 && db.scan == [2] && db.workers == map[2 := w]
    && db.keys == map[1 := ApiKey(0, WorkerScope, Some(2))]
  }

  lemma SoloChosen(db: Db, w: Worker, now: Time)
    requires Solo(db, w) && w.model == MODEL && w.gguf == HASH && w.memory == 1
    ensures Rows(db) == [w]
    ensures Chosen(CONFIG, db, MODEL, now) == if Eligible(w, MODEL, HASH, now) then [w] else []
  {
    hide Solo, Constraints, Rows, Eligible, Waitlist, MemorySum;
    SoloConstraints(db, w);
    SoloRows(db, w);
    SoloWaitlist(w, now);
    SoloMemory(w);
    assert [w][..1] == [w];
  }

  lemma SoloRows(db: Db, w: Worker)
    requires Solo(db, w) && Constraints(db)
    ensures Rows(db) == [w]
  {
  }

  lemma SoloMemory(w: Worker)
    ensures MemorySum([w]) == w.memory
  {
    assert [w][..0] == [];
  }

  lemma SoloWaitlist(w: Worker, now: Time)
    ensures Waitlist([w], MODEL, HASH, now) == if Eligible(w, MODEL, HASH, now) then [w] else []
  {
    hide Eligible;
    assert [w][..0] == [];
    assert Keep([w], MODEL, HASH, now) == if Eligible(w, MODEL, HASH, now) then [w] else [];
    assert Insert([], w) == [w];
    assert SortByCreation([w]) == [w];
  }

  /** With at most one cluster active, a subnet is free. */
  lemma SoloSubnet(db: Db, w: Worker)
    requires Solo(db, w) && forall c, d :: Active(db, c) && Active(db, d) ==> c == d
    ensures NextSubnet(db).Some?
  {
    hide Solo, UsedSubnets, FirstFree;
    var referred := OneReferred(db, w);
    var subnet := OneActive(db);
    UsedWithin(db, referred, subnet);
    SubsetCardinality(UsedSubnets(db), {referred, subnet});
    AllocationFailsWhenPoolFull(UsedSubnets(db));
  }

  lemma OneReferred(db: Db, w: Worker) returns (subnet: string)
    requires Solo(db, w)
    ensures ReferencedSubnets(db) <= {subnet}
  {
    hide Refers, Constraints;
    subnet := if Refers(w).Some? then Refers(w).value else "";
  }

  lemma OneActive(db: Db) returns (subnet: string)
    requires forall c, d :: Active(db, c) && Active(db, d) ==> c == d
    ensures ActiveSubnets(db) <= {subnet}
  {
    subnet := "";
    if c :| Active(db, c) {
      subnet := db.clusters[c].subnet;
    }
    forall s | s in ActiveSubnets(db) ensures s == subnet {
      var d :| d in db.clusters && !db.clusters[d].status.Terminated? && db.clusters[d].subnet == s;
      assert Active(db, d);
    }
  }

  lemma UsedWithin(db: Db, referred: string, subnet: string)
    requires ReferencedSubnets(db) <= {referred} && ActiveSubnets(db) <= {subnet}
    ensures UsedSubnets(db) <= {referred, subnet}
  {
    hide ReferencedSubnets, ActiveSubnets;
  }

  /** A round over the one model. */
  lemma SoloRound(db: Db, w: Worker, now: Time) returns (third: nat)
    requires Solo(db, w) && w.model == MODEL && w.gguf == HASH && w.memory == 1
    requires forall c, d :: Active(db, c) && Active(db, d) ==> c == d
    ensures var after := CheckAndForm(CONFIG, db, [MODEL], now).db;
            if Eligible(w, MODEL, HASH, now) then Formed(db, after, MODEL, [w], third, now) else after == db
    ensures Constraints(CheckAndForm(CONFIG, db, [MODEL], now).db) && Drawn(CheckAndForm(CONFIG, db, [MODEL], now).db)
  {
    SoloChosen(db, w, now);
    SoloSubnet(db, w);
    RoundFacts(CONFIG, db, [MODEL], now);
    hide Constraints, Chosen, NextSubnet, Eligible, Solo, FormOn, Formed, UsedSubnets, SubnetText;
    third := 0;
    if Eligible(w, MODEL, HASH, now) {
      third := FormClusterForms(CONFIG, db, MODEL, now);
    }
    assert [MODEL][1..] == [];
  }

  /** The rows that the device's registrations and heartbeats write. */
  const REGISTERED := NewWorker(2, 0, BODY, 0.0)

  const KEYED := Db(map[], [], map[], map[], map[1 := ApiKey(0, WorkerScope, None)], 2)

  const ENROLLED := Db(map[2 := REGISTERED], [2], map[], map[], map[1 := ApiKey(0, WorkerScope, Some(2))], 3)

  lemma FirstEnroll()
    ensures Constraints(KEYED) && Enroll(CONFIG, KEYED, 1, BODY, 0.0) == Some(ENROLLED)
    ensures Solo(ENROLLED, REGISTERED)
  {
    var drawn := KEYED.(next := 3);
    assert Rows(drawn) == [];
    assert CanCreate(drawn, REGISTERED, 5);
    hide CanCreate;
    assert InsertWorker(drawn, REGISTERED) == Db(map[2 := REGISTERED], [2], map[], map[], KEYED.keys, 3);
    assert BindKey(InsertWorker(drawn, REGISTERED), 1, 2) == ENROLLED;
    hide InsertWorker, BindKey;
    assert Elements([2]) == {2};
  }

  lemma FirstKey()
    ensures Constraints(EMPTY) && Apply(CONFIG, EMPTY, STEPS[0]) == KEYED
  {
    assert Constraints(EMPTY);
  }

  lemma FirstRegistration()
    ensures Constraints(KEYED) && Apply(CONFIG, KEYED, STEPS[1]) == ENROLLED
  {
    FirstEnroll();
    hide Enroll, Constraints, CheckAndForm, Solo;
    var third := SoloRound(ENROLLED, REGISTERED, 0.0);
  }

  lemma SoloTaken(db: Db, w: Worker, id: WorkerId, now: Time)
    requires Solo(db, w) && w.accountId == 0 && w.wgPubkey == BODY.wgPubkey && !w.status.Registered?
    ensures !CanCreate(db, NewWorker(id, 0, BODY, now), 5)
    ensures Returning(CONFIG, db, 0, BODY) == Some(w)
  {
    assert Rows(db) == [w];
    hide Rows, Constraints;
    assert OfAccount([w], 0) == [w] by { assert [w][1..] == []; }
    assert [w][0].wgPubkey == BODY.wgPubkey;
    assert FirstDevice([w], BODY.wgPubkey) == Some(w);
    hide OfAccount, FirstDevice;
  }

  /** A device past registration registers again. */
  lemma SoloReenrolls(db: Db, w: Worker, now: Time)
    requires Solo(db, w) && w.accountId == 0 && w.wgPubkey == BODY.wgPubkey && !w.status.Registered?
    ensures var enrolled := db.(workers := map[2 := Readvertise(w, BODY)], next := db.next + 1);
            Enroll(CONFIG, db, 1, BODY, now) == Some(enrolled) && Solo(enrolled, Readvertise(w, BODY))
  {
    var drawn := db.(next := db.next + 1);
    SoloReadvertised(db, w);
    SoloTaken(drawn, w, db.next, now);
    SoloRewritten(db, w);
    hide CanCreate, Returning, Constraints, Drawn, PutWorker, BindKey, InsertWorker, Readvertise, NewWorker;
  }

  lemma SoloRewritten(db: Db, w: Worker)
    requires Solo(db, w)
    ensures BindKey(PutWorker(db.(next := db.next + 1), Readvertise(w, BODY)), 1, 2) ==
            db.(workers := map[2 := Readvertise(w, BODY)], next := db.next + 1)
  {
    hide Constraints, Drawn;
    var enrolled := db.(workers := map[2 := Readvertise(w, BODY)], next := db.next + 1);
    assert PutWorker(db.(next := db.next + 1), Readvertise(w, BODY)) == enrolled;
    assert BindKey(enrolled, 1, 2) == enrolled;
  }

  lemma SoloReadvertised(db: Db, w: Worker)
    requires Solo(db, w)
    ensures Solo(db.(next := db.next + 1), w)
    ensures Solo(db.(workers := map[2 := Readvertise(w, BODY)], next := db.next + 1), Readvertise(w, BODY))
  {
  }

  lemma SoloBeats(db: Db, w: Worker, now: Time)
    requires Solo(db, w) && w.accountId == 0
    ensures var beaten := db.(workers := map[2 := Beat(CONFIG, w, now)]);
            && Solo(beaten, Beat(CONFIG, w, now))
            && Heartbeat(CONFIG, db, KEY, 2, now) == Finish(CONFIG, beaten, now)
  {
    var beaten := db.(workers := map[2 := Beat(CONFIG, w, now)]);
    assert PutWorker(db, Beat(CONFIG, w, now)) == beaten;
    assert WorkerFromKey(db, KEY, 2) == Found(db, Some(w));
    hide Finish, Constraints;
  }

  /** The membership rows of a cluster of this one worker, as formed. */
  function SoloRing(third: nat): Ring {
    map[2 := MemberRow(0, Some(HostText(third, 1)), false, None)]
  }

  lemma SoloFormed(db: Db, after: Db, w: Worker, third: nat, now: Time)
    requires Solo(db, w) && Formed(db, after, MODEL, [w], third, now) && Constraints(after) && Drawn(after)
    ensures Solo(after, Assign(w, db.next, HostText(third, 1), 0))
    ensures after.next == db.next + 1 && Active(after, db.next)
    ensures db.next in after.rings && after.rings[db.next] == SoloRing(third)
    ensures forall c :: c != db.next ==> (Active(after, c) <==> Active(db, c))
    ensures forall c :: c != db.next && c in db.rings ==> c in after.rings && after.rings[c] == db.rings[c]
  {
    hide Constraints, HostText, SubnetText;
    assert [w][0] == w;
    assert after.workers.Keys == {2};
    assert WorkerIds([w]) == [2] && 2 in Elements(WorkerIds([w]));
    assert after.rings[db.next].Keys == {2};
    assert after.rings[db.next] == SoloRing(third);
    assert after.workers == map[2 := Assign(w, db.next, HostText(third, 1), 0)];
  }

  /** The device comes online and is grouped at once. */
  lemma SoloBeatForms(db: Db, w: Worker, now: Time) returns (third: nat)
    requires Solo(db, w) && w.accountId == 0 && w.model == MODEL && w.gguf == HASH && w.memory == 1
    requires !w.online && w.status.Waitlisted?
    requires forall c, d :: Active(db, c) && Active(db, d) ==> c == d
    ensures var after := Heartbeat(CONFIG, db, KEY, 2, now).db;
            && Solo(after, Assign(Beat(CONFIG, w, now), db.next, HostText(third, 1), 0))
            && after.next == db.next + 1 && Active(after, db.next)
            && db.next in after.rings && after.rings[db.next] == SoloRing(third)
            && (forall c :: c != db.next ==> (Active(after, c) <==> Active(db, c)))
            && (forall c :: c != db.next && c in db.rings ==> c in after.rings && after.rings[c] == db.rings[c])
  {
    SoloBeats(db, w, now);
    var beaten := db.(workers := map[2 := Beat(CONFIG, w, now)]);
    assert forall c :: Active(beaten, c) <==> Active(db, c);
    hide Constraints, CheckAndForm, Solo, Formed, HostText, Heartbeat;
    third := SoloRound(beaten, Beat(CONFIG, w, now), now);
    SoloFormed(beaten, CheckAndForm(CONFIG, beaten, [MODEL], now).db, Beat(CONFIG, w, now), third, now);
  }

  /** The device registers again; it is offline, so nothing forms. */
  lemma SoloReregisters(db: Db, w: Worker, now: Time)
    requires Solo(db, w) && w.accountId == 0 && w.wgPubkey == BODY.wgPubkey && w.status.Assigned?
    requires forall c, d :: Active(db, c) && Active(db, d) ==> c == d
    ensures var enrolled := db.(workers := map[2 := Readvertise(w, BODY)], next := db.next + 1);
            Register(CONFIG, db, KEY, BODY, now).db == enrolled && Solo(enrolled, Readvertise(w, BODY))
  {
    SoloReenrolls(db, w, now);
    var enrolled := db.(workers := map[2 := Readvertise(w, BODY)], next := db.next + 1);
    assert forall c :: Active(enrolled, c) <==> Active(db, c);
    hide Constraints, CheckAndForm, Enroll, Formed;
    var third := SoloRound(enrolled, Readvertise(w, BODY), now);
  }

  lemma FirstBeat() returns (third: nat)
    ensures Constraints(ENROLLED)
    ensures var db := Heartbeat(CONFIG, ENROLLED, KEY, 2, 1.0).db;
            Constraints(db) && Active(db, 3) && 3 in db.rings && db.rings[3] == SoloRing(third)
  {
    FirstEnroll();
    hide Constraints, Heartbeat, Solo, HostText, Enroll;
    SoloConstraints(ENROLLED, REGISTERED);
    third := SoloBeatForms(ENROLLED, REGISTERED, 1.0);
    SoloConstraints(Heartbeat(CONFIG, ENROLLED, KEY, 2, 1.0).db,
                    Assign(Beat(CONFIG, REGISTERED, 1.0), 3, HostText(third, 1), 0));
  }

  lemma BeatApplied()
    requires Constraints(ENROLLED)
    ensures Apply(CONFIG, ENROLLED, STEPS[2]) == Heartbeat(CONFIG, ENROLLED, KEY, 2, 1.0).db
  {
    hide Heartbeat, Constraints;
  }

  /** The first three steps, which are a run: the device is grouped, alone and not yet ready. */
  lemma DeviceGrouped() returns (worlds: seq<World>, third: nat)
    ensures Execution(CONFIG, worlds, STEPS[..3])
    ensures var db := worlds[3].db;
            Constraints(db) && Active(db, 3) && 3 in db.rings && db.rings[3] == SoloRing(third)
  {
    FirstKey();
    FirstRegistration();
    FirstAllowed();
    hide Constraints, Allowed, BringsUp, Apply, HostText;
    hide Heartbeat;
    third := FirstBeat();
    BeatApplied();
    var keyed := Advance(CONFIG, START, STEPS[0]);
    var enrolled := Advance(CONFIG, keyed, STEPS[1]);
    worlds := [START, keyed, enrolled, Advance(CONFIG, enrolled, STEPS[2])];
    assert Next(CONFIG, worlds[0], STEPS[0], worlds[1]);
    assert Next(CONFIG, worlds[1], STEPS[1], worlds[2]);
    assert Next(CONFIG, worlds[2], STEPS[2], worlds[3]);
    hide Next;
    assert STEPS[..3] == [STEPS[0], STEPS[1], STEPS[2]];
  }

  /** None of them re-advertises a device. */
  lemma FirstAllowed()
    ensures Constraints(EMPTY) && Allowed(CONFIG, EMPTY, STEPS[0])
    ensures Constraints(KEYED) && Allowed(CONFIG, KEYED, STEPS[1])
    ensures Constraints(ENROLLED) && Allowed(CONFIG, ENROLLED, STEPS[2])
  {
    hide Constraints, Solo, Enroll, Reregistered;
    FirstKey();
    FirstEnroll();
    SoloConstraints(ENROLLED, REGISTERED);
    FirstIsNew();
  }

  lemma FirstIsNew()
    requires Constraints(KEYED)
    ensures Reregistered(CONFIG, KEYED, KEY, BODY, 0.0).None?
  {
    assert Rows(KEYED.(next := 3)) == [];
    assert CanCreate(KEYED.(next := 3), REGISTERED, 5);
    hide CanCreate, Returning, Constraints, Admissible;
  }

  /** Without the restriction the run ends with worker 2 in two active clusters. */
  lemma DeviceInTwoClusters() returns (dbs: seq<Db>)
    ensures |dbs| == |STEPS| + 1 && dbs[0] == EMPTY
    ensures forall i :: 0 <= i < |STEPS| ==> Constraints(dbs[i]) && dbs[i + 1] == Apply(CONFIG, dbs[i], STEPS[i])
    ensures var last := dbs[|STEPS|];
            && Active(last, 3) && Active(last, 5)
            && 3 in last.rings && 5 in last.rings && 2 in last.rings[3] && 2 in last.rings[5]
  {
    FirstKey();
    FirstRegistration();
    FirstEnroll();
    hide Constraints, Heartbeat, Register, Solo, HostText, Enroll;
    assert Constraints(ENROLLED) by { SoloConstraints(ENROLLED, REGISTERED); }
    var ip := SoloBeatForms(ENROLLED, REGISTERED, 1.0);
    var formed := Heartbeat(CONFIG, ENROLLED, KEY, 2, 1.0).db;
    var placed := Assign(Beat(CONFIG, REGISTERED, 1.0), 3, HostText(ip, 1), 0);
    assert Constraints(formed) by { SoloConstraints(formed, placed); }
    SoloReregisters(formed, placed, 2.0);
    var again := Register(CONFIG, formed, KEY, BODY, 2.0).db;
    assert Constraints(again) by { SoloConstraints(again, Readvertise(placed, BODY)); }
    assert forall c :: Active(again, c) <==> Active(formed, c);
    var _ := SoloBeatForms(again, Readvertise(placed, BODY), 3.0);
    dbs := [EMPTY, KEYED, ENROLLED, formed, again, Heartbeat(CONFIG, again, KEY, 2, 3.0).db];
  }

  lemma SoloConstraints(db: Db, w: Worker)
    requires Solo(db, w)
    ensures Constraints(db)
  {
  }
}
