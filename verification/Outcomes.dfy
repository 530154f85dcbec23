/** What requests and the sweep leave behind, row by row and field by field: who may speak for a worker,
    what a heartbeat records, whom a departure puts back on the waitlist (app.py, liveness.py). */
module Outcomes {
  import opened Basics
  import opened Models
  import opened Tables
  import opened Addressing
  import opened Waitlists
  import opened Scheduling
  import opened Invariants
  import opened Liveness
  import opened Handlers
  import opened Transitions
  import opened Steps
  import opened Runs

  // ---- Credentials ----

  /** The credential stands for the account: a worker-scoped key of the account, or its session. */
  predicate ActsFor(db: Db, cred: Credential, a: AccountId) {
    match cred
    case KeyCredential(k) => k in db.keys && db.keys[k].scope == WorkerScope && db.keys[k].accountId == a
    case SessionCredential(b) => b == a
    case NoCredential => false
  }

  predicate Owns(db: Db, cred: Credential, w: WorkerId) {
    w in db.workers && ActsFor(db, cred, db.workers[w].accountId)
  }

  /** The keys after the caller's key, if it is one, was bound to w. */
  function BoundKeys(db: Db, cred: Credential, w: WorkerId): map<KeyId, ApiKey> {
    if cred.KeyCredential? && cred.key in db.keys
    then db.keys[cred.key := db.keys[cred.key].(workerId := Some(w))]
    else db.keys
  }

  /** A worker is returned if and only if the credential stands for the account that owns it; a key is
      then bound to it, and nothing else changes. */
  lemma WorkerFromKeyExactly(db: Db, cred: Credential, w: WorkerId)
    ensures WorkerFromKey(db, cred, w) ==
            if Owns(db, cred, w) then Found(db.(keys := BoundKeys(db, cred, w)), Some(db.workers[w]))
            else Found(db, None)
  {
    assert cred.KeyCredential? && Owns(db, cred, w) && db.keys[cred.key].workerId == Some(w) ==>
             BoundKeys(db, cred, w) == db.keys;
  }

  /** The account's workers in the cluster. */
  function Candidates(db: Db, a: AccountId, c: ClusterId): set<WorkerId> {
    set w | w in db.workers && db.workers[w].accountId == a && db.workers[w].clusterId == Some(c)
  }

  /** The worker that the caller's key is bound to is in the cluster. */
  predicate BoundInside(db: Db, cred: Credential, c: ClusterId) {
    && cred.KeyCredential? && cred.key in db.keys && db.keys[cred.key].workerId.Some?
    && db.keys[cred.key].workerId.value in db.workers
    && db.workers[db.keys[cred.key].workerId.value].clusterId == Some(c)
  }

  lemma {:induction false} MembersOfCount(rows: seq<Worker>, a: AccountId, c: ClusterId)
    requires Distinct(WorkerIds(rows))
    ensures Distinct(WorkerIds(MembersOf(rows, a, c)))
  {
    if rows != [] {
      var rest := rows[1..];
      forall i, j | 0 <= i < j < |rest| ensures WorkerIds(rest)[i] != WorkerIds(rest)[j] {
        assert WorkerIds(rows)[i + 1] != WorkerIds(rows)[j + 1];
      }
      MembersOfCount(rest, a, c);
      MembersOfSpec(rest, a, c);
      var found := MembersOf(rest, a, c);
      forall i | 0 <= i < |found| ensures found[i].workerId != rows[0].workerId {
        assert found[i] in rest;
        var j :| 0 <= j < |rest| && rest[j] == found[i];
        assert WorkerIds(rows)[0] != WorkerIds(rows)[j + 1];
      }
    }
  }

  lemma MatchesAreCandidates(db: Db, a: AccountId, c: ClusterId)
    requires Constraints(db)
    ensures Elements(WorkerIds(MembersOf(Rows(db), a, c))) == Candidates(db, a, c)
    ensures |MembersOf(Rows(db), a, c)| == |Candidates(db, a, c)|
  {
    hide Rows, MembersOf;
    RowsDistinct(db);
    MembersOfSpec(Rows(db), a, c);
    MembersOfCount(Rows(db), a, c);
    var found := MembersOf(Rows(db), a, c);
    forall w ensures w in WorkerIds(found) <==> w in Candidates(db, a, c) {
      if w in WorkerIds(found) {
        var i :| 0 <= i < |found| && WorkerIds(found)[i] == w;
        assert found[i] in found;
      }
      if w in Candidates(db, a, c) {
        assert db.workers[w].workerId == w && db.workers[w] in found;
        var i :| 0 <= i < |found| && found[i] == db.workers[w];
        assert WorkerIds(found)[i] == w;
      }
    }
    DistinctCardinality(WorkerIds(found));
  }

  /** Whom a cluster-scoped call speaks for: the key's own worker if it is in the cluster; otherwise the
      only worker of the caller's account there, and then the key is bound to it; otherwise nobody. */
  lemma BoundWorkerExactly(db: Db, cred: Credential, c: ClusterId, a: AccountId)
    requires Constraints(db) && ActsFor(db, cred, a)
    ensures var found := BoundWorker(db, cred, c);
            if BoundInside(db, cred, c) then found == Found(db, Some(db.workers[db.keys[cred.key].workerId.value]))
            else if |Candidates(db, a, c)| == 1
            then && found.worker.Some? && Candidates(db, a, c) == {found.worker.value.workerId}
                 && found.worker == Some(db.workers[found.worker.value.workerId])
                 && found.db == db.(keys := BoundKeys(db, cred, found.worker.value.workerId))
            else found == Found(db, None)
  {
    MatchesAreCandidates(db, a, c);
    if |Candidates(db, a, c)| == 1 {
      OnlyMember(db, a, c);
      var found := MembersOf(Rows(db), a, c);
      assert WorkerIds(found) == [found[0].workerId];
    }
    hide Rows, MembersOf, Constraints;
  }

  /** A user key, an unknown key and no credential at all stand for no account and are not heard. */
  lemma StrangerUnheard(db: Db, cred: Credential, c: ClusterId)
    requires Constraints(db) && !cred.SessionCredential?
    requires cred.KeyCredential? && cred.key in db.keys ==> db.keys[cred.key].scope != WorkerScope
    ensures BoundWorker(db, cred, c) == Found(db, None)
  {
  }

  // ---- What a round of formation leaves alone ----

  /** The rows differ at most in their place. */
  predicate SameButPlace(before: Worker, after: Worker) {
    after == before.(status := after.status, clusterId := after.clusterId, assignedIp := after.assignedIp,
                     ringPosition := after.ringPosition)
  }

  ghost predicate PlacesOnly(db: Db, after: Db) {
    && after.workers.Keys == db.workers.Keys && after.keys == db.keys && after.next >= db.next
    && forall w :: w in db.workers ==> SameButPlace(db.workers[w], after.workers[w])
  }

  lemma PlacesChain(a: Db, b: Db, c: Db)
    requires PlacesOnly(a, b) && PlacesOnly(b, c)
    ensures PlacesOnly(a, c)
  {
  }

  lemma FormedPlaces(db: Db, after: Db, model: Token, chosen: seq<Worker>, third: nat, now: Time)
    requires Formed(db, after, model, chosen, third, now)
    requires forall w :: w in chosen ==> w.workerId in db.workers && db.workers[w.workerId] == w
    ensures PlacesOnly(db, after)
  {
    hide FormedRing, HostText, SubnetText;
    forall w | w in db.workers ensures SameButPlace(db.workers[w], after.workers[w]) {
      if w in WorkerIds(chosen) {
        var i :| 0 <= i < |chosen| && WorkerIds(chosen)[i] == w;
        assert chosen[i] in chosen && chosen[i].workerId == w;
      }
    }
  }

  lemma FormPlaces(cfg: Settings, db: Db, model: Token, now: Time)
    requires Constraints(db) && Drawn(db)
    ensures PlacesOnly(db, FormCluster(cfg, db, model, now).db)
  {
    hide Chosen, Formed, NextSubnet, UsedSubnets, Constraints, FormOn;
    if Chosen(cfg, db, model, now) != [] && NextSubnet(db).Some? {
      hide PlacesOnly;
      var third := FormClusterForms(cfg, db, model, now);
      ChosenSpec(cfg, db, model, now);
      FormedPlaces(db, FormCluster(cfg, db, model, now).db, model, Chosen(cfg, db, model, now), third, now);
    }
  }

  /** A round changes nothing of a worker but its place. */
  lemma {:induction false} RoundPlaces(cfg: Settings, db: Db, models: seq<Token>, now: Time)
    requires Constraints(db) && Drawn(db)
    ensures PlacesOnly(db, CheckAndForm(cfg, db, models, now).db)
    decreases |models|
  {
    if models != [] {
      hide FormCluster, Constraints, PlacesOnly, FormingEffect;
      FormPlaces(cfg, db, models[0], now);
      FormFacts(cfg, db, models[0], now);
      var first := FormCluster(cfg, db, models[0], now);
      if first.ok {
        EffectIsDrawn(db, first.db, now);
        RoundPlaces(cfg, first.db, models[1..], now);
        PlacesChain(db, first.db, CheckAndForm(cfg, first.db, models[1..], now).db);
      }
    }
  }

  lemma EffectIsDrawn(db: Db, after: Db, now: Time)
    requires FormingEffect(db, after, now)
    ensures Drawn(after)
  {
  }

  // ---- Heartbeat ----

  /** The row of a worker after its heartbeat at `now`, its place aside. */
  predicate Heard(cfg: Settings, before: Worker, after: Worker, now: Time) {
    && after.online && after.lastHeartbeat == now
    && after.assignableAt == (if before.online then before.assignableAt else now + cfg.assignableGrace)
    && SameButPlace(before.(online := true, lastHeartbeat := now, assignableAt := after.assignableAt), after)
  }

  lemma OwnedBound(cfg: Settings, db: Db, cred: Credential, w: WorkerId)
    requires Inv(cfg, db) && Owns(db, cred, w)
    ensures Inv(cfg, db.(keys := BoundKeys(db, cred, w)))
    ensures db.workers[w].workerId == w
  {
    hide Inv, WorkerFromKey;
    WorkerFromKeyExactly(db, cred, w);
    WorkerFromKeyFacts(cfg, db, cred, w);
  }

  /** A heartbeat is denied, and then changes nothing, unless the caller owns the worker. Otherwise it is
      recorded: the row is online with this heartbeat, and nobody else's row changes but for its place. */
  lemma HeartbeatExactly(cfg: Settings, db: Db, cred: Credential, w: WorkerId, now: Time)
    requires Inv(cfg, db) && Constraints(db)
    ensures !Owns(db, cred, w) ==> Heartbeat(cfg, db, cred, w, now) == Outcome(db, Denied)
    ensures Owns(db, cred, w) ==>
              var e := Heartbeat(cfg, db, cred, w, now);
              && e.reply != Denied && Inv(cfg, e.db)
              && e.db.keys == BoundKeys(db, cred, w) && e.db.workers.Keys == db.workers.Keys
              && e.db.next >= db.next
              && Heard(cfg, db.workers[w], e.db.workers[w], now)
              && forall v :: v in db.workers && v != w ==> SameButPlace(db.workers[v], e.db.workers[v])
  {
    hide Inv, Constraints, WorkerFromKey, CheckAndForm, Preserves, SameLife, PlacesOnly, Beat, PutWorker;
    WorkerFromKeyExactly(db, cred, w);
    if Owns(db, cred, w) {
      OwnedBound(cfg, db, cred, w);
      var found := db.(keys := BoundKeys(db, cred, w));
      BeatKeeps(cfg, found, w, now);
      var beaten := PutWorker(found, Beat(cfg, db.workers[w], now));
      InvConstraints(cfg, beaten);
      RoundPlaces(cfg, beaten, cfg.modelOrder, now);
      RoundFacts(cfg, beaten, cfg.modelOrder, now);
      HeardRows(cfg, found, w, now, CheckAndForm(cfg, beaten, cfg.modelOrder, now).db);
    }
  }

  lemma HeardRows(cfg: Settings, db: Db, w: WorkerId, now: Time, after: Db)
    requires w in db.workers && db.workers[w].workerId == w
    requires PlacesOnly(PutWorker(db, Beat(cfg, db.workers[w], now)), after)
    ensures after.keys == db.keys && after.workers.Keys == db.workers.Keys && after.next >= db.next
    ensures Heard(cfg, db.workers[w], after.workers[w], now)
    ensures forall v :: v in db.workers && v != w ==> SameButPlace(db.workers[v], after.workers[v])
  {
  }

  // ---- Back on the waitlist ----

  /** The worker waits again, with everything it had advertised and with its life signs. */
  predicate BackOnWaitlist(before: Worker, after: Worker) {
    && after.status == Waitlisted
    && after.clusterId.None? && after.assignedIp.None? && after.ringPosition.None?
    && SameButPlace(before.(online := after.online), after)
  }

  /** The cluster is terminated and otherwise as it was. */
  predicate Ended(before: ClusterRow, after: ClusterRow) {
    after == before.(status := Terminated)
  }

  /** A worker that waits is in its model's waitlist as soon as it is online and its grace is over. */
  lemma WaitsAgain(db: Db, w: WorkerId, t: Time)
    requires Constraints(db) && w in db.workers && db.workers[w].status == Waitlisted
    ensures var row := db.workers[w];
            row in Waitlist(Rows(db), row.model, row.gguf, t) <==> row.online && row.assignableAt <= t
  {
    RowsDistinct(db);
    WaitlistSpec(Rows(db), db.workers[w].model, db.workers[w].gguf, t);
  }

  predicate Silent(w: Worker, now: Time, timeout: Time) {
    w.online && w.lastHeartbeat < now - timeout
  }

  /** Some member of the cluster is silent. */
  ghost predicate Shaken(db: Db, c: ClusterId, now: Time, timeout: Time) {
    exists w :: w in db.workers && Silent(db.workers[w], now, timeout) && db.workers[w].clusterId == Some(c)
  }

  /** The sweep takes exactly the silent workers offline. A cluster with a silent member ends, and all of its
      members are back on the waitlist; every other cluster and every other worker's place is as before. */
  lemma SweepExactly(cfg: Settings, db: Db, now: Time, timeout: Time)
    requires Inv(cfg, db) && Constraints(db)
    ensures var after := Sweep(db, now, timeout);
            && after.workers.Keys == db.workers.Keys && after.clusters.Keys == db.clusters.Keys
            && after.rings == db.rings && after.keys == db.keys && after.next == db.next
            && (forall w :: w in db.workers ==>
                  after.workers[w].online == (db.workers[w].online && !Silent(db.workers[w], now, timeout)))
            && (forall w :: w in db.workers ==>
                  if db.workers[w].clusterId.Some? && Shaken(db, db.workers[w].clusterId.value, now, timeout)
                  then BackOnWaitlist(db.workers[w], after.workers[w])
                  else after.workers[w] == db.workers[w].(online := after.workers[w].online))
            && (forall c :: c in db.clusters ==>
                  if Shaken(db, c, now, timeout) then Ended(db.clusters[c], after.clusters[c])
                  else after.clusters[c] == db.clusters[c])
  {
    SweepIsSimple(cfg, db, now, timeout);
    hide Inv, Constraints, Sweep;
    var dead := Dead(db, now, timeout);
    BrokenAreShaken(db, now, timeout);
    RetiredRows(db, dead, Broken(db, dead));
  }

  lemma BrokenAreShaken(db: Db, now: Time, timeout: Time)
    ensures forall w :: w in Dead(db, now, timeout) <==> w in db.workers && Silent(db.workers[w], now, timeout)
    ensures forall c :: c in Broken(db, Dead(db, now, timeout)) <==> Shaken(db, c, now, timeout)
  {
  }

  lemma RetiredRows(db: Db, dead: set<WorkerId>, broken: set<ClusterId>)
    requires forall w :: w in db.workers ==> db.workers[w].workerId == w
    ensures var after := Retire(db, dead, broken);
            && after.workers.Keys == db.workers.Keys && after.clusters.Keys == db.clusters.Keys
            && after.rings == db.rings && after.keys == db.keys && after.next == db.next
            && (forall w :: w in db.workers ==> after.workers[w].online == (db.workers[w].online && w !in dead))
            && (forall w :: w in db.workers ==>
                  if db.workers[w].clusterId.Some? && db.workers[w].clusterId.value in broken
                  then BackOnWaitlist(db.workers[w], after.workers[w])
                  else after.workers[w] == db.workers[w].(online := after.workers[w].online))
            && (forall c :: c in db.clusters ==>
                  if c in broken then Ended(db.clusters[c], after.clusters[c])
                  else after.clusters[c] == db.clusters[c])
  {
  }

  // ---- Leaving ----

  /** The worker is a member of the same cluster as w, and not w. */
  predicate Partner(db: Db, v: WorkerId, w: WorkerId) {
    && v in db.workers && w in db.workers && v != w
    && db.workers[w].clusterId.Some? && db.workers[v].clusterId == db.workers[w].clusterId
  }

  /** Revoking is denied, and then changes nothing, unless the caller owns the worker. Otherwise the row is
      gone, its cluster has ended with all other members back on the waitlist, online as they were, and
      everything else is as before. */
  lemma RevokeExactly(cfg: Settings, db: Db, cred: Credential, w: WorkerId)
    requires Inv(cfg, db) && Constraints(db)
    ensures !Owns(db, cred, w) ==> Revoke(db, cred, w) == Outcome(db, Denied)
    ensures Owns(db, cred, w) ==>
              var e := Revoke(db, cred, w);
              && e.reply == Ok && e.db.workers.Keys == db.workers.Keys - {w}
              && e.db.clusters.Keys == db.clusters.Keys && e.db.rings == db.rings && e.db.next == db.next
              && (forall v :: v in e.db.workers && Partner(db, v, w) ==>
                    BackOnWaitlist(db.workers[v], e.db.workers[v]) && e.db.workers[v].online == db.workers[v].online)
              && (forall v :: v in e.db.workers && !Partner(db, v, w) ==> e.db.workers[v] == db.workers[v])
              && (forall c :: c in db.clusters ==>
                    if db.workers[w].clusterId == Some(c) then Ended(db.clusters[c], e.db.clusters[c])
                    else e.db.clusters[c] == db.clusters[c])
              && e.db.keys.Keys == db.keys.Keys
              && (forall k :: k in db.keys ==>
                    var key := BoundKeys(db, cred, w)[k];
                    e.db.keys[k] == if key.workerId == Some(w) then key.(workerId := None) else key)
  {
    hide Inv, Constraints, WorkerFromKey, WorkerGone, DropWorker;
    WorkerFromKeyExactly(db, cred, w);
    if Owns(db, cred, w) {
      OwnedBound(cfg, db, cred, w);
      var found := db.(keys := BoundKeys(db, cred, w));
      InvConstraints(cfg, found);
      LeavingRows(cfg, found, w);
      DroppedRows(WorkerGone(found, found.workers[w]).db, w);
    }
  }

  lemma DroppedRows(db: Db, w: WorkerId)
    ensures DropWorker(db, w) == db.(workers := db.workers - {w}, scan := DropWorker(db, w).scan,
                                     keys := DropWorker(db, w).keys)
    ensures DropWorker(db, w).keys.Keys == db.keys.Keys
    ensures forall k :: k in db.keys ==>
              DropWorker(db, w).keys[k] ==
              if db.keys[k].workerId == Some(w) then db.keys[k].(workerId := None) else db.keys[k]
  {
  }

  lemma LeavingRows(cfg: Settings, db: Db, w: WorkerId)
    requires Inv(cfg, db) && Constraints(db) && w in db.workers
    ensures WorkerGone(db, db.workers[w]).ok
    ensures var after := WorkerGone(db, db.workers[w]).db;
            && after.workers.Keys == db.workers.Keys && after.clusters.Keys == db.clusters.Keys
            && after.rings == db.rings && after.next == db.next && after.keys == db.keys
            && (forall v :: v in db.workers && Partner(db, v, w) ==>
                  BackOnWaitlist(db.workers[v], after.workers[v]) && after.workers[v].online == db.workers[v].online)
            && (forall v :: v in db.workers && v != w && !Partner(db, v, w) ==> after.workers[v] == db.workers[v])
            && (forall c :: c in db.clusters ==>
                  if db.workers[w].clusterId == Some(c) then Ended(db.clusters[c], after.clusters[c])
                  else after.clusters[c] == db.clusters[c])
  {
    hide Inv, Constraints, WorkerGone, Retire, BackOnWaitlist, Ended;
    PlacedInside(cfg, db, w);
    GoneIsRetired(cfg, db, w);
    if db.workers[w].clusterId.Some? {
      RetiredRows(db, {}, {db.workers[w].clusterId.value});
    }
  }

  lemma GoneIsRetired(cfg: Settings, db: Db, w: WorkerId)
    requires Inv(cfg, db) && Constraints(db) && w in db.workers
    ensures WorkerGone(db, db.workers[w]) ==
            match db.workers[w].clusterId
            case None => Effect(db, true)
            case Some(c) => Effect(Retire(db, {}, {c}), true)
  {
    hide Inv, Constraints, Dissolve, Dissolved, Retire;
    PlacedInside(cfg, db, w);
    if db.workers[w].clusterId.Some? {
      DissolvedIsRetired(cfg, db, db.workers[w].clusterId.value);
    }
  }

  lemma PlacedInside(cfg: Settings, db: Db, w: WorkerId)
    requires Inv(cfg, db) && w in db.workers
    ensures forall v :: v in db.workers ==> db.workers[v].workerId == v
    ensures db.workers[w].clusterId.Some? ==> Active(db, db.workers[w].clusterId.value)
  {
    assert Placed(db, w);
  }

  // ---- Life signs over runs ----

  /** At step j a heartbeat of w is accepted. */
  ghost predicate HeardAt(states: seq<World>, steps: seq<Step>, j: nat, w: WorkerId)
    requires j < |steps| < |states|
  {
    steps[j].SendHeartbeat? && steps[j].worker == w && Owns(states[j].db, steps[j].cred, w)
  }

  /** The time of the newest one is what an observer remembers. */
  ghost predicate LastHeard(states: seq<World>, steps: seq<Step>, i: nat, w: WorkerId)
    requires i <= |steps| < |states|
  {
    && w in states[i].heard
    && exists j: nat :: j < i && HeardAt(states, steps, j, w) && states[i].heard[w] == steps[j].now &&
                        forall k: nat :: j < k < i ==> !HeardAt(states, steps, k, w)
  }

  ghost predicate EverHeard(states: seq<World>, steps: seq<Step>, i: nat, w: WorkerId)
    requires i <= |steps| < |states|
  {
    exists j: nat :: j < i && HeardAt(states, steps, j, w)
  }

  lemma {:induction false} HeardIsLast(cfg: Settings, states: seq<World>, steps: seq<Step>, i: nat, w: WorkerId)
    requires Execution(cfg, states, steps) && i <= |steps|
    ensures w in states[i].heard <==> EverHeard(states, steps, i, w)
    ensures w in states[i].heard ==> LastHeard(states, steps, i, w)
  {
    hide Apply, Allowed, Constraints, BringsUp, Owns, WorkerFromKey;
    if i > 0 {
      HeardIsLast(cfg, states, steps, i - 1, w);
      assert Next(cfg, states[i - 1], steps[i - 1], states[i]);
      HeardStep(states, steps, i - 1, w);
      if w in states[i].heard && !HeardAt(states, steps, i - 1, w) {
        var j: nat :| j < i - 1 && HeardAt(states, steps, j, w) && states[i - 1].heard[w] == steps[j].now &&
                      forall k: nat :: j < k < i - 1 ==> !HeardAt(states, steps, k, w);
        assert HeardAt(states, steps, j, w);
      }
    }
  }

  lemma HeardStep(states: seq<World>, steps: seq<Step>, j: nat, w: WorkerId)
    requires j < |steps| < |states|
    ensures HeardAt(states, steps, j, w) <==>
            IsHeard(states[j].db, steps[j]) && steps[j].SendHeartbeat? && steps[j].worker == w
  {
    if steps[j].SendHeartbeat? {
      WorkerFromKeyExactly(states[j].db, steps[j].cred, steps[j].worker);
    }
  }

  /** A sweep at time t takes an online worker offline if and only if its last accepted heartbeat was more than
      the timeout before t. */
  lemma SweepTakesUnheard(cfg: Settings, states: seq<World>, steps: seq<Step>, i: nat, w: WorkerId)
    requires cfg.heartbeatTimeout >= 0.0 && Execution(cfg, states, steps) && i < |steps| && steps[i].SweepOnce?
    requires w in states[i].db.workers && states[i].db.workers[w].online
    ensures LastHeard(states, steps, i, w) && w in states[i + 1].db.workers
    ensures states[i + 1].db.workers[w].online <==> steps[i].now - states[i].heard[w] <= cfg.heartbeatTimeout
  {
    hide Inv, Constraints, Allowed, Sweep, BackOnWaitlist, Shaken, LastHeard;
    RunInvariant(cfg, states, steps, i);
    assert Next(cfg, states[i], steps[i], states[i + 1]);
    assert TimedWorker(cfg, states[i], w);
    HeardIsLast(cfg, states, steps, i, w);
    SweepExactly(cfg, states[i].db, steps[i].now, cfg.heartbeatTimeout);
  }
}
