/** What the scheduler does to the database (scheduler.py), step by step, and the closed forms of
    forming and dissolving a cluster. */
module Scheduling {
  import opened Basics
  import opened Models
  import opened Rings
  import opened Tables
  import opened Addressing
  import opened Waitlists
  import R = Readiness
  import Text

  /** The state a call leaves behind, and whether it returned (false: an exception escaped). */
  datatype Effect = Effect(db: Db, ok: bool)

  // ---- Subnets ----

  function ActiveSubnets(db: Db): set<string> {
    set c | c in db.clusters && !db.clusters[c].status.Terminated? :: db.clusters[c].subnet
  }

  /** The subnet a worker's address still refers to. */
  function Refers(w: Worker): Option<string> {
    if Truthy(w.assignedIp) then SubnetOfIp(w.assignedIp.value) else None
  }

  function ReferencedSubnets(db: Db): set<string> {
    set w | w in db.workers && Refers(db.workers[w]).Some? :: Refers(db.workers[w]).value
  }

  function UsedSubnets(db: Db): set<string> {
    ActiveSubnets(db) + ReferencedSubnets(db)
  }

  /** _next_subnet. */
  function NextSubnet(db: Db): (subnet: Option<string>)
    ensures subnet.Some? ==> |Text.Split(subnet.value)| > 2
  {
    FreeSubnetLabels(UsedSubnets(db));
    FirstFree(UsedSubnets(db), 1)
  }

  lemma FreeSubnetLabels(used: set<string>)
    ensures FirstFree(used, 1).Some? ==> |Text.Split(FirstFree(used, 1).value)| > 2
  {
    FirstFreeIsLeast(used, 1);
    if FirstFree(used, 1).Some? {
      var t :| 1 <= t <= LAST_THIRD && FirstFree(used, 1) == Some(SubnetText(t));
      SubnetLabels(t);
    }
  }

  // ---- Forming ----

  /** Each worker with the address at its own place in the list. */
  function IpMap(ids: seq<WorkerId>, ips: seq<string>): (m: map<WorkerId, string>)
    requires |ids| == |ips|
    ensures m.Keys == Elements(ids)
  {
    if ids == [] then map[]
    else
      var n := |ids| - 1;
      assert ids == ids[..n] + [ids[n]];
      IpMap(ids[..n], ips[..n])[ids[n] := ips[n]]
  }

  function NewRecord(id: ClusterId, model: Token, subnet: string, chosen: seq<Worker>, now: Time): ClusterRecord
    requires |Text.Split(subnet)| > 2
  {
    ClusterRecord(id, model, subnet, WorkerIds(chosen), Assembling, {}, now,
                  IpMap(WorkerIds(chosen), AssignIps(subnet, |chosen|)), None)
  }

  function Assign(w: Worker, id: ClusterId, ip: string, position: nat): Worker {
    w.(status := Assigned, clusterId := Some(id), assignedIp := Some(ip), ringPosition := Some(position))
  }

  function AssignedRows(id: ClusterId, chosen: seq<Worker>, ips: seq<string>): (rows: seq<Worker>)
    requires |ips| == |chosen|
    ensures |rows| == |chosen|
    ensures forall i :: 0 <= i < |rows| ==> rows[i] == Assign(chosen[i], id, ips[i], i)
  {
    seq(|chosen|, i requires 0 <= i < |chosen| => Assign(chosen[i], id, ips[i], i))
  }

  /** The first n rows written back, one UPDATE each. */
  function PutFirst(db: Db, rows: seq<Worker>, n: nat): (after: Db)
    requires n <= |rows|
    ensures after == db.(workers := after.workers)
    ensures after.workers.Keys == db.workers.Keys
  {
    if n == 0 then db else PutWorker(PutFirst(db, rows, n - 1), rows[n - 1])
  }

  /** Who would form the model's next cluster: the chosen workers, or none. */
  function Chosen(cfg: Settings, db: Db, model: Token, now: Time): seq<Worker>
    requires Constraints(db)
  {
    if model !in cfg.models then []
    else
      var def := cfg.models[model];
      var ws := Waitlist(Rows(db), model, def.gguf, now);
      ReachSpec(ws, def.requiredMemory, 1);
      match PrefixSize(ws, def.requiredMemory)
      case None => []
      case Some(n) => ws[..n]
  }

  /** _form_cluster. */
  function FormCluster(cfg: Settings, db: Db, model: Token, now: Time): Effect
    requires Constraints(db)
  {
    FormFrom(db, model, Chosen(cfg, db, model, now), now)
  }

  /** Its second half, once the members are chosen. */
  function FormFrom(db: Db, model: Token, chosen: seq<Worker>, now: Time): Effect {
    if chosen == [] then Effect(db, true)
    else if NextSubnet(db).None? then Effect(db.(next := db.next + 1), false)
    else FormOn(db.(next := db.next + 1), db.next, model, NextSubnet(db).value, chosen, now)
  }

  /** Its writes, once the identifier and the subnet are drawn. */
  function FormOn(db: Db, id: ClusterId, model: Token, subnet: string, chosen: seq<Worker>, now: Time): Effect
    requires |Text.Split(subnet)| > 2
  {
    match InsertCluster(db, NewRecord(id, model, subnet, chosen, now))
    case None => Effect(db, false)
    case Some(inserted) =>
      Effect(PutFirst(inserted, AssignedRows(id, chosen, AssignIps(subnet, |chosen|)), |chosen|), true)
  }

  lemma {:induction false} PutFirstConstraints(db: Db, rows: seq<Worker>, n: nat)
    requires Constraints(db) && n <= |rows|
    ensures Constraints(PutFirst(db, rows, n))
  {
    if n > 0 {
      PutFirstConstraints(db, rows, n - 1);
      PutWorkerConstraints(PutFirst(db, rows, n - 1), rows[n - 1]);
    }
  }

  lemma InsertClusterConstraints(db: Db, rec: ClusterRecord)
    requires Constraints(db) && InsertCluster(db, rec).Some?
    ensures Constraints(InsertCluster(db, rec).value)
  {
    SaveRingSlots(map[], rec);
    PutStoredConstraints(db, rec.clusterId, R.Stored(RowOf(rec), SaveRing(map[], rec).value));
  }

  lemma FormFromConstraints(db: Db, model: Token, chosen: seq<Worker>, now: Time)
    requires Constraints(db)
    ensures Constraints(FormFrom(db, model, chosen, now).db)
  {
    hide NewRecord, InsertCluster, PutFirst, PutWorker, NextSubnet;
    if chosen != [] && NextSubnet(db).Some? {
      var drawn := db.(next := db.next + 1);
      var subnet := NextSubnet(db).value;
      var rec := NewRecord(db.next, model, subnet, chosen, now);
      if InsertCluster(drawn, rec).Some? {
        InsertClusterConstraints(drawn, rec);
        PutFirstConstraints(InsertCluster(drawn, rec).value,
                            AssignedRows(db.next, chosen, AssignIps(subnet, |chosen|)), |chosen|);
      }
    }
  }

  lemma FormClusterConstraints(cfg: Settings, db: Db, model: Token, now: Time)
    requires Constraints(db)
    ensures Constraints(FormCluster(cfg, db, model, now).db)
  {
    hide FormFrom, Chosen;
    FormFromConstraints(db, model, Chosen(cfg, db, model, now), now);
  }

  /** check_and_form over the models in registry order; an exception ends the round. */
  function CheckAndForm(cfg: Settings, db: Db, models: seq<Token>, now: Time): Effect
    requires Constraints(db)
    decreases |models|
  {
    hide FormCluster;
    if models == [] then Effect(db, true)
    else
      var first := FormCluster(cfg, db, models[0], now);
      FormClusterConstraints(cfg, db, models[0], now);
      if first.ok then CheckAndForm(cfg, first.db, models[1..], now) else first
  }

  // ---- Dissolving ----

  function Release(w: Worker): Worker {
    w.(status := Waitlisted, clusterId := None, assignedIp := None, ringPosition := None)
  }

  function ReleaseOne(db: Db, w: WorkerId): Db {
    if w in db.workers then PutWorker(db, Release(db.workers[w])) else db
  }

  function ReleaseFirst(db: Db, members: seq<WorkerId>, n: nat): Db
    requires n <= |members|
  {
    if n == 0 then db else ReleaseOne(ReleaseFirst(db, members, n - 1), members[n - 1])
  }

  lemma {:induction false} ReleaseFirstConstraints(db: Db, members: seq<WorkerId>, n: nat)
    requires Constraints(db) && n <= |members|
    ensures Constraints(ReleaseFirst(db, members, n))
  {
    if n > 0 {
      ReleaseFirstConstraints(db, members, n - 1);
      var before := ReleaseFirst(db, members, n - 1);
      if members[n - 1] in before.workers {
        PutWorkerConstraints(before, Release(before.workers[members[n - 1]]));
      }
    }
  }

  /** _dissolve_cluster, with whatever record the caller holds. */
  function Dissolve(db: Db, rec: ClusterRecord): Effect
    requires Constraints(db)
  {
    var released := ReleaseFirst(db, rec.members, |rec.members|);
    ReleaseFirstConstraints(db, rec.members, |rec.members|);
    match WriteCluster(released, rec.(status := Terminated))
    case None => Effect(released, false)
    case Some(written) => Effect(written, true)
  }

  /** on_worker_offline and on_worker_leave. */
  function WorkerGone(db: Db, w: Worker): Effect
    requires Constraints(db)
  {
    if w.clusterId.Some? && w.clusterId.value in db.clusters
    then Dissolve(db, ClusterAt(db, w.clusterId.value).value)
    else Effect(db, true)
  }

  lemma DissolveConstraints(db: Db, rec: ClusterRecord)
    requires Constraints(db)
    ensures Constraints(Dissolve(db, rec).db)
  {
    var released := ReleaseFirst(db, rec.members, |rec.members|);
    var record := rec.(status := Terminated);
    ReleaseFirstConstraints(db, rec.members, |rec.members|);
    if rec.clusterId in released.clusters && SaveRing(released.rings[rec.clusterId], record).Some? {
      SaveRingSlots(released.rings[rec.clusterId], record);
      PutStoredConstraints(released, rec.clusterId,
                           R.Stored(RowOf(record), SaveRing(released.rings[rec.clusterId], record).value));
    }
  }

  lemma WorkerGoneConstraints(db: Db, w: Worker)
    requires Constraints(db)
    ensures Constraints(WorkerGone(db, w).db)
  {
    if w.clusterId.Some? && w.clusterId.value in db.clusters {
      DissolveConstraints(db, ClusterAt(db, w.clusterId.value).value);
    }
  }

  // ---- Closed forms ----

  /** All rows of `members` back on the waitlist, nothing else touched. */
  function ReleaseAll(workers: map<WorkerId, Worker>, members: set<WorkerId>): map<WorkerId, Worker> {
    map w | w in workers :: if w in members then Release(workers[w]) else workers[w]
  }

  /** The cluster terminated and its members released. */
  function Dissolved(db: Db, c: ClusterId): Db
    requires c in db.clusters && c in db.rings
  {
    db.(workers := ReleaseAll(db.workers, db.rings[c].Keys),
        clusters := db.clusters[c := db.clusters[c].(status := Terminated)])
  }

  lemma {:induction false} ReleaseFirstIsReleaseAll(db: Db, members: seq<WorkerId>, n: nat)
    requires n <= |members|
    requires forall w :: w in db.workers ==> db.workers[w].workerId == w
    ensures ReleaseFirst(db, members, n) == db.(workers := ReleaseAll(db.workers, Elements(members[..n])))
  {
    if n == 0 {
      assert ReleaseAll(db.workers, {}) == db.workers;
    } else {
      hide ReleaseAll, Release;
      ReleaseFirstIsReleaseAll(db, members, n - 1);
      assert members[..n] == members[..n - 1] + [members[n - 1]];
      assert Elements(members[..n]) == Elements(members[..n - 1]) + {members[n - 1]};
      ReleaseAllNext(db.workers, Elements(members[..n - 1]), members[n - 1]);
    }
  }

  /** One member more. */
  lemma ReleaseAllNext(workers: map<WorkerId, Worker>, members: set<WorkerId>, w: WorkerId)
    requires forall v :: v in workers ==> workers[v].workerId == v
    ensures var before := ReleaseAll(workers, members);
            && before.Keys == workers.Keys
            && ReleaseAll(workers, members + {w}) == (if w in workers then before[w := Release(before[w])] else before)
            && (w in workers ==> Release(before[w]).workerId == w)
  {
    var before, after := ReleaseAll(workers, members), ReleaseAll(workers, members + {w});
    assert after.Keys == workers.Keys;
    forall v | v in workers ensures after[v] == if v == w then Release(before[v]) else before[v] {
    }
  }

  /** Dissolving the record just loaded releases the members, terminates the cluster, and rewrites
      its membership rows to what they were. */
  lemma DissolveLoaded(db: Db, c: ClusterId)
    requires Constraints(db) && c in db.clusters && Compact(db.clusters[c], db.rings[c])
    ensures Dissolve(db, ClusterAt(db, c).value) == Effect(Dissolved(db, c), true)
  {
    var rec := ClusterAt(db, c).value;
    var members := rec.members;
    ReleaseFirstIsReleaseAll(db, members, |members|);
    assert members[..|members|] == members;
    assert Elements(members) == db.rings[c].Keys;
    SaveAfterLoad(c, db.clusters[c], db.rings[c], Terminated);
    assert db.rings[c := db.rings[c]] == db.rings;
  }

  /** Whatever the stored slots look like, dissolving a record just loaded never fails. */
  lemma DissolveLoadedSucceeds(db: Db, c: ClusterId)
    requires Constraints(db) && c in db.clusters
    ensures Dissolve(db, ClusterAt(db, c).value).ok
  {
    var rec := ClusterAt(db, c).value;
    ReleaseFirstIsReleaseAll(db, rec.members, |rec.members|);
    ResaveSucceeds(db.rings[c], rec.(status := Terminated));
  }

  lemma {:induction false} IpMapAt(ids: seq<WorkerId>, ips: seq<string>, i: nat)
    requires |ids| == |ips| && Distinct(ids) && i < |ids|
    ensures ids[i] in IpMap(ids, ips) && IpMap(ids, ips)[ids[i]] == ips[i]
  {
    var n := |ids| - 1;
    if i < n {
      IpMapAt(ids[..n], ips[..n], i);
    }
  }

  lemma {:induction false} PutFirstAt(db: Db, rows: seq<Worker>, n: nat, i: nat)
    requires i < n <= |rows| && Distinct(WorkerIds(rows)) && rows[i].workerId in db.workers
    ensures PutFirst(db, rows, n).workers[rows[i].workerId] == rows[i]
  {
    if i < n - 1 {
      PutFirstAt(db, rows, n - 1, i);
      assert WorkerIds(rows)[i] != WorkerIds(rows)[n - 1];
    }
  }

  lemma {:induction false} PutFirstElsewhere(db: Db, rows: seq<Worker>, n: nat, w: WorkerId)
    requires n <= |rows| && w in db.workers
    requires forall i :: 0 <= i < n ==> rows[i].workerId != w
    ensures PutFirst(db, rows, n).workers[w] == db.workers[w]
  {
    if n > 0 {
      PutFirstElsewhere(db, rows, n - 1, w);
    }
  }

  lemma RowsDistinct(db: Db)
    requires Constraints(db)
    ensures Distinct(WorkerIds(Rows(db)))
    ensures forall w :: w in Rows(db) <==> w.workerId in db.workers && db.workers[w.workerId] == w
  {
    var rows := Rows(db);
    assert forall i :: 0 <= i < |rows| ==> WorkerIds(rows)[i] == db.scan[i];
    forall w ensures w in rows <==> w.workerId in db.workers && db.workers[w.workerId] == w {
      if w.workerId in db.workers && db.workers[w.workerId] == w {
        assert w.workerId in Elements(db.scan);
        var i :| 0 <= i < |db.scan| && db.scan[i] == w.workerId;
        assert rows[i] == w;
      }
    }
  }

  lemma PrefixDistinct(ws: seq<Worker>, n: nat)
    requires Distinct(WorkerIds(ws)) && n <= |ws|
    ensures Distinct(WorkerIds(ws[..n]))
  {
    forall i, j | 0 <= i < j < n ensures WorkerIds(ws[..n])[i] != WorkerIds(ws[..n])[j] {
      assert WorkerIds(ws)[i] != WorkerIds(ws)[j];
    }
  }

  /** The chosen workers are a prefix of the waitlist. */
  lemma ChosenPrefix(cfg: Settings, db: Db, model: Token, now: Time)
    requires Constraints(db) && model in cfg.models
    ensures Chosen(cfg, db, model, now) <= Waitlist(Rows(db), model, cfg.models[model].gguf, now)
  {
    hide Waitlist;
    var ws := Waitlist(Rows(db), model, cfg.models[model].gguf, now);
    ReachSpec(ws, cfg.models[model].requiredMemory, 1);
    assert forall n :: 0 <= n <= |ws| ==> ws[..n] <= ws;
  }

  /** The chosen workers are distinct, eligible rows of the table. */
  lemma ChosenSpec(cfg: Settings, db: Db, model: Token, now: Time)
    requires Constraints(db)
    ensures Distinct(WorkerIds(Chosen(cfg, db, model, now)))
    ensures Chosen(cfg, db, model, now) != [] ==> model in cfg.models
    ensures forall w :: w in Chosen(cfg, db, model, now) ==>
              w.workerId in db.workers && db.workers[w.workerId] == w &&
              Eligible(w, model, cfg.models[model].gguf, now)
  {
    var chosen := Chosen(cfg, db, model, now);
    if model in cfg.models {
      ChosenPrefix(cfg, db, model, now);
      ChosenFrom(db, model, cfg.models[model].gguf, now, |chosen|);
    }
  }

  lemma ChosenFrom(db: Db, model: Token, gguf: Hash, now: Time, n: nat)
    requires Constraints(db) && n <= |Waitlist(Rows(db), model, gguf, now)|
    ensures var chosen := Waitlist(Rows(db), model, gguf, now)[..n];
            && Distinct(WorkerIds(chosen))
            && forall w :: w in chosen ==>
                 w.workerId in db.workers && db.workers[w.workerId] == w && Eligible(w, model, gguf, now)
  {
    hide Waitlist;
    var ws := Waitlist(Rows(db), model, gguf, now);
    RowsDistinct(db);
    WaitlistSpec(Rows(db), model, gguf, now);
    WaitlistDistinct(Rows(db), model, gguf, now);
    PrefixDistinct(ws, n);
    assert forall w :: w in ws[..n] ==> w in ws;
  }

  /** A cluster just formed: one fresh assembling cluster over the chosen workers in FIFO order, and
      nothing else. */
  ghost predicate Formed(db: Db, after: Db, model: Token, chosen: seq<Worker>, third: nat, now: Time) {
    && after == db.(workers := after.workers, clusters := after.clusters, rings := after.rings, next := db.next + 1)
    && after.clusters == db.clusters[db.next := ClusterRow(model, SubnetText(third), Assembling, now, false)]
    && db.next in after.rings && after.rings == db.rings[db.next := after.rings[db.next]]
    && FormedRing(after.rings[db.next], chosen, third)
    && FormedWorkers(db.workers, after.workers, db.next, chosen, third)
  }

  ghost predicate FormedRing(ring: Ring, chosen: seq<Worker>, third: nat) {
    && ring.Keys == Elements(WorkerIds(chosen))
    && forall i :: 0 <= i < |chosen| ==>
         chosen[i].workerId in ring &&
         ring[chosen[i].workerId] == MemberRow(i, Some(HostText(third, i + 1)), false, None)
  }

  ghost predicate FormedWorkers(before: map<WorkerId, Worker>, after: map<WorkerId, Worker>, id: ClusterId,
                                chosen: seq<Worker>, third: nat)
  {
    && after.Keys == before.Keys
    && (forall i :: 0 <= i < |chosen| ==>
          chosen[i].workerId in after &&
          after[chosen[i].workerId] == Assign(chosen[i], id, HostText(third, i + 1), i))
    && (forall w :: w in before && w !in WorkerIds(chosen) ==> after[w] == before[w])
  }

  /** The ring is in FIFO order. */
  lemma FormedOrder(ring: Ring, chosen: seq<Worker>, third: nat)
    requires FormedRing(ring, chosen, third)
    ensures UniqueSlots(ring) && RingOrder(ring) == WorkerIds(chosen)
  {
    hide HostText;
    var ids := WorkerIds(chosen);
    forall v, w | v in ring && w in ring && v != w ensures ring[v].ringPosition != ring[w].ringPosition {
      assert v in Elements(ids) && w in Elements(ids);
      var i :| 0 <= i < |ids| && ids[i] == v;
      var j :| 0 <= j < |ids| && ids[j] == w;
      assert chosen[i].workerId == v && chosen[j].workerId == w;
    }
    forall i, j | 0 <= i < j < |ids| ensures Before(ring, ids[i], ids[j]) {
      assert chosen[i].workerId == ids[i] && chosen[j].workerId == ids[j];
    }
    RingOrderUnique(ring, ids);
  }

  lemma NewRecordMember(id: ClusterId, model: Token, third: nat, chosen: seq<Worker>, now: Time, i: nat)
    requires Distinct(WorkerIds(chosen)) && |Text.Split(SubnetText(third))| > 2 && i < |chosen|
    ensures var rec := NewRecord(id, model, SubnetText(third), chosen, now);
            MemberValues(rec, i) == MemberRow(i, Some(HostText(third, i + 1)), false, None)
  {
    hide SubnetText, HostText, IpMap;
    AssignedHosts(third, |chosen|);
    IpMapAt(WorkerIds(chosen), AssignIps(SubnetText(third), |chosen|), i);
    assert AssignIps(SubnetText(third), |chosen|)[i] == HostText(third, i + 1);
    hide AssignIps, Text.Split;
  }

  lemma NewRecordStored(id: ClusterId, model: Token, third: nat, chosen: seq<Worker>, now: Time)
    requires Distinct(WorkerIds(chosen)) && |Text.Split(SubnetText(third))| > 2
    ensures var rec := NewRecord(id, model, SubnetText(third), chosen, now);
            && SaveRing(map[], rec).Some?
            && FormedRing(SaveRing(map[], rec).value, chosen, third)
  {
    hide SaveRing, MemberValues, HostText, SubnetText, IpMap;
    var rec := NewRecord(id, model, SubnetText(third), chosen, now);
    SaveNewSucceeds(rec);
    forall i | 0 <= i < |chosen|
      ensures chosen[i].workerId in Elements(rec.members)
      ensures MemberValues(rec, i) == MemberRow(i, Some(HostText(third, i + 1)), false, None)
    {
      assert rec.members[i] == chosen[i].workerId;
      NewRecordMember(id, model, third, chosen, now, i);
    }
  }

  lemma AssignedWorkers(db: Db, id: ClusterId, chosen: seq<Worker>, third: nat)
    requires Distinct(WorkerIds(chosen)) && |Text.Split(SubnetText(third))| > 2
    requires forall w :: w in chosen ==> w.workerId in db.workers
    ensures var rows := AssignedRows(id, chosen, AssignIps(SubnetText(third), |chosen|));
            FormedWorkers(db.workers, PutFirst(db, rows, |chosen|).workers, id, chosen, third)
  {
    hide SubnetText, HostText, PutFirst;
    AssignedHosts(third, |chosen|);
    var ips := AssignIps(SubnetText(third), |chosen|);
    var rows := AssignedRows(id, chosen, ips);
    var n := |chosen|;
    var after := PutFirst(db, rows, n).workers;
    assert WorkerIds(rows) == WorkerIds(chosen);
    forall i | 0 <= i < n
      ensures chosen[i].workerId in after
      ensures after[chosen[i].workerId] == Assign(chosen[i], id, HostText(third, i + 1), i)
    {
      assert chosen[i] in chosen;
      PutFirstAt(db, rows, n, i);
      assert ips[i] == HostText(third, i + 1);
    }
    forall w | w in db.workers && w !in WorkerIds(chosen) ensures after[w] == db.workers[w] {
      assert forall i :: 0 <= i < n ==> WorkerIds(chosen)[i] == rows[i].workerId;
      PutFirstElsewhere(db, rows, n, w);
    }
  }

  lemma FormFromForms(db: Db, model: Token, chosen: seq<Worker>, now: Time) returns (third: nat)
    requires db.next !in db.clusters
    requires Distinct(WorkerIds(chosen)) && chosen != []
    requires forall w :: w in chosen ==> w.workerId in db.workers
    requires NextSubnet(db).Some?
    ensures 1 <= third <= LAST_THIRD && SubnetText(third) !in UsedSubnets(db)
    ensures forall t :: 1 <= t < third ==> SubnetText(t) in UsedSubnets(db)
    ensures FormFrom(db, model, chosen, now).ok
    ensures Formed(db, FormFrom(db, model, chosen, now).db, model, chosen, third, now)
  {
    hide UsedSubnets, SubnetText, FormFrom, Formed;
    FirstFreeIsLeast(UsedSubnets(db), 1);
    third :| 1 <= third <= LAST_THIRD && FirstFree(UsedSubnets(db), 1) == Some(SubnetText(third)) &&
             SubnetText(third) !in UsedSubnets(db) && forall s :: 1 <= s < third ==> SubnetText(s) in UsedSubnets(db);
    FormOnSubnet(db, model, chosen, third, now);
  }

  lemma FormOnSubnet(db: Db, model: Token, chosen: seq<Worker>, third: nat, now: Time)
    requires db.next !in db.clusters
    requires Distinct(WorkerIds(chosen)) && chosen != []
    requires forall w :: w in chosen ==> w.workerId in db.workers
    requires NextSubnet(db) == Some(SubnetText(third))
    ensures FormFrom(db, model, chosen, now).ok
    ensures Formed(db, FormFrom(db, model, chosen, now).db, model, chosen, third, now)
  {
    hide NextSubnet, SubnetText, FormedRing, FormedWorkers, FormOn;
    SubnetLabels(third);
    var drawn := db.(next := db.next + 1);
    FormOnWrites(drawn, db.next, model, chosen, third, now);
    assert FormFrom(db, model, chosen, now) == FormOn(drawn, db.next, model, SubnetText(third), chosen, now);
  }

  lemma FormOnWrites(db: Db, id: ClusterId, model: Token, chosen: seq<Worker>, third: nat, now: Time)
    requires id !in db.clusters && |Text.Split(SubnetText(third))| > 2
    requires Distinct(WorkerIds(chosen))
    requires forall w :: w in chosen ==> w.workerId in db.workers
    ensures var e := FormOn(db, id, model, SubnetText(third), chosen, now);
            && e.ok
            && e.db == db.(workers := e.db.workers, clusters := e.db.clusters, rings := e.db.rings)
            && e.db.clusters == db.clusters[id := ClusterRow(model, SubnetText(third), Assembling, now, false)]
            && id in e.db.rings && e.db.rings == db.rings[id := e.db.rings[id]]
            && FormedRing(e.db.rings[id], chosen, third)
            && FormedWorkers(db.workers, e.db.workers, id, chosen, third)
  {
    hide SubnetText, FormedRing, FormedWorkers, PutFirst, SaveRing, AssignIps, AssignedRows, IpMap;
    var subnet := SubnetText(third);
    NewRecordStored(id, model, third, chosen, now);
    var rec := NewRecord(id, model, subnet, chosen, now);
    var ring := SaveRing(map[], rec).value;
    var inserted := PutStored(db, id, R.Stored(RowOf(rec), ring));
    assert InsertCluster(db, rec) == Some(inserted);
    AssignedWorkers(inserted, id, chosen, third);
  }

  /** Whenever workers are chosen and a subnet is free, exactly their cluster comes into being, on
      the first free subnet. */
  lemma FormClusterForms(cfg: Settings, db: Db, model: Token, now: Time) returns (third: nat)
    requires Constraints(db) && Drawn(db)
    requires Chosen(cfg, db, model, now) != [] && NextSubnet(db).Some?
    ensures 1 <= third <= LAST_THIRD && SubnetText(third) !in UsedSubnets(db)
    ensures forall t :: 1 <= t < third ==> SubnetText(t) in UsedSubnets(db)
    ensures FormCluster(cfg, db, model, now).ok
    ensures Formed(db, FormCluster(cfg, db, model, now).db, model, Chosen(cfg, db, model, now), third, now)
  {
    hide FormFrom, UsedSubnets, Chosen, NextSubnet, SubnetText, Formed;
    ChosenSpec(cfg, db, model, now);
    third := FormFromForms(db, model, Chosen(cfg, db, model, now), now);
  }
}
