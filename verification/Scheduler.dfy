/** The scheduler (scheduler.py, class Scheduler): it reads snapshots from the store, changes the
    records it holds and writes them back row by row. */
module Schedulers {
  import opened Basics
  import opened Models
  import opened Tables
  import opened Addressing
  import opened Waitlists
  import opened Scheduling
  import opened Stores

  class Scheduler {
    const store: Store
    const settings: Settings

    constructor (store: Store, settings: Settings)
      ensures this.store == store && this.settings == settings
    {
      this.store := store;
      this.settings := settings;
    }

    /** The subnets of active clusters, then those that assigned addresses still refer to, then the
        scan over the candidates. None is the RuntimeError. */
    method NextSubnet() returns (subnet: Option<string>)
      requires store.Valid()
      ensures subnet == Scheduling.NextSubnet(store.View())
    {
      var used := ActiveSubnets(store.View());
      var rows := store.ListWorkers();
      var i := 0;
      while i < |rows|
        invariant 0 <= i <= |rows|
        invariant used == ActiveSubnets(store.View()) +
                          set k | 0 <= k < i && Refers(rows[k]).Some? :: Refers(rows[k]).value
      {
        var refers := Refers(rows[i]);
        if refers.Some? {
          used := used + {refers.value};
        }
        i := i + 1;
      }
      ScanCoversTable(store.View());
      assert used == UsedSubnets(store.View());
      var third := 1;
      while third <= LAST_THIRD
        invariant 1 <= third <= LAST_THIRD + 1
        invariant FirstFree(used, 1) == FirstFree(used, third)
      {
        var candidate := SubnetText(third);
        if candidate !in used {
          return Some(candidate);
        }
        third := third + 1;
      }
      subnet := None;
    }

    /** FIFO prefix of the waitlist, accumulated until the requirement is met. */
    static method ChoosePrefix(ws: seq<Worker>, required: int) returns (chosen: seq<Worker>)
      ensures PrefixSize(ws, required).None? ==> chosen == []
      ensures PrefixSize(ws, required).Some? ==>
                PrefixSize(ws, required).value <= |ws| && chosen == ws[..PrefixSize(ws, required).value]
    {
      ReachSpec(ws, required, 1);
      var total := 0;
      chosen := [];
      var i := 0;
      while i < |ws|
        invariant 0 <= i <= |ws| && chosen == ws[..i] && total == MemorySum(ws[..i])
        invariant forall j :: 1 <= j <= i ==> MemorySum(ws[..j]) < required
      {
        assert ws[..i + 1] == ws[..i] + [ws[i]];
        chosen := chosen + [ws[i]];
        total := total + ws[i].memory;
        i := i + 1;
        if total >= required {
          return;
        }
      }
      chosen := [];
    }

    /** _form_cluster; false is an escaped exception. */
    method FormCluster(model: Token, now: Time) returns (ok: bool)
      requires store.Valid()
      modifies store
      ensures store.Valid()
      ensures Effect(store.View(), ok) == Scheduling.FormCluster(settings, old(store.View()), model, now)
    {
      FormClusterConstraints(settings, store.View(), model, now);
      ghost var before := store.View();
      if model !in settings.models {
        return true;
      }
      var def := settings.models[model];
      var rows := store.ListWorkers();
      var waitlist := Waitlist(rows, model, def.gguf, now);
      var chosen := ChoosePrefix(waitlist, def.requiredMemory);
      ReachSpec(waitlist, def.requiredMemory, 1);
      assert chosen == Chosen(settings, before, model, now);
      if chosen == [] {
        return true;
      }
      ok := FormChosen(model, chosen, now);
    }

    method FormChosen(model: Token, chosen: seq<Worker>, now: Time) returns (ok: bool)
      requires store.Valid() && chosen != []
      modifies store
      ensures store.Valid()
      ensures Effect(store.View(), ok) == FormFrom(old(store.View()), model, chosen, now)
    {
      hide NewRecord, InsertCluster, PutFirst, PutWorker, Scheduling.NextSubnet, AssignedRows;
      FormFromConstraints(store.View(), model, chosen, now);
      var subnet := NextSubnet();
      var id := store.NewId();
      if subnet.None? {
        return false;
      }
      var ips := AssignIps(subnet.value, |chosen|);
      var created := store.CreateCluster(NewRecord(id, model, subnet.value, chosen, now));
      if !created {
        return false;
      }
      AssignRows(id, chosen, ips);
      ok := true;
    }

    /** Each chosen record is changed and its row written back. */
    method AssignRows(id: ClusterId, chosen: seq<Worker>, ips: seq<string>)
      requires store.Valid() && |ips| == |chosen|
      modifies store
      ensures store.Valid()
      ensures store.View() == PutFirst(old(store.View()), AssignedRows(id, chosen, ips), |chosen|)
    {
      ghost var rows := AssignedRows(id, chosen, ips);
      ghost var before := store.View();
      var i := 0;
      while i < |chosen|
        invariant 0 <= i <= |chosen| && store.Valid()
        invariant store.View() == PutFirst(before, rows, i)
      {
        var w := chosen[i];
        w := w.(status := Assigned);
        w := w.(clusterId := Some(id));
        w := w.(assignedIp := Some(ips[i]));
        w := w.(ringPosition := Some(i));
        store.UpdateWorker(w);
        i := i + 1;
      }
    }

    /** _dissolve_cluster: member rows one by one, then the cluster row and its membership. */
    method DissolveCluster(cluster: ClusterRecord) returns (ok: bool)
      requires store.Valid()
      modifies store
      ensures store.Valid()
      ensures Effect(store.View(), ok) == Dissolve(old(store.View()), cluster)
    {
      ghost var before := store.View();
      var i := 0;
      while i < |cluster.members|
        invariant 0 <= i <= |cluster.members| && store.Valid()
        invariant store.View() == ReleaseFirst(before, cluster.members, i)
      {
        var found := store.GetWorker(cluster.members[i]);
        if found.Some? {
          var w := found.value;
          w := w.(status := Waitlisted);
          w := w.(clusterId := None);
          w := w.(assignedIp := None);
          w := w.(ringPosition := None);
          store.UpdateWorker(w);
        }
        i := i + 1;
      }
      ok := store.UpdateCluster(cluster.(status := Terminated));
    }

    method CheckAndForm(now: Time) returns (ok: bool)
      requires store.Valid()
      modifies store
      ensures store.Valid()
      ensures Effect(store.View(), ok) ==
              Scheduling.CheckAndForm(settings, old(store.View()), settings.modelOrder, now)
    {
      ghost var before := store.View();
      var models := settings.modelOrder;
      ok := true;
      var i := 0;
      while i < |models|
        invariant 0 <= i <= |models| && store.Valid() && ok
        invariant Scheduling.CheckAndForm(settings, before, models, now) ==
                  Scheduling.CheckAndForm(settings, store.View(), models[i..], now)
      {
        ghost var view := store.View();
        assert models[i..][0] == models[i] && models[i..][1..] == models[i + 1..];
        ok := FormCluster(models[i], now);
        if !ok {
          return;
        }
        i := i + 1;
      }
    }

    /** on_worker_offline and on_worker_leave. */
    method OnWorkerGone(w: Worker) returns (ok: bool)
      requires store.Valid()
      modifies store
      ensures store.Valid()
      ensures Effect(store.View(), ok) == WorkerGone(old(store.View()), w)
    {
      ok := true;
      if w.clusterId.Some? {
        var cluster := store.GetCluster(w.clusterId.value);
        if cluster.Some? {
          ok := DissolveCluster(cluster.value);
        }
      }
    }

    /** on_ready; None is the KeyError. */
    method OnReady(c: ClusterId, w: WorkerId) returns (status: Option<ClusterStatus>)
      requires store.Valid()
      modifies store
      ensures store.Valid() && store.View() == MarkMemberReady(old(store.View()), c, w)
      ensures status.Some? == (c in old(store.View()).clusters)
      ensures status.Some? ==> status.value == store.View().clusters[c].status
    {
      var cluster := store.MarkMemberReady(c, w);
      status := if cluster.Some? then Some(cluster.value.status) else None;
    }
  }

  lemma ScanCoversTable(db: Db)
    requires Constraints(db)
    ensures ReferencedSubnets(db) ==
            set k | 0 <= k < |Rows(db)| && Refers(Rows(db)[k]).Some? :: Refers(Rows(db)[k]).value
  {
    var rows := Rows(db);
    forall w | w in db.workers && Refers(db.workers[w]).Some?
      ensures exists k ::
                0 <= k < |rows| && Refers(rows[k]).Some? && Refers(rows[k]).value == Refers(db.workers[w]).value
    {
      assert w in Elements(db.scan);
      var k :| 0 <= k < |db.scan| && db.scan[k] == w;
      assert rows[k] == db.workers[w];
    }
  }
}
