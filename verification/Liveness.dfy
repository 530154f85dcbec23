/** The liveness sweep (liveness.py): a loop over a snapshot of the worker rows that writes the
    snapshot rows back and dissolves clusters as it goes. */
module Liveness {
  import opened Basics
  import opened Models
  import opened Rings
  import opened Tables
  import opened Scheduling
  import opened Invariants
  import opened Stores
  import opened Schedulers

  predicate TimedOut(w: Worker, now: Time, timeout: Time) {
    w.online && now - w.lastHeartbeat > timeout
  }

  /** One row of the snapshot: written back offline as it was read, then on_worker_offline with the
      cluster it was read with. An exception there is logged and the sweep goes on. */
  function SweepRow(db: Db, w: Worker, now: Time, timeout: Time): (after: Db)
    requires Constraints(db)
    ensures Constraints(after)
  {
    var offline := w.(online := false);
    PutWorkerConstraints(db, offline);
    WorkerGoneConstraints(PutWorker(db, offline), offline);
    hide Constraints, WorkerGone, PutWorker;
    if TimedOut(w, now, timeout) then WorkerGone(PutWorker(db, offline), offline).db else db
  }

  function SweepFirst(db: Db, rows: seq<Worker>, n: nat, now: Time, timeout: Time): (after: Db)
    requires Constraints(db) && n <= |rows|
    ensures Constraints(after)
  {
    hide Constraints;
    if n == 0 then db else SweepRow(SweepFirst(db, rows, n - 1, now, timeout), rows[n - 1], now, timeout)
  }

  /** _check. */
  function Sweep(db: Db, now: Time, timeout: Time): (after: Db)
    requires Constraints(db)
    ensures Constraints(after)
  {
    hide Constraints;
    SweepFirst(db, Rows(db), |Rows(db)|, now, timeout)
  }

  class LivenessMonitor {
    const store: Store
    const settings: Settings
    const scheduler: Scheduler

    constructor (store: Store, settings: Settings, scheduler: Scheduler)
      requires scheduler.store == store
      ensures this.store == store && this.settings == settings && this.scheduler == scheduler
    {
      this.store := store;
      this.settings := settings;
      this.scheduler := scheduler;
    }

    method Check(now: Time)
      requires store.Valid() && scheduler.store == store
      modifies store
      ensures store.Valid() && store.View() == Sweep(old(store.View()), now, settings.heartbeatTimeout)
    {
      hide Constraints, WorkerGone, PutWorker, Rows;
      ghost var before := store.View();
      var timeout := settings.heartbeatTimeout;
      var rows := store.ListWorkers();
      var i := 0;
      while i < |rows|
        invariant 0 <= i <= |rows| && store.Valid()
        invariant store.View() == SweepFirst(before, rows, i, now, timeout)
      {
        var w := rows[i];
        ghost var state := store.View();
        if w.online && now - w.lastHeartbeat > timeout {
          w := w.(online := false);
          store.UpdateWorker(w);
          var _ := scheduler.OnWorkerGone(w);
        }
        assert store.View() == SweepRow(state, rows[i], now, timeout);
        i := i + 1;
      }
    }
  }

  // ---- The simple form ----

  /** The online workers that missed their heartbeat. */
  function Dead(db: Db, now: Time, timeout: Time): set<WorkerId> {
    set w | w in db.workers && TimedOut(db.workers[w], now, timeout)
  }

  /** The clusters that a dead worker points to. */
  function Broken(db: Db, dead: set<WorkerId>): set<ClusterId> {
    set w | w in dead && w in db.workers && db.workers[w].clusterId.Some? :: db.workers[w].clusterId.value
  }

  lemma RetireNothing(db: Db)
    ensures Broken(db, {}) == {} && Retire(db, {}, {}) == db
  {
    assert Retire(db, {}, {}).workers == db.workers;
    assert Retire(db, {}, {}).clusters == db.clusters;
  }

  /** One timed-out row of the stale snapshot, whether or not its cluster was already dissolved
      earlier in the sweep. */
  lemma SweepRowRetires(cfg: Settings, db: Db, dead: set<WorkerId>, v: WorkerId, now: Time, timeout: Time)
    requires Inv(cfg, db) && v in db.workers && TimedOut(db.workers[v], now, timeout)
    ensures Constraints(Retire(db, dead, Broken(db, dead)))
    ensures SweepRow(Retire(db, dead, Broken(db, dead)), db.workers[v], now, timeout) ==
            Retire(db, dead + {v}, Broken(db, dead + {v}))
  {
    assert Constraints(db);
    RetireConstraints(db, dead, Broken(db, dead));
    if db.workers[v].clusterId.None? {
      hide Inv, Constraints, Retire;
      assert Broken(db, dead + {v}) == Broken(db, dead);
      StaleRowAlone(db, dead, v);
    } else {
      var c := db.workers[v].clusterId.value;
      PlacedCompact(cfg, db, v, c);
      hide Inv, Retire, SweepRow, Constraints, Broken;
      SweepMemberRetires(cfg, db, dead, v, c, now, timeout);
    }
  }

  lemma PlacedCompact(cfg: Settings, db: Db, v: WorkerId, c: ClusterId)
    requires Inv(cfg, db) && v in db.workers && db.workers[v].clusterId == Some(c)
    ensures db.rings.Keys == db.clusters.Keys && MembersServe(cfg, db) && PointersHold(db)
    ensures Active(db, c) && Compact(db.clusters[c], db.rings[c])
  {
    assert Placed(db, v);
    assert ClusterHolds(db.clusters[c], db.rings[c]);
  }

  lemma SweepMemberRetires(cfg: Settings, db: Db, dead: set<WorkerId>, v: WorkerId, c: ClusterId, now: Time,
                           timeout: Time)
    requires Constraints(db) && Constraints(Retire(db, dead, Broken(db, dead)))
    requires MembersServe(cfg, db) && PointersHold(db)
    requires v in db.workers && TimedOut(db.workers[v], now, timeout)
    requires db.workers[v].clusterId == Some(c) && Active(db, c) && Compact(db.clusters[c], db.rings[c])
    ensures SweepRow(Retire(db, dead, Broken(db, dead)), db.workers[v], now, timeout) ==
            Retire(db, dead + {v}, Broken(db, dead + {v}))
  {
    var state := Retire(db, dead, Broken(db, dead));
    var stale := db.workers[v].(online := false);
    var put := PutWorker(state, stale);
    PutWorkerConstraints(state, stale);
    BrokenByOneMore(db, dead, v, c);
    DissolveStale(cfg, db, dead, v, c);
    PutCompact(db, dead, v, c);
    hide Constraints, MembersServe, PointersHold, Compact, Dissolved, Dissolve, PutWorker, Retire, Broken;
    DissolveLoaded(put, c);
    assert WorkerGone(put, stale) == Effect(Dissolved(put, c), true);
  }

  lemma BrokenByOneMore(db: Db, dead: set<WorkerId>, v: WorkerId, c: ClusterId)
    requires v in db.workers && db.workers[v].clusterId == Some(c)
    ensures Broken(db, dead + {v}) == Broken(db, dead) + {c}
  {
  }

  lemma PutCompact(db: Db, dead: set<WorkerId>, v: WorkerId, c: ClusterId)
    requires c in db.clusters && c in db.rings && v in db.workers && Compact(db.clusters[c], db.rings[c])
    ensures var put := PutWorker(Retire(db, dead, Broken(db, dead)), db.workers[v].(online := false));
            c in put.clusters && c in put.rings && Compact(put.clusters[c], put.rings[c])
  {
  }

  lemma StaleRowAlone(db: Db, dead: set<WorkerId>, v: WorkerId)
    requires Constraints(db) && v in db.workers && db.workers[v].clusterId.None?
    ensures PutWorker(Retire(db, dead, Broken(db, dead)), db.workers[v].(online := false)) ==
            Retire(db, dead + {v}, Broken(db, dead))
  {
    var left := PutWorker(Retire(db, dead, Broken(db, dead)), db.workers[v].(online := false));
    var right := Retire(db, dead + {v}, Broken(db, dead));
    assert left.workers == right.workers;
  }

  lemma DissolveStale(cfg: Settings, db: Db, dead: set<WorkerId>, v: WorkerId, c: ClusterId)
    requires Constraints(db) && MembersServe(cfg, db) && PointersHold(db)
    requires v in db.workers && db.workers[v].clusterId == Some(c) && Active(db, c)
    ensures var put := PutWorker(Retire(db, dead, Broken(db, dead)), db.workers[v].(online := false));
            && c in put.clusters && c in put.rings
            && Dissolved(put, c) == Retire(db, dead + {v}, Broken(db, dead) + {c})
  {
    hide Constraints, MembersServe, PointersHold, Retire, PutWorker, Dissolved, Broken;
    KeysAgree(db);
    StaleShape(db, dead, v, c);
    StaleWorkers(cfg, db, dead, v, c);
  }

  lemma KeysAgree(db: Db)
    requires Constraints(db)
    ensures db.rings.Keys == db.clusters.Keys
  {
  }

  lemma StaleWorkers(cfg: Settings, db: Db, dead: set<WorkerId>, v: WorkerId, c: ClusterId)
    requires Constraints(db) && MembersServe(cfg, db) && PointersHold(db)
    requires v in db.workers && db.workers[v].clusterId == Some(c) && Active(db, c)
    ensures var put := PutWorker(Retire(db, dead, Broken(db, dead)), db.workers[v].(online := false));
            && c in put.clusters && c in put.rings
            && Dissolved(put, c).workers == Retire(db, dead + {v}, Broken(db, dead) + {c}).workers
  {
    hide Constraints, MembersServe, PointersHold, Retire, PutWorker, Dissolved, Broken;
    KeysAgree(db);
    StaleShape(db, dead, v, c);
    var put := PutWorker(Retire(db, dead, Broken(db, dead)), db.workers[v].(online := false));
    var left, right := Dissolved(put, c).workers, Retire(db, dead + {v}, Broken(db, dead) + {c}).workers;
    forall u | u in db.workers ensures left[u] == right[u] {
      DissolveStaleRow(cfg, db, dead, v, c, u);
      RetiredRow(db, dead + {v}, Broken(db, dead) + {c}, u);
    }
  }

  lemma RetiredRow(db: Db, dead: set<WorkerId>, broken: set<ClusterId>, u: WorkerId)
    requires u in db.workers
    ensures u in Retire(db, dead, broken).workers
    ensures Retire(db, dead, broken).workers[u] == RetireWorker(db.workers[u], dead, broken)
  {
  }

  lemma StaleShape(db: Db, dead: set<WorkerId>, v: WorkerId, c: ClusterId)
    requires c in db.clusters && c in db.rings && v in db.workers && db.workers[v].clusterId == Some(c)
    ensures var put := PutWorker(Retire(db, dead, Broken(db, dead)), db.workers[v].(online := false));
            var right := Retire(db, dead + {v}, Broken(db, dead) + {c});
            && c in put.clusters && c in put.rings
            && Dissolved(put, c) == db.(workers := Dissolved(put, c).workers, clusters := right.clusters)
            && right == db.(workers := right.workers, clusters := right.clusters)
            && Dissolved(put, c).workers.Keys == db.workers.Keys && right.workers.Keys == db.workers.Keys
  {
    hide RetireWorker, Broken;
    var put := PutWorker(Retire(db, dead, Broken(db, dead)), db.workers[v].(online := false));
    assert Dissolved(put, c).clusters == Retire(db, dead + {v}, Broken(db, dead) + {c}).clusters;
  }

  lemma DissolveStaleRow(cfg: Settings, db: Db, dead: set<WorkerId>, v: WorkerId, c: ClusterId, u: WorkerId)
    requires Constraints(db) && MembersServe(cfg, db) && PointersHold(db)
    requires v in db.workers && db.workers[v].clusterId == Some(c) && Active(db, c) && u in db.workers
    ensures var put := PutWorker(Retire(db, dead, Broken(db, dead)), db.workers[v].(online := false));
            && c in put.clusters && c in put.rings && u in put.workers
            && Dissolved(put, c).workers[u] == RetireWorker(db.workers[u], dead + {v}, Broken(db, dead) + {c})
  {
    hide MembersServe, PointersHold, Broken;
    PointsExactly(cfg, db, c, u);
    assert db.workers[u].workerId == u && db.workers[v].workerId == v;
    hide Constraints;
  }

  /** The members of an active cluster are exactly the workers that point to it. */
  lemma PointsExactly(cfg: Settings, db: Db, c: ClusterId, u: WorkerId)
    requires Constraints(db) && MembersServe(cfg, db) && PointersHold(db) && Active(db, c) && u in db.workers
    ensures u in db.rings[c] <==> db.workers[u].clusterId == Some(c)
  {
    assert Placed(db, u);
    if u in db.rings[c] { assert Serves(cfg, db, c, u); }
  }

  /** The dead workers among the first n rows of the scan. */
  function DeadAmong(db: Db, n: nat, now: Time, timeout: Time): set<WorkerId>
    requires n <= |db.scan|
  {
    set w | w in db.scan[..n] && w in Dead(db, now, timeout)
  }

  /** One row further in the scan. */
  lemma DeadNext(db: Db, n: nat, now: Time, timeout: Time)
    requires Constraints(db) && n < |db.scan|
    ensures var v := db.scan[n];
            && v in db.workers && |Rows(db)| == |db.scan| && Rows(db)[n] == db.workers[v]
            && DeadAmong(db, n + 1, now, timeout) ==
               DeadAmong(db, n, now, timeout) + if TimedOut(db.workers[v], now, timeout) then {v} else {}
  {
    hide TimedOut;
    assert db.scan[..n + 1] == db.scan[..n] + [db.scan[n]];
    assert Rows(db)[n] == db.workers[db.scan[n]];
  }

  lemma {:induction false} SweepFirstRetires(cfg: Settings, db: Db, n: nat, now: Time, timeout: Time)
    requires Constraints(db) && Inv(cfg, db) && n <= |Rows(db)|
    ensures n <= |db.scan|
    ensures var dead := DeadAmong(db, n, now, timeout);
            SweepFirst(db, Rows(db), n, now, timeout) == Retire(db, dead, Broken(db, dead))
  {
    hide Inv, SweepRow, Retire, TimedOut, Broken, Constraints, Rows;
    if n == 0 {
      assert DeadAmong(db, n, now, timeout) == {};
      RetireNothing(db);
    } else {
      hide DeadAmong;
      SweepFirstRetires(cfg, db, n - 1, now, timeout);
      DeadNext(db, n - 1, now, timeout);
      var v := db.scan[n - 1];
      if TimedOut(db.workers[v], now, timeout) {
        SweepRowRetires(cfg, db, DeadAmong(db, n - 1, now, timeout), v, now, timeout);
      } else {
        SweepRowSkips(SweepFirst(db, Rows(db), n - 1, now, timeout), db.workers[v], now, timeout);
        assert DeadAmong(db, n - 1, now, timeout) + {} == DeadAmong(db, n - 1, now, timeout);
      }
    }
  }

  lemma SweepRowSkips(db: Db, w: Worker, now: Time, timeout: Time)
    requires Constraints(db) && !TimedOut(w, now, timeout)
    ensures SweepRow(db, w, now, timeout) == db
  {
  }

  /** From every reachable state and in every row order, the sweep over its stale snapshot ends
      where the simple form does: exactly the timed-out workers are offline, exactly the clusters
      they were in are terminated with all members released, and nothing else has changed. */
  lemma SweepIsSimple(cfg: Settings, db: Db, now: Time, timeout: Time)
    requires Constraints(db) && Inv(cfg, db)
    ensures Sweep(db, now, timeout) == Retire(db, Dead(db, now, timeout), Broken(db, Dead(db, now, timeout)))
    ensures Inv(cfg, Sweep(db, now, timeout))
  {
    hide Inv, Constraints, Retire, SweepFirst, TimedOut;
    var dead := Dead(db, now, timeout);
    ScanCoversDead(db, now, timeout);
    BrokenCovers(db, dead);
    RetireKeeps(cfg, db, dead, Broken(db, dead));
    SweepFirstRetires(cfg, db, |Rows(db)|, now, timeout);
  }

  lemma BrokenCovers(db: Db, dead: set<WorkerId>)
    ensures Covers(db, dead, Broken(db, dead))
  {
  }

  lemma ScanCoversDead(db: Db, now: Time, timeout: Time)
    requires Constraints(db)
    ensures DeadAmong(db, |Rows(db)|, now, timeout) == Dead(db, now, timeout)
  {
    hide TimedOut;
    var dead := Dead(db, now, timeout);
    assert db.scan[..|Rows(db)|] == db.scan;
    assert forall w :: w in dead ==> w in Elements(db.scan);
  }
}
