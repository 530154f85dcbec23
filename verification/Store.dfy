/** The store: tables that its methods rewrite in place (store.py, class Store). Each method is
    one transaction under the lock and is proved against the operation on the database value. */
module Stores {
  import opened Basics
  import opened Models
  import opened Rings
  import opened Tables
  import R = Readiness

  class Store {
    var workers: map<WorkerId, Worker>
    var scan: seq<WorkerId>
    var clusters: map<ClusterId, ClusterRow>
    var rings: map<ClusterId, Ring>
    var keys: map<KeyId, ApiKey>
    var next: nat

    function View(): Db
      reads this
    {
      Db(workers, scan, clusters, rings, keys, next)
    }

    ghost predicate Valid()
      reads this
    {
      Constraints(View())
    }

    constructor ()
      ensures Valid() && View() == EMPTY
    {
      workers, scan, clusters, rings, keys, next := map[], [], map[], map[], map[], 1;
    }

    /** security.new_id: an identifier never drawn before. */
    method NewId() returns (id: nat)
      modifies this`next
      ensures id == old(next) && View() == old(View()).(next := id + 1)
    {
      id := next;
      next := next + 1;
    }

    // ---- workers ----

    method GetWorker(w: WorkerId) returns (row: Option<Worker>)
      ensures row == WorkerAt(View(), w)
    {
      row := if w in workers then Some(workers[w]) else None;
    }

    method ListWorkers() returns (rows: seq<Worker>)
      requires Valid()
      ensures rows == Rows(View())
    {
      rows := Rows(View());
    }

    method UpdateWorker(w: Worker)
      requires Valid()
      modifies this`workers
      ensures Valid() && View() == PutWorker(old(View()), w)
    {
      PutWorkerConstraints(View(), w);
      if w.workerId in workers {
        workers := workers[w.workerId := w];
      }
    }

    /** The per-account cap and the one-device-one-worker rule, checked and inserted atomically. */
    method CreateWorkerIfAvailable(rec: Worker, cap: int) returns (created: bool)
      requires Valid()
      modifies this`workers, this`scan
      ensures Valid()
      ensures created == CanCreate(old(View()), rec, cap)
      ensures View() == if created then InsertWorker(old(View()), rec) else old(View())
    {
      var existing := OfAccount(Rows(View()), rec.accountId);
      if |existing| >= cap {
        return false;
      }
      var i := 0;
      while i < |existing|
        invariant 0 <= i <= |existing|
        invariant View() == old(View())
        invariant !DeviceTaken(existing[..i], rec.wgPubkey)
      {
        if existing[i].wgPubkey == rec.wgPubkey && existing[i].status != Registered {
          return false;
        }
        i := i + 1;
      }
      assert existing[..i] == existing;
      if rec.workerId in workers {
        return false;
      }
      InsertWorkerConstraints(View(), rec);
      workers := workers[rec.workerId := rec];
      scan := scan + [rec.workerId];
      created := true;
    }

    method DeleteWorker(w: WorkerId) returns (deleted: bool)
      requires Valid()
      modifies this`workers, this`scan, this`keys
      ensures Valid() && deleted == (w in old(workers))
      // exactly the row of w is gone
      ensures forall v :: v in workers <==> v in old(workers) && v != w
      ensures forall v :: v in workers ==> workers[v] == old(workers)[v]
      // exactly the keys bound to w are unbound
      ensures keys.Keys == old(keys).Keys
      ensures forall k :: k in keys && old(keys)[k].workerId == Some(w) ==> keys[k] == old(keys)[k].(workerId := None)
      ensures forall k :: k in keys && old(keys)[k].workerId != Some(w) ==> keys[k] == old(keys)[k]
      // clusters and membership history are not touched
      ensures clusters == old(clusters) && rings == old(rings) && next == old(next)
      ensures View() == DropWorker(old(View()), w)
    {
      DropWorkerConstraints(View(), w);
      deleted := w in workers;
      keys := UnbindKeys(keys, w);
      workers := workers - {w};
      scan := Without(scan, w);
    }

    /** ON DELETE SET NULL, key by key. */
    static method UnbindKeys(before: map<KeyId, ApiKey>, w: WorkerId) returns (keys: map<KeyId, ApiKey>)
      ensures keys == Unbound(before, w)
    {
      keys := before;
      var rest := before.Keys;
      while rest != {}
        invariant rest <= before.Keys && keys.Keys == before.Keys
        invariant forall k :: k in keys ==> keys[k] == if k in rest then before[k] else UnboundKey(before[k], w)
        decreases rest
      {
        var k :| k in rest;
        if keys[k].workerId == Some(w) {
          keys := keys[k := keys[k].(workerId := None)];
        }
        rest := rest - {k};
      }
    }

    // ---- keys ----

    method BindApiKeyToWorker(k: KeyId, w: WorkerId)
      requires Valid()
      modifies this`keys
      ensures Valid() && View() == BindKey(old(View()), k, w)
    {
      BindKeyConstraints(View(), k, w);
      if k in keys && w in workers {
        keys := keys[k := keys[k].(workerId := Some(w))];
      }
    }

    method CreateApiKey(account: AccountId, scope: KeyScope) returns (k: KeyId)
      requires Valid()
      modifies this`keys, this`next
      ensures k == old(next)
      ensures Valid() && View() == old(View()).(keys := old(keys)[k := ApiKey(account, scope, None)], next := k + 1)
    {
      k := NewId();
      keys := keys[k := ApiKey(account, scope, None)];
    }

    method RevokeApiKey(k: KeyId) returns (deleted: bool)
      requires Valid()
      modifies this`keys
      ensures Valid() && deleted == (k in old(keys))
      ensures View() == old(View()).(keys := old(keys) - {k})
    {
      deleted := k in keys;
      keys := keys - {k};
    }

    // ---- clusters ----

    method GetCluster(c: ClusterId) returns (rec: Option<ClusterRecord>)
      requires Valid()
      ensures rec == ClusterAt(View(), c)
    {
      rec := ClusterAt(View(), c);
    }

    /** The membership part of a transaction: one upsert a member, then the pruning DELETE, on the
        transaction's own copy of the rows. None is the IntegrityError: nothing is committed. */
    static method SaveClusterMembers(before: Ring, rec: ClusterRecord) returns (saved: Option<Ring>)
      ensures saved == SaveRing(before, rec)
    {
      var ring := before;
      var i := 0;
      while i < |rec.members|
        invariant 0 <= i <= |rec.members|
        invariant UpsertFrom(before, rec, 0) == UpsertFrom(ring, rec, i)
      {
        var written := Upsert(ring, rec.members[i], MemberValues(rec, i));
        if written.None? {
          return None;
        }
        ring := written.value;
        i := i + 1;
      }
      saved := Some(if rec.members != [] then Prune(ring, rec.members) else map[]);
    }

    method CreateCluster(rec: ClusterRecord) returns (ok: bool)
      requires Valid()
      modifies this`clusters, this`rings
      ensures Valid() && ok == InsertCluster(old(View()), rec).Some?
      ensures View() == if ok then InsertCluster(old(View()), rec).value else old(View())
    {
      if rec.clusterId in clusters {
        return false;
      }
      var ring := SaveClusterMembers(map[], rec);
      if ring.None? {
        return false;
      }
      SaveRingSlots(map[], rec);
      PutStoredConstraints(View(), rec.clusterId, R.Stored(RowOf(rec), ring.value));
      clusters := clusters[rec.clusterId := RowOf(rec)];
      rings := rings[rec.clusterId := ring.value];
      ok := true;
    }

    method UpdateCluster(rec: ClusterRecord) returns (ok: bool)
      requires Valid()
      modifies this`clusters, this`rings
      ensures Valid() && ok == WriteCluster(old(View()), rec).Some?
      ensures View() == if ok then WriteCluster(old(View()), rec).value else old(View())
    {
      if rec.clusterId !in clusters {
        return rec.members == [];
      }
      var ring := SaveClusterMembers(rings[rec.clusterId], rec);
      if ring.None? {
        return false;
      }
      SaveRingSlots(rings[rec.clusterId], rec);
      PutStoredConstraints(View(), rec.clusterId, R.Stored(RowOf(rec), ring.value));
      clusters := clusters[rec.clusterId := RowOf(rec)];
      rings := rings[rec.clusterId := ring.value];
      ok := true;
    }

    /** Commit a transaction that wrote the rows of one existing cluster. */
    method Commit(c: ClusterId, s: R.Stored)
      requires Valid() && c in clusters && UniqueSlots(s.ring)
      modifies this`clusters, this`rings
      ensures Valid() && View() == PutStored(old(View()), c, s)
    {
      PutStoredConstraints(View(), c, s);
      clusters := clusters[c := s.row];
      rings := rings[c := s.ring];
    }

    /** Re-read, evaluate the gate on fresh state, flip to live. */
    static method EvaluateGate(s: R.Stored) returns (after: R.Stored)
      requires UniqueSlots(s.ring)
      ensures after == R.Regate(s)
    {
      var rec := R.Load(0, s);
      var allReady := |rec.ready| >= |rec.members|;
      var reported := rec.layerWindows.Some?;
      after := s;
      if allReady && reported && rec.status != Terminated {
        after := s.(row := s.row.(status := Live));
      }
    }

    method MarkMemberReady(c: ClusterId, w: WorkerId) returns (rec: Option<ClusterRecord>)
      requires Valid()
      modifies this`clusters, this`rings
      ensures Valid() && View() == Tables.MarkMemberReady(old(View()), c, w)
      ensures rec == ClusterAt(View(), c)
    {
      if c !in clusters {
        return None;
      }
      var s := StoredAt(View(), c);
      if s.row.status.Terminated? {
        PutSame(View(), c);
        return ClusterAt(View(), c);
      }
      R.MarkReadyRefines(c, s, w);
      var ring := s.ring;
      if w in ring {
        ring := ring[w := ring[w].(ready := true)];
      }
      R.MarkRowSlots(s.ring, w);
      var after := EvaluateGate(s.(ring := ring));
      Commit(c, after);
      rec := ClusterAt(View(), c);
    }

    method SetClusterDistribution(c: ClusterId, windows: Option<map<WorkerId, int>>) returns (ok: bool)
      requires Valid()
      modifies this`clusters, this`rings
      ensures Valid() && ok == Tables.SetClusterDistribution(old(View()), c, windows).Some?
      ensures View() == if ok then Tables.SetClusterDistribution(old(View()), c, windows).value else old(View())
    {
      if c !in clusters || clusters[c].status.Terminated? {
        return true;
      }
      var s := StoredAt(View(), c);
      var ring := s.ring;
      if windows.None? {
        ring := R.SetWindows(ring, map[]);
        R.SetWindowsSlots(s.ring, map[]);
      } else {
        var written := WriteWindows(ring, windows.value);
        if written.None? {
          return false;
        }
        ring := ClearUnlisted(written.value, windows.value);
        WindowsWritten(s.ring, windows.value);
        R.SetWindowsSlots(s.ring, NatWindows(windows.value));
      }
      var after := EvaluateGate(R.Stored(s.row.(reported := windows.Some?), ring));
      Commit(c, after);
      ok := true;
    }

    /** One UPDATE for each reported worker, in whatever order the dictionary yields them; a
        negative window of a member fails the CHECK (None). */
    static method WriteWindows(before: Ring, windows: map<WorkerId, int>) returns (written: Option<Ring>)
      ensures written.Some? == WindowsAllowed(before, windows)
      ensures written.Some? ==> written.value == WriteSome(before, windows, windows.Keys)
    {
      var ring := before;
      var rest := windows.Keys;
      WriteNone(before, windows);
      while rest != {}
        invariant rest <= windows.Keys
        invariant ring == WriteSome(before, windows, windows.Keys - rest)
        invariant forall w :: w in windows && w !in rest && w in before ==> windows[w] >= 0
        decreases rest
      {
        var w :| w in rest;
        if w in ring {
          if windows[w] < 0 {
            return None;
          }
          ring := ring[w := ring[w].(layerWindow := Some(windows[w]))];
        }
        WriteOneMore(before, windows, windows.Keys - rest, w);
        rest := rest - {w};
        assert windows.Keys - rest == windows.Keys - (rest + {w}) + {w};
      }
      assert windows.Keys - rest == windows.Keys;
      written := Some(ring);
    }

    /** SET layer_window = NULL for the rows the report does not mention. */
    static method ClearUnlisted(ring: Ring, windows: map<WorkerId, int>) returns (cleared: Ring)
      ensures cleared == ClearOthers(ring, windows)
    {
      if windows != map[] {
        cleared := map w | w in ring ::
          if ring[w].layerWindow.Some? && w !in windows then ring[w].(layerWindow := None) else ring[w];
      } else {
        cleared := map w | w in ring ::
          if ring[w].layerWindow.Some? then ring[w].(layerWindow := None) else ring[w];
        assert windows.Keys == {};
      }
    }

    /** SELECT cluster_id FROM clusters ORDER BY created_at. */
    method SelectClusterIds() returns (ids: seq<ClusterId>)
      ensures Enumerates(ids, clusters.Keys) && OldestFirst(clusters, ids)
    {
      ids := [];
      var rest := clusters.Keys;
      while rest != {}
        invariant rest <= clusters.Keys
        invariant Distinct(ids) && OldestFirst(clusters, ids)
        invariant Elements(ids) == clusters.Keys - rest
        invariant forall i, d :: 0 <= i < |ids| && ids[i] in clusters && d in rest ==>
                    clusters[ids[i]].createdAt <= clusters[d].createdAt
        decreases rest
      {
        OldestExists(clusters, rest);
        var c :| c in rest && forall d :: d in rest ==> clusters[c].createdAt <= clusters[d].createdAt;
        assert c !in Elements(ids);
        ghost var listed := ids;
        ids := ids + [c];
        rest := rest - {c};
        assert forall d :: d in ids <==> d in listed || d == c;
        assert Elements(ids) == Elements(listed) + {c};
      }
    }

    /** The identifiers in order, then one load each. */
    method ListClusters() returns (records: seq<ClusterRecord>)
      requires Valid()
      ensures ListsClusters(View(), records)
    {
      var ids := SelectClusterIds();
      records := [];
      for i := 0 to |ids|
        invariant |records| == i
        invariant forall k :: 0 <= k < i ==> records[k].clusterId == ids[k]
        invariant forall k :: 0 <= k < i ==> ClusterAt(View(), ids[k]) == Some(records[k])
      {
        assert ids[i] in Elements(ids);
        records := records + [ClusterAt(View(), ids[i]).value];
      }
      assert ClusterIds(records) == ids;
    }
  }

  lemma {:induction false} OldestExists(clusters: map<ClusterId, ClusterRow>, rest: set<ClusterId>)
    requires rest != {} && rest <= clusters.Keys
    ensures exists c :: c in rest && forall d :: d in rest ==> clusters[c].createdAt <= clusters[d].createdAt
  {
    var c :| c in rest;
    if rest - {c} == {} {
      assert rest == {c};
    } else {
      OldestExists(clusters, rest - {c});
      var b :| b in rest - {c} && forall d :: d in rest - {c} ==> clusters[b].createdAt <= clusters[d].createdAt;
      var oldest := if clusters[c].createdAt <= clusters[b].createdAt then c else b;
      forall d | d in rest ensures clusters[oldest].createdAt <= clusters[d].createdAt {
        if d != c { assert d in rest - {c}; }
      }
    }
  }

  /** The rows after the updates of the workers in `done`. */
  ghost function WriteSome(ring: Ring, windows: map<WorkerId, int>, done: set<WorkerId>): Ring {
    map w | w in ring ::
      if w in done && w in windows && windows[w] >= 0 then ring[w].(layerWindow := Some(windows[w])) else ring[w]
  }

  function ClearOthers(ring: Ring, windows: map<WorkerId, int>): Ring {
    map w | w in ring :: if w in windows then ring[w] else ring[w].(layerWindow := None)
  }

  lemma WriteNone(ring: Ring, windows: map<WorkerId, int>)
    ensures WriteSome(ring, windows, {}) == ring
  {
  }

  lemma WriteOneMore(ring: Ring, windows: map<WorkerId, int>, done: set<WorkerId>, w: WorkerId)
    requires w in windows && (w in ring ==> windows[w] >= 0)
    ensures var some := WriteSome(ring, windows, done);
            WriteSome(ring, windows, done + {w}) ==
            if w in ring then some[w := some[w].(layerWindow := Some(windows[w]))] else some
  {
  }

  lemma WindowsWritten(ring: Ring, windows: map<WorkerId, int>)
    requires WindowsAllowed(ring, windows)
    ensures ClearOthers(WriteSome(ring, windows, windows.Keys), windows) == R.SetWindows(ring, NatWindows(windows))
  {
  }
}
