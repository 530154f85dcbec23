/** The request handlers over the store (app.py). */
module Apps {
  import opened Basics
  import opened Models
  import opened Tables
  import opened Scheduling
  import opened Stores
  import opened Schedulers
  import opened Ranks
  import H = Handlers
  import R = Readiness

  class PoolApp {
    const store: Store
    const settings: Settings
    const scheduler: Scheduler

    constructor (store: Store, settings: Settings)
      ensures this.store == store && this.settings == settings
      ensures scheduler.store == store && scheduler.settings == settings
    {
      this.store := store;
      this.settings := settings;
      this.scheduler := new Scheduler(store, settings);
    }

    ghost predicate Valid()
      reads store
    {
      store.Valid() && scheduler.store == store && scheduler.settings == settings
    }

    method WorkerFromKey(cred: H.Credential, id: WorkerId) returns (w: Option<Worker>)
      requires Valid()
      modifies store
      ensures Valid() && H.Found(store.View(), w) == H.WorkerFromKey(old(store.View()), cred, id)
    {
      H.WorkerFromKeyConstraints(store.View(), cred, id);
      var caller := H.Resolve(store.View(), cred);
      if caller.None? {
        return None;
      }
      w := store.GetWorker(id);
      if w.None? {
        return;
      }
      if w.value.accountId != caller.value.accountId {
        return None;
      }
      if caller.value.key.Some? && caller.value.bound != Some(id) {
        store.BindApiKeyToWorker(caller.value.key.value, id);
      }
    }

    method BoundWorker(cred: H.Credential, c: ClusterId) returns (w: Option<Worker>)
      requires Valid()
      modifies store
      ensures Valid() && H.Found(store.View(), w) == H.BoundWorker(old(store.View()), cred, c)
    {
      H.BoundWorkerConstraints(store.View(), cred, c);
      var caller := H.Resolve(store.View(), cred);
      if caller.None? {
        return None;
      }
      if caller.value.bound.Some? {
        w := store.GetWorker(caller.value.bound.value);
        if w.Some? && w.value.clusterId == Some(c) {
          return;
        }
      }
      var rows := store.ListWorkers();
      var matches := H.MembersOf(rows, caller.value.accountId, c);
      if |matches| == 1 {
        if caller.value.key.Some? {
          store.BindApiKeyToWorker(caller.value.key.value, matches[0].workerId);
        }
        return Some(matches[0]);
      }
      w := None;
    }

    method RegisterWorker(cred: H.Credential, body: H.RegisterBody, now: Time) returns (reply: H.Reply)
      requires Valid()
      modifies store
      ensures Valid() && H.Outcome(store.View(), reply) == H.Register(settings, old(store.View()), cred, body, now)
    {
      if !(cred.KeyCredential? && cred.key in store.keys && store.keys[cred.key].scope == WorkerScope) {
        return H.Denied;
      }
      if !H.Admissible(settings, body) {
        return H.Denied;
      }
      var enrolled := EnrollWorker(cred.key, body, now);
      if !enrolled {
        return H.Denied;
      }
      var ok := scheduler.CheckAndForm(now);
      reply := if ok then H.Ok else H.Failed;
    }

    method EnrollWorker(k: KeyId, body: H.RegisterBody, now: Time) returns (ok: bool)
      requires Valid() && k in store.keys
      modifies store
      ensures Valid() && ok == H.Enroll(settings, old(store.View()), k, body, now).Some?
      ensures store.View() == if ok then H.Enroll(settings, old(store.View()), k, body, now).value
                              else old(store.View()).(next := old(store.View()).next + 1)
    {
      hide OfAccount, DeviceTaken, Rows, H.FirstDevice, InsertWorker, PutWorker, BindKey;
      var account := store.keys[k].accountId;
      var id := store.NewId();
      var rec := H.NewWorker(id, account, body, now);
      var created := store.CreateWorkerIfAvailable(rec, settings.maxWorkersPerAccount);
      if !created {
        var existing := OfAccount(Rows(store.View()), account);
        if |existing| >= settings.maxWorkersPerAccount {
          return false;
        }
        var prev := H.FirstDevice(existing, body.wgPubkey);
        if prev.None? {
          return false;
        }
        var w := prev.value;
        w := w.(endpoint := body.endpoint);
        w := w.(model := body.model, gguf := body.gguf, memory := body.memory);
        w := w.(status := Waitlisted, online := false);
        store.UpdateWorker(w);
        store.BindApiKeyToWorker(k, w.workerId);
      } else {
        store.BindApiKeyToWorker(k, rec.workerId);
      }
      ok := true;
    }

    method Heartbeat(cred: H.Credential, id: WorkerId, now: Time) returns (reply: H.Reply)
      requires Valid()
      modifies store
      ensures Valid() && H.Outcome(store.View(), reply) == H.Heartbeat(settings, old(store.View()), cred, id, now)
    {
      hide CheckAndForm, H.WorkerFromKey;
      var found := WorkerFromKey(cred, id);
      if found.None? {
        return H.Denied;
      }
      var w := found.value;
      var wasOffline := !w.online;
      w := w.(online := true);
      w := w.(lastHeartbeat := now);
      if wasOffline {
        w := w.(assignableAt := now + settings.assignableGrace);
        if w.status == Registered {
          w := w.(status := Waitlisted);
        }
      }
      store.UpdateWorker(w);
      var ok := scheduler.CheckAndForm(now);
      reply := if ok then H.Ok else H.Failed;
    }

    method RevokeWorker(cred: H.Credential, id: WorkerId) returns (reply: H.Reply)
      requires Valid()
      modifies store
      ensures Valid() && H.Outcome(store.View(), reply) == H.Revoke(old(store.View()), cred, id)
    {
      var w := WorkerFromKey(cred, id);
      if w.None? {
        return H.Denied;
      }
      var ok := scheduler.OnWorkerGone(w.value);
      if !ok {
        return H.Failed;
      }
      var _ := store.DeleteWorker(id);
      reply := H.Ok;
    }

    method ReportReady(cred: H.Credential, c: ClusterId, layers: Option<Payload>) returns (reply: H.Reply)
      requires Valid()
      modifies store
      ensures Valid() && H.Outcome(store.View(), reply) == H.Ready(old(store.View()), cred, c, layers)
    {
      hide R.SetDistribution, R.MarkReady;
      var cluster := store.GetCluster(c);
      if cluster.None? {
        return H.Denied;
      }
      var w := BoundWorker(cred, c);
      if w.None? {
        return H.Denied;
      }
      var payload := if layers.Some? then layers.value else [];
      H.DistributeConstraints(store.View(), c, ByWorker(cluster.value.members, Counts(payload)));
      if layers.Some? && w.value.ringPosition == Some(0) {
        var windows := RestDistribution(cluster.value.members, layers.value);
        H.DistributeIsStoreOperation(store.View(), c, windows);
        var _ := store.SetClusterDistribution(c, Some(windows));
      }
      var _ := scheduler.OnReady(c, w.value.workerId);
      reply := H.Ok;
    }

    method HandleFrame(id: WorkerId, c: ClusterId, frame: FrameWindows)
      requires Valid()
      modifies store
      ensures Valid() && store.View() == H.Frame(old(store.View()), id, c, frame)
    {
      hide R.SetDistribution;
      var w := store.GetWorker(id);
      if w.None? || w.value.clusterId.None? {
        return;
      }
      if w.value.ringPosition != Some(0) {
        return;
      }
      if w.value.clusterId != Some(c) {
        return;
      }
      var cluster := store.GetCluster(c);
      if cluster.None? {
        return;
      }
      var windows := FrameDistribution(cluster.value.members, frame);
      H.DistributeIsStoreOperation(store.View(), c, windows);
      var _ := store.SetClusterDistribution(c, Some(windows));
    }
  }
}
