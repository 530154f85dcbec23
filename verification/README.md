# A verified model of the pool server's cluster lifecycle

The pool server groups volunteer machines into clusters that serve a model. Workers register, send
heartbeats and report readiness; the scheduler forms clusters from waitlists, the liveness monitor takes
silent workers offline, and clusters with a missing member are dissolved. All of it is rows in three
tables (`workers`, `clusters`, `cluster_members`) that request handlers and the sweep rewrite one by one.

This project models that control plane as a state machine and proves what every reachable state, every run
and every report sequence has in common. The places where the code updates things step by step are Dafny
methods with loops over the same rows; each is proved to compute a function of the database value, and the
properties are proved about those functions.

## How it is organised

| files | content |
|---|---|
| `Basics`, `Models`, `Text` | optional values, record and row types, the string operations |
| `Tables`, `Rings`, `Readiness`, `Store` | the database as a value; membership rows against the record view; the readiness gate; the class that rewrites the tables |
| `Addressing`, `Waitlists`, `Scheduling`, `Scheduler` | subnets and addresses, FIFO choice, forming and dissolving; the class that does it |
| `Invariants`, `Liveness`, `Transitions`, `Handlers`, `App`, `Steps`, `Runs` | the invariant, the sweep, the request handlers, one step, whole runs |
| `Outcomes`, `Reports`, `Registrations` | what each request and the sweep leave behind, row by row; what is on record about a cluster and who is in the worker table, over runs |
| `Consequences`, `Advertisements`, `Settling`, `Formation`, `Reregistration`, `Exhaustion`, `Locks` | what follows in every reachable state; what rounds form, repeated and over runs; the exact condition on re-registration; a run that uses up the subnets; lock-level interleavings |
| `Ranks`, `Accounting`, `Statistics`, `Migration`, `Sessions`, `Router` | layer reports, attribution of usage and its statistics, moving membership out of JSON, session tokens, routing |

A state is a `Db` value; a step is a value of `Steps.Step`; a run is a sequence of worlds and steps that
satisfies `Runs.Execution`, on a clock that does not go back. A handler runs to its end without awaiting,
so it is one step; only `Locks` splits a dissolve into the read and the later write of its snapshot.
`Rescan` lets the engine return table scans in another order at any time.

## Where code, comments and promises part

- Re-registering a device resets its status and takes it offline but keeps `cluster_id`, `assigned_ip` and
  `ring_position` (app.py:662-669). The agreement between rows and clusters holds over runs in which a
  device in a cluster does not register again; `ReregistrationExactly` shows the condition to be exact, and
  `DeviceInTwoClusters` is a run that breaks it.
- The comment at app.py:599-603 says that workers of a model without a registered hash (the dev default
  `<no-hash>`) are still grouped by advertised hash. config.py:116 stores that default as a nonempty text, so
  every registration is rejected as a mismatch; an empty hash is not enforced, but scheduler.py:157-159 looks
  for the registered hash only. A registration carries 64 characters (models.py:97), so no cluster of a model
  whose registered hash has any other length exists in any state of any run (`UnhashedModelNeverForms`).
- The comment at store.py:300-302 prunes the stale rows of a re-formed cluster. The upserts come first and
  meet UNIQUE (cluster_id, ring_position): the stored list can only be extended at the end or cut off there
  (`SaveFailsExactly`, `SaveReformedExactly`; `PairNotReformed` is a failing pair). The scheduler never
  re-forms a cluster under its old identifier.
- docs/protocol/usage-and-accounting.md:59-61 says that the shares of all members sum to 1. They do exactly
  as long as no contributing worker row has been deleted (`SharesConserved`); the limitation at lines 86-96
  of that document is the other case: a deletion takes away exactly the worker's own share
  (`DeletionTakesShare`), and in `SharesAfterDeletion` 3/4 remain.
- store.py:441-461 gives live clusters an explicit distribution, but looks for SQL NULL only; a live cluster
  whose column holds the text `null` or broken JSON stays unreported (`LiveEndsReported`,
  `LiveLeftUnreported`), and the snapshot path treats it differently (`SamePath`).
- A terminated cluster's ready set and windows are fixed at handler granularity (`HistoryPreserved`). Under
  arbitrary interleaving of lock-protected operations they are fixed exactly when no dissolving thread holds
  a snapshot that differs from what is stored (`FrozenExactly`); `RaceRewrites` is the failing family. The
  status is fixed in both.
- `set_cluster_distribution(None)` does not demote a live cluster: "live means the gate is open" survives
  exactly the dictionary reports and reports on clusters that are not live (`LiveGateExactly`;
  `WithdrawnDistributionStaysLive` is the failing family). No handler passes None, so runs contain
  dictionary reports only.
- docs/encountered_bugs/2026-08-12-heartbeat-500-after-cluster-formation.md:52 suspects exhausted subnets
  behind a heartbeat's 500; `RequestFailsExactly` says when that happens, and `HeartbeatFailsInRun` is a run
  that ends so.

## Model

| member | source | states |
|---|---|---|
| `Rings.LoadAfterSave` | src/prima_pool_server/store.py:228-311 | Saving a well-formed cluster record and loading it back is the identity: member order, ready set, addresses, and the difference between no, empty and zero layer windows |
| `Rings.SaveAfterLoad` | src/prima_pool_server/store.py:228-311 | Loading, changing the status and saving leaves every membership row as it was |
| `Rings.RingOrderUnique` | src/prima_pool_server/store.py:243-248 | Only one listing of the unordered rows is ordered by ring_position, so the engine cannot return another member order |
| `Rings.ResaveSucceeds` | src/prima_pool_server/store.py:272-311 | Re-saving a record with the stored member list meets UNIQUE (cluster_id, ring_position) at none of the intermediate upserts, whatever gaps the stored slots have |
| `Rings.SaveFailsExactly` | src/prima_pool_server/store.py:272-311 | For every stored ring and every record, a save fails if and only if some upsert finds its slot held by a worker that no upsert has written yet |
| `Rings.SaveReformedExactly` | src/prima_pool_server/store.py:300-311 | Of rows in slots 0, 1, 2, ..., a record can be saved if and only if its member list extends the stored one at the end or is cut off there; no reordering and no other removal gets as far as the pruning |
| `Rings.PairNotReformed` | src/prima_pool_server/store.py:300-311 | Two stored members can neither change places nor be saved without the first |
| `Rings.SaveNewSucceeds` | src/prima_pool_server/store.py:1038-1049 | A new cluster with distinct members can always be stored, and its rows are exactly the record |
| `Rings.StoredIsCompact` | src/prima_pool_server/store.py:272-311 | What a save stores has slots 0, 1, 2, ..., no empty address and no window before a report |
| `Stores.Store.SaveClusterMembers` | src/prima_pool_server/store.py:272-311 | The upsert loop and the pruning DELETE compute the specified rows, or fail where an upsert breaks the slot constraint |
| `Stores.Store.CreateCluster` | src/prima_pool_server/store.py:1038-1049 | Stores the new row and its members atomically, or changes nothing |
| `Stores.Store.UpdateCluster` | src/prima_pool_server/store.py:1071-1081 | Rewrites row and members atomically, or changes nothing |
| `Stores.Store.CreateWorkerIfAvailable` | src/prima_pool_server/store.py:979-1007 | Inserts exactly when the account is below its cap and no registered device has the same public key |
| `Stores.Store.UpdateWorker` | src/prima_pool_server/store.py:1021-1032 | Replaces one existing row and never inserts |
| `Stores.Store.DeleteWorker` | src/prima_pool_server/store.py:1034-1035 | Exactly that row is gone and every other row is as it was; exactly the keys bound to it are unbound; clusters and membership history are not touched |
| `Stores.Store.BindApiKeyToWorker` | src/prima_pool_server/store.py:812-824 | Binds an existing key to an existing worker and changes nothing else |
| `Stores.Store.CreateApiKey` | src/prima_pool_server/store.py:793-810 | Adds one key with a fresh identifier, bound to no worker: the change that step `CreateKey` of a run makes |
| `Stores.Store.RevokeApiKey` | src/prima_pool_server/store.py:834-835 | Deletes exactly that key and says whether it was there: the change that step `RevokeKey` of a run makes |
| `Stores.Store.ListClusters` | src/prima_pool_server/store.py:1178-1186 | Every cluster once, oldest first, each as it is loaded alone |
| `Stores.Store.MarkMemberReady` | src/prima_pool_server/store.py:1083-1115 | The targeted update, the re-read and the conditional flip to live, against the specified new state |
| `Stores.Store.SetClusterDistribution` | src/prima_pool_server/store.py:1117-1176 | The per-worker updates, the NOT IN clearing, the gate, and the rollback on a negative window |
| `Stores.Store.WriteWindows` | src/prima_pool_server/store.py:1146-1151 | One UPDATE for each reported worker in any order writes the same windows; a negative one of a member fails |
| `Stores.Store.ClearUnlisted` | src/prima_pool_server/store.py:1152-1165 | Rows the report leaves out lose their window, for an empty and a non-empty report |
| `Readiness.MarkReadyRefines` | src/prima_pool_server/store.py:1083-1115 | Through loading, mark_member_ready is "add the worker to the ready set if it is a member, then apply the gate" |
| `Readiness.SetDistributionRefines` | src/prima_pool_server/store.py:1117-1176 | Through loading, set_cluster_distribution is "replace the windows by the report restricted to the members, then apply the gate" |
| `Readiness.GateMeansEveryMember` | src/prima_pool_server/store.py:1105-1109 | Comparing the sizes of the ready set and the member list decides whether every member is ready |
| `Readiness.LiveExactlyWhenComplete` | src/prima_pool_server/store.py:1083-1176 | After any finite sequence of reports, in any order, with repeats and non-members, a new cluster is live if and only if every member reported ready and some distribution arrived; ready set and windows are the reporters among the members and the last report |
| `Readiness.StoredLiveExactlyWhenComplete` | src/prima_pool_server/store.py:1083-1176 | The same for the rows themselves, under the targeted updates |
| `Readiness.LiveGateExactly` | src/prima_pool_server/store.py:1132-1176 | "A live cluster's gate is open" survives a distribution report if and only if the report is a dictionary or the cluster is not live |
| `Readiness.StoredLiveGateExactly` | src/prima_pool_server/store.py:1132-1176 | The same for the rows, under the targeted updates |
| `Readiness.WithdrawnDistributionStaysLive` | src/prima_pool_server/store.py:1132-1140 | The failing family: withdrawing the distribution of any live cluster closes its gate and leaves it live |
| `Waitlists.WaitlistSpec` | src/prima_pool_server/scheduler.py:35-48 | The waitlist holds exactly the eligible rows, sorted by creation |
| `Waitlists.FirstComeFirstServed` | src/prima_pool_server/scheduler.py:35-48 | No worker is chosen ahead of an eligible one of the same waitlist that was created earlier |
| `Waitlists.SortStable` | src/prima_pool_server/scheduler.py:35-48 | Workers created at the same time stay in the order the scan returned them |
| `Waitlists.PooledTake` | src/prima_pool_server/scheduler.py:163-167 | The memory of a set of workers is that of any one of them plus that of the rest |
| `Waitlists.MemoryPooled` | src/prima_pool_server/scheduler.py:161-169 | Accumulating the memory of distinct workers one by one, in any order, gives the memory of their set |
| `Waitlists.ShortestPrefix` | src/prima_pool_server/scheduler.py:161-169 | Accumulating memory stops at the shortest nonempty sufficient prefix, and forms nothing exactly when the waitlist is empty or falls short |
| `Waitlists.PrefixBound` | src/prima_pool_server/scheduler.py:161-169 | If n workers of the least memory suffice, no cluster has more than n members |
| `Formations.FormationExact` | src/prima_pool_server/scheduler.py:147-188 | Every cluster that appears in a run consists, in ring order, of the shortest nonempty prefix of its model's waitlist that reaches the requirement, the waitlist being that of the database the step's round began with |
| `Formations.FormationComplete` | src/prima_pool_server/scheduler.py:147-188 | A round that returns forms a cluster of a registered model exactly when that waitlist is nonempty and reaches the requirement |
| `Formations.FormedRight` | src/prima_pool_server/scheduler.py:147-188 | The same in plain fields: every cluster that appears in a run consists of workers of its model and hash that waited online past their grace; its membership rows have the memory required together, no shorter prefix has it, and nobody available who was created before a member is left out |
| `Formations.FormsExactly` | src/prima_pool_server/scheduler.py:147-188 | A round that returns forms a cluster of a registered model if and only if somebody is available for it and all who are have the memory required together |
| `Formations.RequestFailsExactly` | src/prima_pool_server/scheduler.py:71-76 | From every reachable state a registration or heartbeat fails if and only if it gets to its round and active clusters plus the groups then due exceed 255; it leaves all subnets in use |
| `Formations.UnhashedModelNeverForms` | src/prima_pool_server/scheduler.py:157-159 | No cluster in any state of any run, active or terminated, is of a model whose registered hash is not of the 64 characters that a registration carries: empty, `<no-hash>` or any other placeholder |
| `Formations.RunsClearOfServer` | src/prima_pool_server/wg_server.py:99-102 | If every registration of a run offers the least memory and n workers of that size suffice for every model, no cluster in any state of the run, active or terminated, has more than n members or a member on the server's host, for every offset above n (254 by default) |
| `Exhaustion.HeartbeatApplied` | src/prima_pool_server/app.py:704-723 | When n devices have joined and nobody waits, the heartbeat of one more fails if and only if n is 255; otherwise it is grouped and one more cluster is active |
| `Exhaustion.HeartbeatFailsInRun` | src/prima_pool_server/scheduler.py:71-76 | A run of 256 devices that ends with a heartbeat that fails for want of a subnet |
| `Schedulers.Scheduler.NextSubnet` | src/prima_pool_server/scheduler.py:50-76 | Collecting used subnets and scanning the candidates finds the least free one, or none |
| `Schedulers.Scheduler.ChoosePrefix` | src/prima_pool_server/scheduler.py:161-169 | The accumulation loop returns exactly the shortest sufficient prefix; what is sufficient, `MemoryPooled` says |
| `Schedulers.Scheduler.FormCluster` | src/prima_pool_server/scheduler.py:147-214 | Forming: cluster row, membership rows and worker rows end up as specified, whether or not an exception escapes |
| `Schedulers.Scheduler.DissolveCluster` | src/prima_pool_server/scheduler.py:216-236 | The member loop and the write-back of the held record end in the specified state, which `SweepExactly` and `RevokeExactly` spell out |
| `Schedulers.Scheduler.CheckAndForm` | src/prima_pool_server/scheduler.py:249-252 | One round over the models in registry order, ended by an exception |
| `Schedulers.Scheduler.OnWorkerGone` | src/prima_pool_server/scheduler.py:254-266 | A departed worker's cluster, if it exists, is dissolved |
| `Scheduling.FormClusterForms` | src/prima_pool_server/scheduler.py:147-188 | When workers are chosen and a subnet is free, exactly one fresh cluster appears, on the least free subnet, over the chosen workers in FIFO order, and nothing else changes |
| `Scheduling.DissolveLoaded` | src/prima_pool_server/scheduler.py:216-236 | Dissolving a loaded record releases exactly its members, terminates the cluster and keeps its membership rows |
| `Scheduling.DissolveLoadedSucceeds` | src/prima_pool_server/scheduler.py:216-236 | Dissolving never fails, even on rows with gaps |
| `Addressing.SubnetRecovered` | src/prima_pool_server/scheduler.py:66-81 | Splitting an assigned address recovers the subnet it was allocated from |
| `Addressing.FirstFreeIsLeast` | src/prima_pool_server/scheduler.py:71-75 | The scan returns the least free index, or fails when all 255 are used |
| `Addressing.AllocationFailsWhenPoolFull` | src/prima_pool_server/scheduler.py:71-76 | Pigeonhole: with fewer than 255 subnets in use allocation succeeds |
| `Addressing.ServerCollision` | src/prima_pool_server/wg_server.py:99-102 | The server address equals a host address exactly when the host number is the offset |
| `Consequences.AllocationExact` | src/prima_pool_server/scheduler.py:50-76 | In every reachable state at most 255 clusters are active, and allocation fails exactly at 255 |
| `Consequences.AllocatesLeastUntaken` | src/prima_pool_server/scheduler.py:50-76 | In any database, reachable or not: allocation returns the least subnet that no active cluster has and no worker has an address in |
| `Consequences.AddressesDistinct` | src/prima_pool_server/scheduler.py:78-81 | In every reachable state no address is assigned to two workers |
| `Consequences.ServerAddressFree` | src/prima_pool_server/wg_server.py:99-102 | In every reachable state the server address meets a member of a cluster exactly when the cluster has at least offset members |
| `Consequences.FormedClearOfServer` | src/prima_pool_server/wg_server.py:99-102 | If 253 workers of the least memory suffice, a formed cluster has at most 253 members and none holds the default server address |
| `Settling.RoundGroups` | src/prima_pool_server/scheduler.py:249-252 | A round forms only groups that were due at its start and takes exactly their members off the waitlists; a round that returns forms all of them, in whatever order it visits the models |
| `Settling.RoundFailsExactly` | src/prima_pool_server/scheduler.py:50-76 | In a reachable state a round fails if and only if active clusters plus due groups exceed 255, and then it ends with 255 active clusters |
| `Settling.SettleEnds` | src/prima_pool_server/scheduler.py:249-252 | Repeated rounds at one clock reading end, with nothing left to form or with all subnets used; either way exactly the members of the groups formed have left the waitlists and every other worker row is untouched |
| `Settling.SettledWaitlists` | src/prima_pool_server/scheduler.py:147-169 | When rounds have settled, every model's waitlist is empty or below its requirement |
| `Settling.SettlesWithinPool` | src/prima_pool_server/scheduler.py:50-76 | From a reachable state with active clusters plus waiting workers at most 255, rounds settle without running out of subnets |
| `Settling.OrderIrrelevant` | src/prima_pool_server/scheduler.py:249-252 | From any tables, whether or not a run reaches them: if the rounds settle in two orders of the models, they group the same workers, for the same models and in the same ring order |
| `Settling.OrderIrrelevantReachable` | src/prima_pool_server/scheduler.py:249-252 | From every reachable state, whether the rounds settle and how many clusters end up active is the same in every order of the models; if they settle in one, the groups are the same in all |
| `Settling.OrderIrrelevantWithinPool` | src/prima_pool_server/scheduler.py:249-252 | In particular the groups are the same in every order when active clusters plus waiting workers are at most 255 |
| `Runs.RunInvariant` | src/prima_pool_server/app.py:575-783 | In every state of every run (re-registration of clustered devices excepted) worker rows, active clusters, membership rows, subnets and key bindings agree, and life signs are in time |
| `Runs.HistoryPreserved` | src/prima_pool_server/scheduler.py:216-236 | Over the rest of a run a cluster keeps identity, members, slots and addresses; once terminated, its row, ready set and windows never change |
| `Runs.FormedAfterGrace` | src/prima_pool_server/app.py:707-722 | When a cluster forms at time t, every member last came online at or before t minus the grace period |
| `Runs.MembersFresh` | src/prima_pool_server/liveness.py:38-67 | After the first sweep, while sweeps are at most an interval apart, every member of an active cluster has a heartbeat no older than timeout plus interval |
| `Outcomes.HeardIsLast` | src/prima_pool_server/app.py:704-709 | What an observer of a run remembers of a worker is the time of its last accepted heartbeat |
| `Outcomes.SweepTakesUnheard` | src/prima_pool_server/liveness.py:52-67 | In every run a sweep takes an online worker offline if and only if its last accepted heartbeat is more than the timeout ago |
| `Consequences.MemberAt` | src/prima_pool_server/scheduler.py:172-188 | In every reachable state member i of an active cluster exists, is online and assigned to it at position i, and has the address the cluster records, host i + 1 of its subnet |
| `Consequences.PointerIsMembership` | src/prima_pool_server/scheduler.py:172-188 | A worker that points to a cluster is a member of that active cluster |
| `Consequences.NoSharedMember` | src/prima_pool_server/scheduler.py:147-188 | No worker is in two active clusters |
| `Invariants.FormedKeeps` | src/prima_pool_server/scheduler.py:147-188 | Forming keeps the invariant |
| `Invariants.RetireKeeps` | src/prima_pool_server/scheduler.py:216-266 | Taking workers offline and terminating their clusters keeps the invariant |
| `Invariants.DissolvedIsRetired` | src/prima_pool_server/scheduler.py:216-236 | In a reachable state dissolving terminates the cluster, releases exactly the workers that point to it, and keeps the invariant |
| `Invariants.MarkReadyKeeps` | src/prima_pool_server/store.py:1083-1115 | A ready report keeps the invariant |
| `Invariants.DistributionKeeps` | src/prima_pool_server/store.py:1117-1176 | A distribution report keeps the invariant |
| `Invariants.HarmlessKeeps` | src/prima_pool_server/app.py:704-723 | Rewriting a row without touching its place keeps the invariant |
| `Liveness.LivenessMonitor.Check` | src/prima_pool_server/liveness.py:52-67 | The sweep loop over its snapshot, row by row, against its specification |
| `Liveness.SweepIsSimple` | src/prima_pool_server/liveness.py:52-67 | From every reachable state and in any row order the sweep over a stale snapshot takes exactly the timed-out workers offline, terminates exactly the clusters they were in, releases all their members and changes nothing else |
| `Outcomes.SweepExactly` | src/prima_pool_server/liveness.py:52-67 | The same in plain fields: exactly the silent workers go offline; a cluster with a silent member is terminated and each of its members is waitlisted without cluster, address or position, with its advertisement and life signs as before; nothing else changes |
| `Outcomes.WaitsAgain` | src/prima_pool_server/scheduler.py:224-233 | A waitlisted worker is in its model's waitlist exactly when it is online and its grace is over |
| `Apps.PoolApp.WorkerFromKey` | src/prima_pool_server/app.py:368-394 | The lookup with its ownership check and the healing of the key binding, exactly as `WorkerFromKeyExactly` spells out |
| `Apps.PoolApp.BoundWorker` | src/prima_pool_server/app.py:396-427 | Resolves the member a caller speaks for |
| `Apps.PoolApp.RegisterWorker` | src/prima_pool_server/app.py:575-687 | Registration, including rejection, re-registration and the round of formation |
| `Apps.PoolApp.EnrollWorker` | src/prima_pool_server/app.py:639-682 | Creation or re-advertisement of the device, and the key binding |
| `Apps.PoolApp.Heartbeat` | src/prima_pool_server/app.py:704-723 | The life signs, the grace period and the round of formation, exactly as `HeartbeatExactly` spells out |
| `Apps.PoolApp.RevokeWorker` | src/prima_pool_server/app.py:689-694 | Leaving the cluster, then deletion |
| `Apps.PoolApp.ReportReady` | src/prima_pool_server/app.py:739-783 | The head's layers first, then the caller's ready mark, exactly as `ReadyExactly` spells out |
| `Apps.PoolApp.HandleFrame` | src/prima_pool_server/app.py:1156-1211 | Only the head of the named cluster is heard |
| `Steps.BoundWorkerSound` | src/prima_pool_server/app.py:396-427 | In every reachable state _bound_worker returns only a member of that cluster owned by the caller, and the key's own worker whenever it is in the cluster |
| `Outcomes.WorkerFromKeyExactly` | src/prima_pool_server/app.py:368-394 | For every credential: a worker is returned if and only if the credential is a worker key or the session of the account that owns it; a key is then bound to it, and nothing else changes |
| `Outcomes.BoundWorkerExactly` | src/prima_pool_server/app.py:396-427 | The key's own worker if it is in the cluster; otherwise the account's worker there if there is exactly one, and the key is bound to it; otherwise nobody |
| `Outcomes.HeartbeatExactly` | src/prima_pool_server/app.py:704-723 | A heartbeat is denied, changing nothing, unless the caller owns the worker; otherwise the row is online with this heartbeat, a grace starts if it was offline, and nothing else of any row changes but its place |
| `Outcomes.RevokeExactly` | src/prima_pool_server/app.py:689-694 | Revoking is denied, changing nothing, unless the caller owns the worker; otherwise the row is gone, its cluster is terminated, its partners are waitlisted with everything else as before, and every other row is untouched |
| `Registrations.RegisterExactly` | src/prima_pool_server/app.py:575-687 | A registration is denied, leaving all tables alone, exactly unless a worker key presents an acceptable body for an account below its cap; then the device's row is re-advertised, or a new one is created now, the key is bound to it, and other rows change their place at most |
| `Registrations.RunOrderly` | src/prima_pool_server/store.py:979-1007 | In every state of every run no account is above its cap, no account has two workers for one device, and every worker advertises a registered model with its registered hash |
| `Registrations.CreatedInOrder` | src/prima_pool_server/app.py:634-662 | Over runs a worker carries the time of its registration, so of two workers the one registered earlier is not behind the other |
| `Reports.ReadyExactly` | src/prima_pool_server/app.py:739-783 | A ready report is denied, changing nothing, unless the caller speaks for a member; otherwise it marks that very member, sets everybody's window if it is the head and brings layers, and the cluster is live exactly when complete |
| `Reports.FrameExactly` | src/prima_pool_server/app.py:1156-1211 | A layer frame changes nothing unless its sender heads the cluster it names; then it sets everybody's window and marks nobody |
| `Reports.ReportsOnRecord` | src/prima_pool_server/app.py:739-783 | In every state of every run a cluster, active or terminated, has the ready marks of exactly the members whose own reports were accepted, layers if and only if its head reported some, and the windows of the newest report |
| `Reports.LiveExactlyWhenReported` | src/prima_pool_server/store.py:1083-1176 | In every state of every run a cluster that has not ended is live if and only if each member's own ready report and a layer report of its head were accepted |
| `Steps.WorkerFromKeyFacts` | src/prima_pool_server/app.py:368-394 | Healing a binding keeps the invariant; the worker returned is the stored row |
| `Steps.RegisterFacts` | src/prima_pool_server/app.py:575-687 | Registration keeps invariant, cluster history and life signs, unless it re-advertises a device in a cluster |
| `Steps.HeartbeatFacts` | src/prima_pool_server/app.py:704-723 | A heartbeat and its round of formation keep invariant and cluster history |
| `Steps.RevokeFacts` | src/prima_pool_server/app.py:689-694 | Revoking keeps invariant and cluster history, and the row is gone |
| `Steps.ReadyFacts` | src/prima_pool_server/app.py:739-783 | A ready report with or without layers keeps invariant and cluster history |
| `Steps.FrameFacts` | src/prima_pool_server/app.py:1156-1211 | A layer frame keeps invariant and cluster history |
| `Reregistration.ReregistrationExactly` | src/prima_pool_server/app.py:654-675 | From every reachable state a re-registration keeps the invariant if and only if the device is in no cluster |
| `Reregistration.DeviceInTwoClusters` | src/prima_pool_server/app.py:662-669 | A five-step run in which re-registering an assigned device ends with one worker in two active clusters |
| `Ranks.RestDistribution` | src/prima_pool_server/app.py:755-770 | The REST rank loop computes the specified worker-keyed distribution |
| `Ranks.FrameDistribution` | src/prima_pool_server/app.py:1181-1200 | The WebSocket rank loop computes the same one, and an empty one for anything but an object |
| `Ranks.LastEntryWins` | src/prima_pool_server/app.py:758-765 | Only members are credited; a member exactly when some entry names its position, and with the last such entry |
| `Ranks.LastCreditWins` | src/prima_pool_server/app.py:755-770 | The same from the payload: entries that are no integers or negative count for nothing, zero counts |
| `Ranks.CanonicalPayload` | src/prima_pool_server/app.py:755-770 | On a payload with decimal, in-range, distinct ranks members[i] is credited if and only if rank i comes with a nonnegative integer, and with that number |
| `Ranks.CanonicalCredit` | src/prima_pool_server/app.py:758-765 | On decimal, in-range, distinct ranks members[i] is credited exactly when rank i is reported, with that count |
| `Ranks.CanonicalTotal` | src/prima_pool_server/app.py:758-765 | And the layer total is preserved |
| `Locks.TerminatedIsAbsorbing` | src/prima_pool_server/store.py:1071-1176 | Under every interleaving of lock-protected operations, dissolves split into read and write, a terminated cluster stays terminated and keeps model, subnet, members, addresses and gap-free slots |
| `Locks.DissolveTerminates` | src/prima_pool_server/scheduler.py:216-236 | Every dissolve that read its cluster terminates it and leaves exactly what it had read, whatever happened in between |
| `Locks.TerminatedChangesExactly` | src/prima_pool_server/store.py:1071-1176 | The only action that changes the record of a terminated cluster is the write of a snapshot that differs from it by more than the status |
| `Locks.FrozenExactly` | src/prima_pool_server/scheduler.py:216-266 | From any state of any schedule on, the record of a terminated cluster is frozen under every continuation if and only if no thread holds a snapshot that differs from it |
| `Locks.RaceRewrites` | src/prima_pool_server/scheduler.py:254-266 | The failing family: from every state, two dissolves around a ready report write the reporter into the ready set of an already terminated cluster, which changes it if and only if the reporter was not ready before |
| `Locks.ReadySetNotFrozen` | src/prima_pool_server/scheduler.py:254-266 | One such schedule, from the state that a three-step run reaches |
| `Accounting.SharesConserved` | src/prima_pool_server/store.py:923-936 | Over the answers of all accounts the shares of a request add up to at most 1, and to 1 exactly when every member with a positive window still has its worker row |
| `Accounting.TokensConserved` | src/prima_pool_server/app.py:80-89 | The effective tokens of all accounts never exceed the true ones, and reach them exactly when there are none or no contributing row was deleted |
| `Accounting.DeletionTakesShare` | src/prima_pool_server/store.py:923-936 | Deleting a worker lowers the sum of the shares of every past request, over the answers of all accounts, by exactly the worker's own share |
| `Accounting.SharesAfterDeletion` | src/prima_pool_server/store.py:923-936 | A state with a deleted contributor, in which the shares of a request add up to 3/4 |
| `Accounting.WorkerStats` | src/prima_pool_server/app.py:1138-1152 | The aggregation loop equals the fold of the individual log entries for each model, null counted as 0 |
| `Statistics.StatsConserved` | src/prima_pool_server/app.py:1138-1152 | Over the statistics of all accounts, the effective tokens of a model in a window never exceed those of its requests, and equal them if and only if every request with tokens still has the rows of all members with layers |
| `Statistics.TotalsCountWorkers` | src/prima_pool_server/app.py:1138-1152 | An account's total tokens of a model are those of the window's requests, each as often as the account has workers that served it |
| `Statistics.NamedWorkers` | src/prima_pool_server/store.py:923-936 | Naming workers keeps exactly their rows of the answer |
| `Accounting.StatsAdditive` | src/prima_pool_server/store.py:923-944 | Statistics are additive over adjacent half-open windows, however ties are ordered |
| `Migration.Database.MigrateSchema` | src/prima_pool_server/store.py:434-476 | The in-place step: all clusters converted, or everything rolled back |
| `Migration.Database.ConvertClusters` | src/prima_pool_server/store.py:512-563 | The loop over the clusters, in any order |
| `Migration.Database.Populate` | src/prima_pool_server/store.py:542-554 | The INSERT OR IGNORE loop |
| `Migration.MigrateFromJson` | src/prima_pool_server/store.py:641-677 | The snapshot loop, with INSERT OR IGNORE for clusters and members |
| `Migration.MigrationPreserves` | src/prima_pool_server/store.py:512-563 | Every cluster keeps its members (first occurrences, in order), ready set, addresses and windows |
| `Migration.MigratedColumns` | src/prima_pool_server/store.py:512-563 | The same column by column: a loaded cluster has the members its column lists, those with a negative window aside, and about them what the other columns say; a column that is NULL, broken or of another shape says nothing |
| `Migration.MigrationFailsExactly` | src/prima_pool_server/store.py:512-563 | The step fails, and is rolled back, if and only if some member column is the text null or other JSON that is no list |
| `Migration.MigrationResumes` | src/prima_pool_server/store.py:512-563 | Running again after an interrupted attempt ends where one clean run does |
| `Migration.MigrationIdempotent` | src/prima_pool_server/store.py:434-476 | Reopening a migrated database changes nothing: immediate, as the columns that trigger the step are gone; after an interruption `MigrationResumes` carries the weight |
| `Migration.LiveEndsReported` | src/prima_pool_server/store.py:441-461 | A live cluster ends up reported if and only if it already was or its column is neither the text null nor broken JSON |
| `Migration.OthersEndAsReported` | src/prima_pool_server/store.py:441-461 | Any other cluster ends up reported if and only if it already was or its column holds a JSON value other than null |
| `Migration.LiveLeftUnreported` | src/prima_pool_server/store.py:441-461 | A live cluster whose column holds the text null stays unreported |
| `Migration.SamePath` | src/prima_pool_server/store.py:641-677 | For the same logical cluster the two paths store the same members, and the same row except for a live cluster whose missing distribution is the text null |
| `Migration.PathsAgree` | src/prima_pool_server/store.py:596-690 | Both paths produce the same tables from the same logical data |
| `Sessions.VerifySign` | src/prima_pool_server/security.py:84-107 | For every token, dots included, and every expiry, verifying a signed session gives back token and expiry exactly until it expires |
| `Sessions.VerifiedExactly` | src/prima_pool_server/security.py:91-107 | A text verifies if and only if it is the prefix, a token, any spelling int() reads as the expiry, and the digest of token, dot and expiry; and it has not expired |
| `Sessions.SignInjective` | src/prima_pool_server/security.py:84-88 | No two sessions share a signed form |
| `Sessions.DigestForOneSession` | src/prima_pool_server/security.py:91-107 | If different texts have different digests, the digest of one session makes no other token or expiry verify |
| `Text.ParseIntText` | src/prima_pool_server/security.py:98-99 | int() undoes str() for every integer |
| `Text.SignedInt` | src/prima_pool_server/security.py:98-99 | int() also reads signs and leading zeros |
| `Text.PaddedInt` | src/prima_pool_server/security.py:98-99 | White space around a number does not matter to int() |
| `Text.Underscored` | src/prima_pool_server/security.py:98-99 | Nor does a single underscore between digits |
| `Text.DigitsOnly` | src/prima_pool_server/security.py:98-99 | Nothing but digits with single underscores between them is a magnitude |
| `Text.RSplitTwiceJoined` | src/prima_pool_server/security.py:98 | Cutting twice from the right recovers the fields even if the first contains dots |
| `Routers.ClusterRouter.FindLiveCluster` | src/prima_pool_server/router.py:23-28 | Returns the oldest live cluster of the model, and none exactly when there is none |
| `Routers.HeadReachable` | src/prima_pool_server/router.py:30-42 | In every reachable state the URL leads to the worker at ring position 0: online, of that model, in a cluster that is fully ready and reported, at its own address |

## Left out

- Runs.RunInvariant: runs exclude the registration of a device that is in a cluster, because there the claim is false (see `ReregistrationExactly`), and the heartbeat timeout is nonnegative.
- Runs.HistoryPreserved: like every statement over runs, under the same exclusion.
- Formations.FormationExact: the registry lists each model once, as a dictionary does.
- Formations.FormedRight: under the same condition.
- Consequences.AllocatesLeastUntaken: for tables in which every assigned address is a host of the pool's prefix.
- Sessions.DigestForOneSession: for an idealised hmac that maps different texts to different digests.
- Settling.OrderIrrelevantReachable: the groups are the same when the rounds settle; when they run out of subnets, the order decides who still gets one.
- Migration.PathsAgree: for distinct cluster identifiers, and without live clusters whose missing distribution is the text null, where the two paths differ.
- Accounting.TokensConserved: for requests with a nonnegative token count and a cluster with a positive layer total; otherwise nothing is credited.
- Identifiers, slugs and public keys are tokens compared for equality; new identifiers are assumed fresh.
- Clock readings are parameters that do not decrease, one reading for each handler; times, shares and effective tokens are reals, so floating-point rounding is not modelled.
- The SQLite engine: tables are maps with the declared primary keys, unique and CHECK constraints; transactions are atomic.
- Python's limit of 4300 digits, beyond which `int()` and `str()` raise.
- The subnet prefix is its default, 10.23; texts are ASCII, so `int()` of other digits and `compare_digest` on non-ASCII text are not modelled.
- Hardware descriptions, the endpoint host observed from the connection, and free-form fields of records.
- Account permissions, bans, the admin guard, password hashing and key secrets: a credential is resolved to an account and, for a key, to its bound worker.
- The cluster configuration handed to members (`_build_cluster_config`), WireGuard key generation, configuration files and `wg-quick` calls, apart from the server address.
- WebSocket delivery and scheduled notifications, which change no stored state.
- FastAPI routing, Pydantic validation beyond the ranges used here, error rendering, the proxy to the head and its token counting.
- The monitor's timer and its retry after an exception: sweeps are steps that may happen at any time.
- Account-level usage queries, log limits and the other table migrations, which would only add easy members.
- The layer report of a JSON object with non-string keys, which JSON does not have.
