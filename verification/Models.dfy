/** The record and row types of the control plane (models.py and the table declarations of
    store.py).

    Identifiers, slugs and public keys are only ever compared for equality, so each is an opaque
    token; model hashes and addresses are text, because the one has a required length and the
    allocator takes the other apart. Clock readings are reals. */
module Models {
  import opened Basics

  type AccountId = nat
  type WorkerId = nat
  type ClusterId = nat
  type KeyId = nat
  type Token = nat
  type Hash = string
  type Time = real

  /** An empty gguf_sha256 in the model registry: no registered hash. */
  const NO_HASH: Hash := ""

  /** A hash that a registration may carry: 64 characters, whatever they are. */
  predicate FullHash(hash: Hash) {
    |hash| == 64
  }

  datatype WorkerStatus = Registered | Waitlisted | Assigned

  datatype ClusterStatus = Assembling | Live | Terminated

  datatype KeyScope = WorkerScope | UserScope

  /** A row of `workers`; the same fields make up a WorkerRecord. */
  datatype Worker = Worker(
    workerId: WorkerId,
    accountId: AccountId,
    model: Token,
    gguf: Hash,
    memory: int,
    wgPubkey: Token,
    endpoint: Token,
    status: WorkerStatus,
    online: bool,
    lastHeartbeat: Time,
    assignableAt: Time,
    clusterId: Option<ClusterId>,
    assignedIp: Option<string>,
    ringPosition: Option<nat>,
    createdAt: Time)

  /** A row of `clusters`. */
  datatype ClusterRow = ClusterRow(
    model: Token,
    subnet: string,
    status: ClusterStatus,
    createdAt: Time,
    reported: bool)

  /** A row of `cluster_members`, without its key (cluster, worker). */
  datatype MemberRow = MemberRow(
    ringPosition: nat,
    assignedIp: Option<string>,
    ready: bool,
    layerWindow: Option<nat>)

  /** The rows of `cluster_members` of one cluster, by worker: the composite primary key
      (cluster_id, worker_id) allows one row for each pair. */
  type Ring = map<WorkerId, MemberRow>

  /** ClusterRecord: the value the scheduler and the handlers see. */
  datatype ClusterRecord = ClusterRecord(
    clusterId: ClusterId,
    model: Token,
    subnet: string,
    members: seq<WorkerId>,
    status: ClusterStatus,
    ready: set<WorkerId>,
    createdAt: Time,
    ips: map<WorkerId, string>,
    layerWindows: Option<map<WorkerId, nat>>)

  /** A row of `api_keys`. */
  datatype ApiKey = ApiKey(accountId: AccountId, scope: KeyScope, workerId: Option<WorkerId>)

  datatype ModelDef = ModelDef(slug: Token, gguf: Hash, requiredMemory: int)

  /** The part of Settings that the control plane reads. */
  datatype Settings = Settings(
    models: map<Token, ModelDef>,
    modelOrder: seq<Token>,
    heartbeatTimeout: Time,
    assignableGrace: Time,
    maxWorkersPerAccount: int)

  /** `if value:` on an optional string: neither NULL nor empty. */
  predicate Truthy(text: Option<string>) {
    text.Some? && text.value != ""
  }
}
