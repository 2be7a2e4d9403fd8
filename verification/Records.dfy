/** The Control Plane's durable records: what `Store` holds and what a snapshot carries. */
module Records {

  datatype Option<+T> = None | Some(value: T) {
    function GetOr(default: T): T {
      match this
      case Some(v) => v
      case None => default
    }
  }

  datatype Node = Node(
    id: string,
    name: string,
    online: bool,
    revoked: bool,
    credential: string,
    abilities: string,
    platform: string,
    architecture: string,
    version: string,
    labels: string,
    region: string,
    dataClass: string,
    capacity: string,
    lastSeen: nat)

  /** A task's `state` column. Every text a handler never writes is `OtherState`. */
  datatype TaskState = Queued | Dispatched | Succeeded | Failed | Cancelled | TimedOut | OtherState(name: string) {
    predicate Terminal() {
      Succeeded? || Failed? || Cancelled? || TimedOut?
    }

    predicate Live() {
      Queued? || Dispatched?
    }
  }

  datatype Task = Task(
    id: string,
    requestId: string,
    actor: string,
    nodeId: string,
    ability: string,
    state: TaskState,
    idempotencyKey: string,
    program: string,
    argument: string,
    output: string,
    outputSha256: string,
    outputTruncated: bool,
    outputLimit: nat,
    exitCode: Option<int>,
    leaseUntil: nat,
    leaseToken: string,
    timeoutMs: nat)

  /** An activity's `event` column. Every text a handler never writes is `OtherEvent`. */
  datatype Event =
    | NodeCreated
    | NodeRevoked
    | NodeHeartbeat
    | CredentialRotated
    | GrantCreated
    | GrantRevoked
    | GrantRedeemed
    | ApprovalCreated
    | ApprovalConsumed
    | TaskAccepted
    | PolicyAllowed
    | TaskDispatched
    | TaskCompleted
    | TaskCancelled
    | TaskCancelledByRevoke
    | OtherEvent(name: string)

  datatype Activity = Activity(
    id: string,
    event: Event,
    nodeId: Option<string>,
    taskId: Option<string>,
    actor: Option<string>,
    timestamp: nat,
    prevHash: string,
    hash: string)

  datatype Grant = Grant(code: string, signature: string, expiresAt: nat, used: bool, revoked: bool)

  datatype Approval = Approval(
    id: string,
    nodeId: string,
    ability: string,
    program: string,
    argument: string,
    actor: string,
    expiresAt: nat,
    used: bool)

  datatype Store = Store(
    nodes: seq<Node>,
    tasks: seq<Task>,
    audit: seq<Activity>,
    grants: seq<Grant>,
    approvals: seq<Approval>)

  const EMPTY_STORE := Store([], [], [], [], [])

  const DEFAULT_TASK_TIMEOUT_MS: nat := 30_000
  const MAX_TASK_TIMEOUT_MS: nat := 300_000
  const MAX_PERSISTED_OUTPUT_BYTES: nat := 4 * 1024
  const MAX_TASK_OUTPUT_LIMIT: nat := 1024 * 1024
  const GRANT_LIFETIME_MS: nat := 300_000
  const U64_MAX: nat := 0xFFFF_FFFF_FFFF_FFFF

  function Min(a: int, b: int): int {
    if a <= b then a else b
  }

  function Max(a: int, b: int): int {
    if a >= b then a else b
  }

  /** Index of the first element satisfying `p`, or the length when there is none. */
  function FirstIndex<T>(s: seq<T>, p: T -> bool): (k: nat)
    ensures k <= |s|
    ensures k < |s| ==> p(s[k])
    ensures forall j :: 0 <= j < k ==> !p(s[j])
  {
    if s == [] then 0 else if p(s[0]) then 0 else 1 + FirstIndex(s[1..], p)
  }

  /** `iter().find` / `iter_mut().find`, as the loop it runs. */
  method Find<T>(s: seq<T>, p: T -> bool) returns (k: nat)
    ensures k == FirstIndex(s, p)
  {
    k := 0;
    while k < |s| && !p(s[k])
      invariant k <= |s|
      invariant FirstIndex(s, p) == k + FirstIndex(s[k..], p)
    {
      assert s[k..][1..] == s[k + 1..];
      k := k + 1;
    }
  }
}
