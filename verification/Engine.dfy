/**
 * The request engine over the store, as decisions and transitions.
 *
 * A handler reads the store, and either answers without saving, or edits the
 * store and asks the backend to save it. `Decide` is what each handler
 * concludes, `Apply` is the edit, and `Step` adds the backend's verdict: commit,
 * or roll memory back and answer 503.
 */
module Engine {
  import opened Records
  import Text
  import Utf8

  /** Constants of a deployment: policy, approval mode and the foreign functions the handlers call. */
  datatype Config = Config(
    onlineTtlMs: nat,
    requireApprovalRecords: bool,
    allowedAbilities: seq<string>,
    approvalRequired: seq<string>,
    allowedDataClasses: seq<string>,
    allowedActors: seq<string>,
    allowedCommands: seq<string>,
    allowsPath: string -> bool,
    validLabels: string -> bool,
    negotiate: string -> Option<string>,
    sign: (string, nat) -> string,
    verifies: (string, nat, string) -> bool,
    sha256: string -> string)

  /** The optional members of a node description, as parsed. */
  datatype NodeBody = NodeBody(
    name: Option<string>,
    platform: Option<string>,
    architecture: Option<string>,
    version: Option<string>,
    labels: Option<string>,
    region: Option<string>,
    dataClass: Option<string>,
    capacity: Option<string>)

  datatype TaskBody = TaskBody(
    nodeId: string,
    requestId: Option<string>,
    actor: Option<string>,
    ability: string,
    idempotencyKey: string,
    program: Option<string>,
    argument: string,
    approvalId: Option<string>,
    approved: bool,
    timeoutMs: Option<nat>,
    outputLimit: Option<nat>)

  datatype ResultBody = ResultBody(
    nodeId: string,
    requestId: Option<string>,
    leaseToken: string,
    state: Option<TaskState>,
    output: string,
    outputSha256: Option<string>,
    exitCode: Option<int>)

  datatype BeatBody = BeatBody(
    nodeId: string,
    protocolVersion: Option<nat>,
    abilities: Option<string>,
    platform: Option<string>,
    architecture: Option<string>,
    version: Option<string>,
    namesSchedulingMetadata: bool)

  /** A parsed request; `caller` is the authenticated actor, when there is one. */
  datatype Request =
    | CreateNode(nodeId: string, description: NodeBody, caller: Option<string>)
    | RevokeNode(nodeId: string, caller: Option<string>)
    | RotateNode(nodeId: string, caller: Option<string>)
    | CreateGrant(caller: Option<string>)
    | RevokeGrant(code: string, caller: Option<string>)
    | RedeemGrant(code: string, signature: string, nodeId: string, description: NodeBody)
    | CreateApproval(nodeId: string, ability: string, program: Option<string>, argument: string,
        claimedActor: Option<string>, caller: Option<string>)
    | CreateTask(task: TaskBody, caller: Option<string>)
    | CancelTask(taskId: string, caller: Option<string>)
    | Heartbeat(beat: BeatBody)
    | AgentTasks(nodeId: string)
    | AgentResult(taskId: string, result: ResultBody)

  datatype Reply =
    | NodeReply(status: nat, node: Node)
    | GrantReply(status: nat, grant: Grant)
    | ApprovalReply(status: nat, approval: Approval)
    | TaskReply(status: nat, task: Task)
    | LeasesReply(tasks: seq<Task>)
    | Refused(status: nat, code: string)

  /**
   * One request as the engine meets it: the clock, whether the backend will
   * commit, and the identifiers and tokens the generators hand out, by the
   * order in which the handler draws them.
   */
  datatype Input = Input(now: nat, commits: bool, request: Request, draw: nat -> string)

  /** An edit of the store. Positions are indices into the store's vectors. */
  datatype Delta =
    | Enroll(node: Node, grantAt: Option<nat>)
    | Retire(nodeAt: nat, actor: string)
    | Rekey(nodeAt: nat, credential: string, actor: string)
    | Pledge(grant: Grant, actor: string)
    | Withdraw(codeAt: nat, actor: string)
    | Authorize(approval: Approval, actor: string)
    | Submit(task: Task, approvalAt: Option<nat>)
    | Cancel(taskAt: nat, actor: string)
    | Beat(nodeAt: nat, node: Node)
    | Dispatch(nodeId: string)
    | Complete(taskAt: nat, task: Task)

  /** The handlers themselves never answer 503; that is the reply to a failed save. */
  predicate Handled(r: Reply) {
    r.Refused? ==> r.status != 503
  }

  /** What a handler concludes: answer at once, leave an unsaved edit behind, or edit and save. */
  datatype Decision =
    | Answer(reply: Reply)
    | Touch(nodeAt: nat, node: Node, reply: Reply)
    | Save(delta: Delta, reply: Reply)

  /** Memory under the store mutex, and the last store the backend committed. */
  datatype Sys = Sys(mem: Store, disk: Store)

  datatype Outcome = Outcome(sys: Sys, reply: Reply)

  /* ---- lookups ---- */

  function NodeNamed(id: string): Node -> bool { (n: Node) => n.id == id }

  function TaskNamed(id: string): Task -> bool { (t: Task) => t.id == id }

  function TaskKeyed(key: string): Task -> bool { (t: Task) => t.idempotencyKey == key }

  function TaskOn(id: string, nodeId: string): Task -> bool { (t: Task) => t.id == id && t.nodeId == nodeId }

  function GrantCoded(code: string): Grant -> bool { (g: Grant) => g.code == code }

  /** The grant has that code and signature, is genuine, and is still good. */
  predicate GoodGrant(cfg: Config, g: Grant, code: string, signature: string, now: nat) {
    g.code == code && g.signature == signature && cfg.verifies(g.code, g.expiresAt, g.signature) &&
    !g.used && !g.revoked && g.expiresAt > now
  }

  function Redeemable(cfg: Config, code: string, signature: string, now: nat): Grant -> bool {
    (g: Grant) => GoodGrant(cfg, g, code, signature, now)
  }

  /** The approval names the same node, ability, program, argument and actor as the task. */
  predicate Covers(a: Approval, t: Task) {
    a.nodeId == t.nodeId && a.ability == t.ability && a.program == t.program &&
    a.argument == t.argument && a.actor == t.actor
  }

  /** The record is this one, covers the task, and is still good. */
  predicate ApprovesNow(a: Approval, id: string, t: Task, now: nat) {
    a.id == id && Covers(a, t) && !a.used && a.expiresAt > now
  }

  function Consumable(id: string, t: Task, now: nat): Approval -> bool {
    (a: Approval) => ApprovesNow(a, id, t, now)
  }

  predicate Fresh(cfg: Config, n: Node, now: nat) {
    n.online && !n.revoked && Min(n.lastSeen + cfg.onlineTtlMs, U64_MAX) >= now
  }

  function FreshNamed(cfg: Config, id: string, now: nat): Node -> bool {
    (n: Node) => n.id == id && Fresh(cfg, n, now)
  }

  function OffersNamed(id: string, ability: string): Node -> bool {
    (n: Node) => n.id == id && ability in Text.Split(n.abilities, ',')
  }

  predicate Gated(cfg: Config, ability: string) {
    ability == "task.exec" || ability in cfg.approvalRequired
  }

  /* ---- shared pieces ---- */

  function AuditActor(caller: Option<string>): string {
    caller.GetOr("admin")
  }

  /** `resolve_actor`: an authenticated caller may not claim another actor. */
  function ResolveActor(claimed: Option<string>, caller: Option<string>): Option<string> {
    match (caller, claimed)
    case (Some(a), Some(c)) => if a != c then None else Some(a)
    case (Some(a), None) => Some(a)
    case (None, Some(c)) => Some(c)
    case (None, None) => Some("admin")
  }

  /** `Activity::with_actor`: a record not yet sealed into the chain. Its id is the draw numbered `draw`. */
  function Stamp(input: Input, draw: nat, event: Event, nodeId: Option<string>, taskId: Option<string>, actor: string)
    : Activity
  {
    Activity(input.draw(draw), event, nodeId, taskId, Some(actor), input.now, "", "")
  }

  function NewNode(id: string, d: NodeBody, credential: string, now: nat): Node {
    Node(id, d.name.GetOr(id), true, false, credential, "file.read,file.write,task.exec,system.inspect",
         d.platform.GetOr("unknown"), d.architecture.GetOr("unknown"), d.version.GetOr("unknown"),
         d.labels.GetOr(""), d.region.GetOr("unknown"), d.dataClass.GetOr("unclassified"),
         d.capacity.GetOr(""), now)
  }

  /** The task is this node's to lease now: queued, or dispatched under a lease that has run out. */
  predicate Due(t: Task, nodeId: string, now: nat) {
    t.nodeId == nodeId && (t.state == Queued || (t.state == Dispatched && t.leaseUntil <= now))
  }

  function Leased(t: Task, token: string, now: nat): Task {
    t.(state := Dispatched, leaseUntil := now + Max(t.timeoutMs, DEFAULT_TASK_TIMEOUT_MS) + 5_000, leaseToken := token)
  }

  /** Draw 0 names the new entity, draw 1 the first record; later draws are numbered from 2. */
  const FIRST_SPARE_DRAW: nat := 2

  function LeaseAt(t: Task, nodeId: string, input: Input, k: nat): Task {
    if Due(t, nodeId, input.now) then Leased(t, input.draw(FIRST_SPARE_DRAW + k), input.now) else t
  }

  /** The leases handed out among the first `n` tasks, in task order. */
  function Leases(tasks: seq<Task>, nodeId: string, input: Input, n: nat): seq<Task>
    requires n <= |tasks|
  {
    if n == 0 then []
    else if Due(tasks[n - 1], nodeId, input.now)
    then Leases(tasks, nodeId, input, n - 1) + [LeaseAt(tasks[n - 1], nodeId, input, n - 1)]
    else Leases(tasks, nodeId, input, n - 1)
  }

  predicate CancelledWith(t: Task, nodeId: string) {
    t.nodeId == nodeId && t.state.Live()
  }

  function Abandon(t: Task): Task {
    t.(state := Cancelled, leaseUntil := 0)
  }

  function AbandonAt(t: Task, nodeId: string): Task {
    if CancelledWith(t, nodeId) then Abandon(t) else t
  }

  /** One record per task cancelled by a revocation among the first `n`, in task order. */
  function CancelRecords(tasks: seq<Task>, nodeId: string, actor: string, input: Input, n: nat): seq<Activity>
    requires n <= |tasks|
  {
    if n == 0 then []
    else if CancelledWith(tasks[n - 1], nodeId)
    then CancelRecords(tasks, nodeId, actor, input, n - 1) +
         [Stamp(input, FIRST_SPARE_DRAW + n - 1, TaskCancelledByRevoke, Some(nodeId), Some(tasks[n - 1].id), actor)]
    else CancelRecords(tasks, nodeId, actor, input, n - 1)
  }

  /* ---- the edits ---- */

  predicate NodesFit(nodes: seq<Node>, d: Delta) {
    d.Retire? || d.Rekey? || d.Beat? ==> d.nodeAt < |nodes|
  }

  predicate GrantsFit(grants: seq<Grant>, d: Delta) {
    (d.Withdraw? ==> d.codeAt < |grants|) && (d.Enroll? && d.grantAt.Some? ==> d.grantAt.value < |grants|)
  }

  predicate ApprovalsFit(approvals: seq<Approval>, d: Delta) {
    d.Submit? && d.approvalAt.Some? ==> d.approvalAt.value < |approvals|
  }

  predicate TasksFit(tasks: seq<Task>, d: Delta) {
    d.Cancel? || d.Complete? ==> d.taskAt < |tasks|
  }

  /** The edit's positions exist in the store. */
  predicate Fits(s: Store, d: Delta) {
    NodesFit(s.nodes, d) && GrantsFit(s.grants, d) && ApprovalsFit(s.approvals, d) && TasksFit(s.tasks, d)
  }

  function Consumption(approvals: seq<Approval>, t: Task, spentAt: Option<nat>, input: Input): seq<Activity>
    requires spentAt.Some? ==> spentAt.value < |approvals|
  {
    if spentAt.None? then []
    else [Stamp(input, 1, ApprovalConsumed, Some(t.nodeId), Some(approvals[spentAt.value].id), t.actor)]
  }

  /** The records the edit appends to the audit log. */
  function NewRecords(s: Store, d: Delta, input: Input): seq<Activity>
    requires Fits(s, d)
  {
    match d
    case Enroll(node, grantAt) =>
      [if grantAt.None?
       then Stamp(input, 1, NodeCreated, Some(node.id), None, AuditActor(Caller(input.request)))
       else Stamp(input, 1, GrantRedeemed, Some(node.id), None, node.id)]
    case Retire(k, actor) =>
      [Stamp(input, 1, NodeRevoked, Some(s.nodes[k].id), None, actor)] +
      CancelRecords(s.tasks, s.nodes[k].id, actor, input, |s.tasks|)
    case Rekey(k, _, actor) => [Stamp(input, 1, CredentialRotated, Some(s.nodes[k].id), None, actor)]
    case Pledge(_, actor) => [Stamp(input, 1, GrantCreated, None, None, actor)]
    case Withdraw(_, actor) => [Stamp(input, 1, GrantRevoked, None, None, actor)]
    case Authorize(a, actor) => [Stamp(input, 1, ApprovalCreated, Some(a.nodeId), Some(a.id), actor)]
    case Submit(t, approvalAt) =>
      Consumption(s.approvals, t, approvalAt, input) +
      [Stamp(input, 2, TaskAccepted, Some(t.nodeId), Some(t.id), t.actor),
       Stamp(input, 3, PolicyAllowed, Some(t.nodeId), Some(t.id), t.actor)]
    case Cancel(k, actor) =>
      [Stamp(input, 1, TaskCancelled, Some(s.tasks[k].nodeId), Some(s.tasks[k].id), actor)]
    case Beat(_, node) => [Stamp(input, 1, NodeHeartbeat, Some(node.id), None, node.id)]
    case Dispatch(id) => [Stamp(input, 1, TaskDispatched, Some(id), None, id)]
    case Complete(_, t) => [Stamp(input, 1, TaskCompleted, Some(t.nodeId), Some(t.id), t.nodeId)]
  }

  function NodesAfter(nodes: seq<Node>, d: Delta): seq<Node>
    requires NodesFit(nodes, d)
  {
    match d
    case Enroll(node, _) => nodes + [node]
    case Retire(k, _) => nodes[k := nodes[k].(revoked := true, online := false)]
    case Rekey(k, credential, _) => nodes[k := nodes[k].(credential := credential)]
    case Beat(k, node) => nodes[k := node]
    case _ => nodes
  }

  function GrantsAfter(grants: seq<Grant>, d: Delta): seq<Grant>
    requires GrantsFit(grants, d)
  {
    match d
    case Enroll(_, Some(k)) => grants[k := grants[k].(used := true)]
    case Pledge(grant, _) => grants + [grant]
    case Withdraw(k, _) => grants[k := grants[k].(revoked := true)]
    case _ => grants
  }

  function ApprovalsAfter(approvals: seq<Approval>, d: Delta): seq<Approval>
    requires ApprovalsFit(approvals, d)
  {
    match d
    case Authorize(approval, _) => approvals + [approval]
    case Submit(_, Some(k)) => approvals[k := approvals[k].(used := true)]
    case _ => approvals
  }

  function TasksAfter(tasks: seq<Task>, nodes: seq<Node>, d: Delta, input: Input): seq<Task>
    requires NodesFit(nodes, d) && TasksFit(tasks, d)
  {
    match d
    case Retire(k, _) => seq(|tasks|, i requires 0 <= i < |tasks| => AbandonAt(tasks[i], nodes[k].id))
    case Submit(t, _) => tasks + [t]
    case Cancel(k, _) => tasks[k := Abandon(tasks[k])]
    case Dispatch(id) => seq(|tasks|, i requires 0 <= i < |tasks| => LeaseAt(tasks[i], id, input, i))
    case Complete(k, t) => tasks[k := t]
    case _ => tasks
  }

  function Apply(s: Store, d: Delta, input: Input): Store
    requires Fits(s, d)
  {
    Store(NodesAfter(s.nodes, d), TasksAfter(s.tasks, s.nodes, d, input), s.audit + NewRecords(s, d, input),
          GrantsAfter(s.grants, d), ApprovalsAfter(s.approvals, d))
  }

  function Caller(r: Request): Option<string> {
    match r
    case CreateNode(_, _, caller) => caller
    case RevokeNode(_, caller) => caller
    case RotateNode(_, caller) => caller
    case CreateGrant(caller) => caller
    case RevokeGrant(_, caller) => caller
    case RedeemGrant(_, _, _, _) => None
    case CreateApproval(_, _, _, _, _, caller) => caller
    case CreateTask(_, caller) => caller
    case CancelTask(_, caller) => caller
    case Heartbeat(_) => None
    case AgentTasks(_) => None
    case AgentResult(_, _) => None
  }

  /* ---- what each saved edit guarantees about the store it was decided on ---- */

  predicate NodesLegal(nodes: seq<Node>, d: Delta, now: nat) {
    match d
    case Enroll(node, _) =>
      (forall i :: 0 <= i < |nodes| ==> nodes[i].id != node.id) && Text.ValidId(node.id) &&
      node.online && !node.revoked && node.lastSeen == now
    case Retire(k, _) => k < |nodes|
    case Rekey(k, _, _) => k < |nodes| && !nodes[k].revoked
    case Beat(k, node) =>
      k < |nodes| && !nodes[k].revoked &&
      node == nodes[k].(online := true, lastSeen := now, abilities := node.abilities, platform := node.platform,
                        architecture := node.architecture, version := node.version)
    case _ => true
  }

  predicate GrantsLegal(grants: seq<Grant>, d: Delta, input: Input) {
    match d
    case Enroll(_, Some(k)) =>
      k < |grants| && !grants[k].used && !grants[k].revoked && grants[k].expiresAt > input.now
    case Pledge(g, _) =>
      g.code == input.draw(0) && !g.used && !g.revoked && g.expiresAt == input.now + GRANT_LIFETIME_MS
    case Withdraw(k, _) => k < |grants|
    case _ => true
  }

  predicate ApprovalsLegal(cfg: Config, approvals: seq<Approval>, d: Delta, input: Input) {
    match d
    case Authorize(a, _) =>
      a.id == input.draw(0) && !a.used && a.ability == "task.exec" && Text.ValidId(a.nodeId) &&
      Text.ValidActor(a.actor) && a.expiresAt == input.now + GRANT_LIFETIME_MS
    case Submit(t, approvalAt) =>
      (approvalAt.Some? <==> Gated(cfg, t.ability) && cfg.requireApprovalRecords) &&
      (approvalAt.Some? ==>
         var k := approvalAt.value;
         k < |approvals| && Covers(approvals[k], t) && !approvals[k].used && approvals[k].expiresAt > input.now)
    case _ => true
  }

  /** Node `id` can take work now. */
  predicate Serving(cfg: Config, nodes: seq<Node>, id: string, now: nat) {
    exists i :: 0 <= i < |nodes| && nodes[i].id == id && Fresh(cfg, nodes[i], now)
  }

  /** A task as a submission first queues it. */
  predicate NewTask(t: Task, input: Input) {
    t.id == input.draw(0) && t.state == Queued && t.leaseToken == "" && t.leaseUntil == 0 && t.exitCode == None &&
    0 < t.timeoutMs <= MAX_TASK_TIMEOUT_MS && 0 < t.outputLimit <= MAX_TASK_OUTPUT_LIMIT &&
    Text.ValidId(t.requestId) && Text.ValidId(t.actor)
  }

  /** The request is a result for exactly this leased task, under its own token and in time. */
  predicate Reports(input: Input, t: Task) {
    input.request.AgentResult? && input.request.taskId == t.id && input.request.result.nodeId == t.nodeId &&
    t.state == Dispatched && t.leaseUntil >= input.now &&
    t.leaseToken != "" && t.leaseToken == input.request.result.leaseToken
  }

  predicate TasksLegal(cfg: Config, tasks: seq<Task>, nodes: seq<Node>, d: Delta, input: Input) {
    match d
    case Retire(k, _) => k < |nodes|
    case Submit(t, _) =>
      NewTask(t, input) && Serving(cfg, nodes, t.nodeId, input.now) &&
      (t.idempotencyKey != "" ==> forall i :: 0 <= i < |tasks| ==> tasks[i].idempotencyKey != t.idempotencyKey)
    case Cancel(k, _) => k < |tasks| && !tasks[k].state.Terminal()
    case Dispatch(id) => Serving(cfg, nodes, id, input.now)
    case Complete(k, t) =>
      k < |tasks| && Reports(input, tasks[k]) && t.state.Terminal() &&
      t == Completed(tasks[k], input.request.result, t.outputSha256)
    case _ => true
  }

  predicate Legal(cfg: Config, s: Store, d: Delta, input: Input) {
    Fits(s, d) && NodesLegal(s.nodes, d, input.now) && GrantsLegal(s.grants, d, input) &&
    ApprovalsLegal(cfg, s.approvals, d, input) && TasksLegal(cfg, s.tasks, s.nodes, d, input) &&
    Attributed(d, input) && Asked(s, d, input)
  }

  /** An authenticated caller acts as itself, and nobody else as nobody. */
  predicate OnBehalf(caller: Option<string>, claimed: Option<string>, actor: string) {
    (caller.Some? ==> actor == caller.value) && (caller.None? ==> actor == claimed.GetOr("admin"))
  }

  /** The columns of a task that come from its submission. */
  predicate SubmittedAs(t: Task, input: Input) {
    input.request.CreateTask? &&
    var b := input.request.task;
    t.nodeId == b.nodeId && t.ability == b.ability && t.idempotencyKey == b.idempotencyKey &&
    t.program == b.program.GetOr("echo") && t.argument == b.argument &&
    t.timeoutMs == b.timeoutMs.GetOr(DEFAULT_TASK_TIMEOUT_MS) &&
    t.outputLimit == b.outputLimit.GetOr(MAX_TASK_OUTPUT_LIMIT) && OnBehalf(input.request.caller, b.actor, t.actor)
  }

  /** The columns of an approval that come from its request. */
  predicate AuthorizedAs(a: Approval, input: Input) {
    input.request.CreateApproval? &&
    var r := input.request;
    a.nodeId == r.nodeId && a.ability == r.ability && a.program == r.program.GetOr("echo") &&
    a.argument == r.argument && OnBehalf(r.caller, r.claimedActor, a.actor)
  }

  /** The request is one that asks for this edit, and names what it changes. */
  predicate Asked(s: Store, d: Delta, input: Input)
    requires Fits(s, d)
  {
    var r := input.request;
    match d
    case Enroll(node, None) => r.CreateNode? && node.id == r.nodeId
    case Enroll(node, Some(k)) => r.RedeemGrant? && node.id == r.nodeId && s.grants[k].code == r.code
    case Retire(k, _) => r.RevokeNode? && s.nodes[k].id == r.nodeId
    case Rekey(k, _, _) => r.RotateNode? && s.nodes[k].id == r.nodeId
    case Pledge(_, _) => r.CreateGrant?
    case Withdraw(k, _) => r.RevokeGrant? && s.grants[k].code == r.code
    case Authorize(a, _) => AuthorizedAs(a, input)
    case Submit(t, _) => SubmittedAs(t, input)
    case Cancel(k, _) =>
      r.CancelTask? && s.tasks[k].id == r.taskId && (r.caller.Some? ==> s.tasks[k].actor == r.caller.value)
    case Beat(k, _) => r.Heartbeat? && s.nodes[k].id == r.beat.nodeId
    case Dispatch(id) => r.AgentTasks? && r.nodeId == id
    case Complete(_, _) => r.AgentResult?
  }

  /** An administrator's edit is recorded under the authenticated caller. */
  predicate Attributed(d: Delta, input: Input) {
    d.Retire? || d.Rekey? || d.Pledge? || d.Withdraw? || d.Authorize? || d.Cancel? ==>
      d.actor == AuditActor(Caller(input.request))
  }

  /* ---- the handlers ---- */

  function DecideCreateNode(cfg: Config, s: Store, input: Input): (d: Decision)
    requires input.request.CreateNode?
    ensures d.Save? ==> d.delta.Enroll? && d.delta.grantAt.None? && Fits(s, d.delta)
    ensures !d.Touch? && Handled(d.reply)
  {
    var r := input.request;
    var labels := r.description.labels.GetOr("");
    if !Text.ValidId(r.nodeId) then Answer(Refused(400, "invalid_node"))
    else if !cfg.validLabels(labels) then Answer(Refused(400, "invalid_labels"))
    else if FirstIndex(s.nodes, NodeNamed(r.nodeId)) < |s.nodes| then Answer(Refused(409, "node_exists"))
    else
      var node := NewNode(r.nodeId, r.description, input.draw(0), input.now);
      Save(Enroll(node, None), NodeReply(201, node))
  }

  /** What becomes of a redemption once its grant is found. */
  function DecideSpending(s: Store, k: nat, input: Input): (d: Decision)
    requires input.request.RedeemGrant? && k < |s.grants|
    ensures d.Save? && d.delta.Enroll? && d.delta.grantAt == Some(k) && Fits(s, d.delta) && Handled(d.reply)
  {
    var node := NewNode(input.request.nodeId, input.request.description, input.draw(0), input.now);
    Save(Enroll(node, Some(k)), NodeReply(201, node))
  }

  function DecideRedeemGrant(cfg: Config, s: Store, input: Input): (d: Decision)
    requires input.request.RedeemGrant?
    ensures d.Save? ==> d.delta.Enroll? && d.delta.grantAt.Some? && Fits(s, d.delta)
    ensures !d.Touch? && Handled(d.reply)
  {
    var r := input.request;
    var labels := r.description.labels.GetOr("");
    if r.code == "" || r.signature == "" || !Text.ValidId(r.nodeId) then Answer(Refused(400, "invalid_grant"))
    else if !cfg.validLabels(labels) then Answer(Refused(400, "invalid_labels"))
    else if FirstIndex(s.nodes, NodeNamed(r.nodeId)) < |s.nodes| then Answer(Refused(409, "node_exists"))
    else
      var k := FirstIndex(s.grants, Redeemable(cfg, r.code, r.signature, input.now));
      if k == |s.grants| then Answer(Refused(403, "grant_invalid_or_expired")) else DecideSpending(s, k, input)
  }

  /** What becomes of a revocation once its node is found. */
  function DecideRetirement(s: Store, k: nat, actor: string): (d: Decision)
    requires k < |s.nodes|
    ensures d.Save? && d.delta == Retire(k, actor) && Fits(s, d.delta) && Handled(d.reply)
  {
    Save(Retire(k, actor), NodeReply(200, s.nodes[k].(revoked := true, online := false)))
  }

  function DecideRevokeNode(cfg: Config, s: Store, input: Input): (d: Decision)
    requires input.request.RevokeNode?
    ensures d.Save? ==> d.delta.Retire? && Fits(s, d.delta)
    ensures !d.Touch? && Handled(d.reply)
  {
    var r := input.request;
    var k := FirstIndex(s.nodes, NodeNamed(r.nodeId));
    if k == |s.nodes| then Answer(Refused(404, "node_not_found")) else DecideRetirement(s, k, AuditActor(r.caller))
  }

  function DecideRotateNode(cfg: Config, s: Store, input: Input): (d: Decision)
    requires input.request.RotateNode?
    ensures d.Save? ==> d.delta.Rekey? && Fits(s, d.delta)
    ensures !d.Touch? && Handled(d.reply)
  {
    var r := input.request;
    var k := FirstIndex(s.nodes, NodeNamed(r.nodeId));
    if k == |s.nodes| then Answer(Refused(404, "node_not_found"))
    else if s.nodes[k].revoked then Answer(Refused(403, "node_revoked"))
    else
      Save(Rekey(k, input.draw(0), AuditActor(r.caller)), NodeReply(200, s.nodes[k].(credential := input.draw(0))))
  }

  function DecideCreateGrant(cfg: Config, s: Store, input: Input): (d: Decision)
    requires input.request.CreateGrant?
    ensures d.Save? && d.delta.Pledge? && Fits(s, d.delta) && Handled(d.reply)
  {
    var expires := input.now + GRANT_LIFETIME_MS;
    var grant := Grant(input.draw(0), cfg.sign(input.draw(0), expires), expires, false, false);
    Save(Pledge(grant, AuditActor(input.request.caller)), GrantReply(201, grant))
  }

  function DecideRevokeGrant(cfg: Config, s: Store, input: Input): (d: Decision)
    requires input.request.RevokeGrant?
    ensures d.Save? ==> d.delta.Withdraw? && Fits(s, d.delta)
    ensures !d.Touch? && Handled(d.reply)
  {
    var r := input.request;
    var k := FirstIndex(s.grants, GrantCoded(r.code));
    if !Text.ValidId(r.code) then Answer(Refused(400, "invalid_grant"))
    else if k == |s.grants| then Answer(Refused(404, "grant_not_found"))
    else Save(Withdraw(k, AuditActor(r.caller)), GrantReply(200, s.grants[k].(revoked := true)))
  }

  function DecideCreateApproval(cfg: Config, s: Store, input: Input): (d: Decision)
    requires input.request.CreateApproval?
    ensures d.Save? ==> d.delta.Authorize? && Fits(s, d.delta)
    ensures !d.Touch? && Handled(d.reply)
  {
    var r := input.request;
    match ResolveActor(r.claimedActor, r.caller)
    case None => Answer(Refused(403, "actor_mismatch"))
    case Some(actor) =>
      if r.ability != "task.exec" || !Text.ValidId(r.nodeId) || !Text.ValidActor(actor)
      then Answer(Refused(400, "invalid_approval"))
      else
        var a := Approval(input.draw(0), r.nodeId, r.ability, r.program.GetOr("echo"), r.argument, actor,
                          input.now + GRANT_LIFETIME_MS, false);
        Save(Authorize(a, AuditActor(r.caller)), ApprovalReply(201, a))
  }

  /** The task a request asks for, before any check: what would be queued. */
  function Requested(b: TaskBody, actor: string, input: Input): Task {
    Task(input.draw(0), b.requestId.GetOr(input.draw(4)), actor, b.nodeId, b.ability, Queued, b.idempotencyKey,
         b.program.GetOr("echo"), b.argument, "", "", false, b.outputLimit.GetOr(MAX_TASK_OUTPUT_LIMIT), None, 0, "",
         b.timeoutMs.GetOr(DEFAULT_TASK_TIMEOUT_MS))
  }

  /** The six fields an idempotent replay must repeat. */
  predicate SameRequest(t: Task, u: Task) {
    t.nodeId == u.nodeId && t.actor == u.actor && t.ability == u.ability && t.program == u.program &&
    t.argument == u.argument && t.timeoutMs == u.timeoutMs
  }

  /** The gates that look at the request alone, in the order they are tried. */
  function RequestRefusal(cfg: Config, t: Task): (refusal: Option<Reply>)
    ensures refusal.Some? ==> refusal.value.Refused? && Handled(refusal.value)
  {
    var known := ["file.read", "file.write", "task.exec", "system.inspect"];
    if t.ability !in known then Some(Refused(403, "forbidden"))
    else if t.ability !in cfg.allowedAbilities then Some(Refused(403, "policy_denied"))
    else if cfg.allowedActors != [] && t.actor !in cfg.allowedActors then Some(Refused(403, "policy_denied"))
    else if t.ability == "task.exec" && cfg.allowedCommands != [] && t.program !in cfg.allowedCommands
    then Some(Refused(403, "policy_denied"))
    else if t.ability in ["file.read", "file.write"] && !cfg.allowsPath(t.program)
    then Some(Refused(403, "policy_denied"))
    else None
  }

  /** The gates that look at the node, in the order they are tried. */
  function NodeRefusal(cfg: Config, nodes: seq<Node>, t: Task): (refusal: Option<Reply>)
    ensures refusal.Some? ==> refusal.value.Refused? && Handled(refusal.value)
  {
    var at := FirstIndex(nodes, NodeNamed(t.nodeId));
    if at < |nodes| && cfg.allowedDataClasses != [] && nodes[at].dataClass !in cfg.allowedDataClasses
    then Some(Refused(403, "policy_denied"))
    else if FirstIndex(nodes, OffersNamed(t.nodeId, t.ability)) == |nodes|
    then Some(Refused(403, "ability_unavailable"))
    else None
  }

  /** All policy gates, in the order they are tried; `None` when every gate lets the task through. */
  function PolicyRefusal(cfg: Config, s: Store, t: Task, now: nat): (refusal: Option<Reply>)
    ensures refusal.None? ==> Serving(cfg, s.nodes, t.nodeId, now)
    ensures refusal.Some? ==> refusal.value.Refused? && Handled(refusal.value)
  {
    if FirstIndex(s.nodes, FreshNamed(cfg, t.nodeId, now)) == |s.nodes| then Some(Refused(409, "node_unavailable"))
    else
      var refusal := RequestRefusal(cfg, t);
      if refusal.Some? then refusal else NodeRefusal(cfg, s.nodes, t)
  }

  /** The approval gate: what queues the task, once policy lets it through. */
  function DecideApproval(cfg: Config, s: Store, t: Task, b: TaskBody, input: Input): (d: Decision)
    ensures d.Save? ==> d.delta.Submit? && d.delta.task == t && d.reply == TaskReply(202, t)
    ensures d.Save? ==> Fits(s, d.delta)
    ensures !d.Touch? && Handled(d.reply)
  {
    if !Gated(cfg, t.ability) then Save(Submit(t, None), TaskReply(202, t))
    else if cfg.requireApprovalRecords then
      if b.approvalId.None? then Answer(Refused(428, "approval_required"))
      else
        var k := FirstIndex(s.approvals, Consumable(b.approvalId.value, t, input.now));
        if k == |s.approvals| then Answer(Refused(403, "approval_invalid"))
        else Save(Submit(t, Some(k)), TaskReply(202, t))
    else if !b.approved then Answer(Refused(428, "approval_required"))
    else Save(Submit(t, None), TaskReply(202, t))
  }

  function DecideSubmission(cfg: Config, s: Store, t: Task, b: TaskBody, input: Input): (d: Decision)
    ensures d.Save? ==> d == DecideApproval(cfg, s, t, b, input) && Serving(cfg, s.nodes, t.nodeId, input.now)
    ensures !d.Touch? && Handled(d.reply)
  {
    var refusal := PolicyRefusal(cfg, s, t, input.now);
    if refusal.Some? then Answer(refusal.value) else DecideApproval(cfg, s, t, b, input)
  }

  /** The checks made before the store is locked; `None` when the request is well formed. */
  function TaskBodyRefusal(t: Task): (refusal: Option<Reply>)
    ensures refusal.Some? ==> refusal.value.Refused? && Handled(refusal.value)
  {
    if !(0 < t.outputLimit <= MAX_TASK_OUTPUT_LIMIT) then Some(Refused(400, "invalid_output_limit"))
    else if !Text.ValidId(t.requestId) then Some(Refused(400, "invalid_request_id"))
    else if !Text.ValidId(t.actor) then Some(Refused(400, "invalid_actor"))
    else if !(0 < t.timeoutMs <= MAX_TASK_TIMEOUT_MS) then Some(Refused(400, "invalid_timeout"))
    else None
  }

  function DecideCreateTask(cfg: Config, s: Store, input: Input): (d: Decision)
    requires input.request.CreateTask?
    ensures d.Save? ==> d.delta.Submit? && Fits(s, d.delta)
    ensures d.Save? ==> d.reply == TaskReply(202, d.delta.task)
    ensures !d.Touch? && Handled(d.reply)
  {
    var b := input.request.task;
    match ResolveActor(b.actor, input.request.caller)
    case None => Answer(Refused(403, "actor_mismatch"))
    case Some(actor) =>
      var t := Requested(b, actor, input);
      var refusal := TaskBodyRefusal(t);
      if refusal.Some? then Answer(refusal.value)
      else
        var k := FirstIndex(s.tasks, TaskKeyed(t.idempotencyKey));
        if t.idempotencyKey != "" && k < |s.tasks| then
          if SameRequest(s.tasks[k], t) then Answer(TaskReply(200, s.tasks[k]))
          else Answer(Refused(409, "idempotency_conflict"))
        else DecideSubmission(cfg, s, t, b, input)
  }

  function DecideCancelTask(cfg: Config, s: Store, input: Input): (d: Decision)
    requires input.request.CancelTask?
    ensures d.Save? ==> d.delta.Cancel? && Fits(s, d.delta)
    ensures !d.Touch? && Handled(d.reply)
  {
    var r := input.request;
    var k := FirstIndex(s.tasks, TaskNamed(r.taskId));
    if k == |s.tasks| then Answer(Refused(404, "task_not_found"))
    else if r.caller.Some? && s.tasks[k].actor != r.caller.value then Answer(Refused(403, "actor_forbidden"))
    else if s.tasks[k].state.Terminal() then Answer(Refused(409, "task_terminal"))
    else Save(Cancel(k, AuditActor(r.caller)), TaskReply(200, Abandon(s.tasks[k])))
  }

  /** The part of a heartbeat that follows the checks: mark the node seen, negotiate, refresh and record. */
  function DecideRefresh(cfg: Config, s: Store, k: nat, input: Input): (d: Decision)
    requires input.request.Heartbeat? && k < |s.nodes| && !s.nodes[k].revoked
    ensures d.Save? ==> d.delta.Beat? && Fits(s, d.delta)
    ensures d.Touch? ==> d.nodeAt == k && d.reply.Refused?
    ensures d.Touch? ==> d.node == s.nodes[k].(online := true, lastSeen := input.now)
    ensures Handled(d.reply)
  {
    var b := input.request.beat;
    var seen := s.nodes[k].(online := true, lastSeen := input.now);
    var negotiated := if b.abilities.Some? then cfg.negotiate(b.abilities.value) else Some(seen.abilities);
    if negotiated.None? then Touch(k, seen, Refused(422, "unsupported_ability"))
    else
      var node := seen.(abilities := negotiated.value,
                        platform := b.platform.GetOr(seen.platform),
                        architecture := b.architecture.GetOr(seen.architecture),
                        version := b.version.GetOr(seen.version));
      Save(Beat(k, node), NodeReply(200, node))
  }

  function DecideHeartbeat(cfg: Config, s: Store, input: Input): (d: Decision)
    requires input.request.Heartbeat?
    ensures d.Save? ==> d.delta.Beat? && Fits(s, d.delta)
    ensures d.Touch? ==> d.nodeAt < |s.nodes| && !s.nodes[d.nodeAt].revoked && d.reply.Refused?
    ensures d.Touch? ==> d.node == s.nodes[d.nodeAt].(online := true, lastSeen := input.now)
    ensures d.Touch? ==> s.nodes[d.nodeAt].id == input.request.beat.nodeId
    ensures Handled(d.reply)
  {
    var b := input.request.beat;
    var k := FirstIndex(s.nodes, NodeNamed(b.nodeId));
    if b.nodeId == "" then Answer(Refused(400, "invalid_node"))
    else if b.protocolVersion.Some? && b.protocolVersion.value != 1
    then Answer(Refused(426, "unsupported_protocol_version"))
    else if k == |s.nodes| then Answer(Refused(404, "node_not_found"))
    else if s.nodes[k].revoked then Answer(Refused(403, "node_revoked"))
    else if b.namesSchedulingMetadata then Answer(Refused(400, "immutable_node_metadata"))
    else DecideRefresh(cfg, s, k, input)
  }

  /** What a fresh node's poll comes to. */
  function DecideLeases(s: Store, id: string, input: Input): (d: Decision)
    ensures d.Save? ==> d.delta == Dispatch(id) && Fits(s, d.delta)
    ensures !d.Touch? && Handled(d.reply)
  {
    var leases := Leases(s.tasks, id, input, |s.tasks|);
    if leases == [] then Answer(LeasesReply([])) else Save(Dispatch(id), LeasesReply(leases))
  }

  function DecideAgentTasks(cfg: Config, s: Store, input: Input): (d: Decision)
    requires input.request.AgentTasks?
    ensures d.Save? ==> d.delta == Dispatch(input.request.nodeId) && Fits(s, d.delta)
    ensures !d.Touch? && Handled(d.reply)
  {
    var id := input.request.nodeId;
    if FirstIndex(s.nodes, FreshNamed(cfg, id, input.now)) == |s.nodes| then Answer(Refused(403, "node_revoked"))
    else DecideLeases(s, id, input)
  }

  /** The digest a result is stored under, or `None` when the agent's own digest disagrees with the bytes. */
  function VerifiedDigest(cfg: Config, b: ResultBody): Option<string> {
    var computed := cfg.sha256(b.output);
    match b.outputSha256
    case None => Some(computed)
    case Some(claimed) =>
      if |claimed| == 64 && (forall c <- claimed :: c in "0123456789abcdefABCDEF") && Lowercase(claimed) == computed
      then Some(computed) else None
  }

  /** `to_ascii_lowercase`. */
  function Lowercase(s: string): string {
    seq(|s|, i requires 0 <= i < |s| =>
      if 'A' <= s[i] <= 'Z' then s[i] - 'A' + 'a' else s[i])
  }

  /** What an accepted result leaves in the task: a bounded preview of the output and its digest. */
  function Completed(t: Task, b: ResultBody, digest: string): Task {
    var limit := Min(t.outputLimit, MAX_PERSISTED_OUTPUT_BYTES);
    t.(state := b.state.GetOr(Failed), output := Utf8.Truncate(b.output, limit), outputSha256 := digest,
       outputTruncated := Utf8.ByteLen(b.output) > limit, exitCode := b.exitCode)
  }

  /** What becomes of a result once its task is found and its digest settled. */
  function DecideReport(s: Store, k: nat, digest: string, input: Input): (d: Decision)
    requires input.request.AgentResult? && k < |s.tasks|
    ensures d.Save? ==> d.delta.Complete? && Fits(s, d.delta)
    ensures !d.Touch? && Handled(d.reply)
  {
    var t, b := s.tasks[k], input.request.result;
    if b.requestId.Some? && b.requestId.value != t.requestId then Answer(Refused(409, "request_id_mismatch"))
    else if t.state != Dispatched || t.leaseUntil < input.now then Answer(Refused(409, "task_expired"))
    else if t.leaseToken == "" || t.leaseToken != b.leaseToken then Answer(Refused(409, "lease_token_mismatch"))
    else if !b.state.GetOr(Failed).Terminal() then Answer(Refused(400, "invalid_task_state"))
    else
      var done := Completed(t, b, digest);
      Save(Complete(k, done), TaskReply(200, done))
  }

  function DecideAgentResult(cfg: Config, s: Store, input: Input): (d: Decision)
    requires input.request.AgentResult?
    ensures d.Save? ==> d.delta.Complete? && Fits(s, d.delta)
    ensures !d.Touch? && Handled(d.reply)
  {
    var b := input.request.result;
    var digest := VerifiedDigest(cfg, b);
    var k := FirstIndex(s.tasks, TaskOn(input.request.taskId, b.nodeId));
    if b.requestId.Some? && !Text.ValidId(b.requestId.value) then Answer(Refused(400, "invalid_request_id"))
    else if digest.None? then Answer(Refused(400, "output_hash_mismatch"))
    else if k == |s.tasks| then Answer(Refused(404, "task_not_found"))
    else DecideReport(s, k, digest.value, input)
  }

  function Decide(cfg: Config, s: Store, input: Input): (d: Decision)
    ensures d.Save? ==> Fits(s, d.delta)
    ensures input.request.CreateTask? ==> !d.Touch?
    ensures d.Touch? ==> d.nodeAt < |s.nodes| && !s.nodes[d.nodeAt].revoked && d.reply.Refused?
    ensures d.Touch? ==> d.node == s.nodes[d.nodeAt].(online := true, lastSeen := input.now)
    ensures d.Touch? ==> input.request.Heartbeat? && s.nodes[d.nodeAt].id == input.request.beat.nodeId
    ensures Handled(d.reply)
    ensures input.request.CreateTask? && d.Save? ==> d.delta.Submit? && d.reply == TaskReply(202, d.delta.task)
  {
    match input.request
    case CreateNode(_, _, _) => DecideCreateNode(cfg, s, input)
    case RevokeNode(_, _) => DecideRevokeNode(cfg, s, input)
    case RotateNode(_, _) => DecideRotateNode(cfg, s, input)
    case CreateGrant(_) => DecideCreateGrant(cfg, s, input)
    case RevokeGrant(_, _) => DecideRevokeGrant(cfg, s, input)
    case RedeemGrant(_, _, _, _) => DecideRedeemGrant(cfg, s, input)
    case CreateApproval(_, _, _, _, _, _) => DecideCreateApproval(cfg, s, input)
    case CreateTask(_, _) => DecideCreateTask(cfg, s, input)
    case CancelTask(_, _) => DecideCancelTask(cfg, s, input)
    case Heartbeat(_) => DecideHeartbeat(cfg, s, input)
    case AgentTasks(_) => DecideAgentTasks(cfg, s, input)
    case AgentResult(_, _) => DecideAgentResult(cfg, s, input)
  }

  /* ---- every saved edit is legal ---- */

  /** The edit a decision saves, if any, is legal for the store it was decided on. */
  predicate SavesLegally(cfg: Config, s: Store, d: Decision, input: Input) {
    d.Save? ==> Legal(cfg, s, d.delta, input)
  }

  lemma CreationIsLegal(cfg: Config, s: Store, input: Input)
    requires input.request.CreateNode?
    ensures SavesLegally(cfg, s, DecideCreateNode(cfg, s, input), input)
  {
  }

  lemma RedemptionIsLegal(cfg: Config, s: Store, input: Input)
    requires input.request.RedeemGrant?
    ensures SavesLegally(cfg, s, DecideRedeemGrant(cfg, s, input), input)
  {
  }

  lemma RevocationIsLegal(cfg: Config, s: Store, input: Input)
    requires input.request.RevokeNode?
    ensures SavesLegally(cfg, s, DecideRevokeNode(cfg, s, input), input)
  {
  }

  lemma RotationIsLegal(cfg: Config, s: Store, input: Input)
    requires input.request.RotateNode?
    ensures SavesLegally(cfg, s, DecideRotateNode(cfg, s, input), input)
  {
  }

  lemma BeatIsLegal(cfg: Config, s: Store, input: Input)
    requires input.request.Heartbeat?
    ensures SavesLegally(cfg, s, DecideHeartbeat(cfg, s, input), input)
  {
  }

  lemma PledgeIsLegal(cfg: Config, s: Store, input: Input)
    requires input.request.CreateGrant?
    ensures SavesLegally(cfg, s, DecideCreateGrant(cfg, s, input), input)
  {
  }

  lemma WithdrawalIsLegal(cfg: Config, s: Store, input: Input)
    requires input.request.RevokeGrant?
    ensures SavesLegally(cfg, s, DecideRevokeGrant(cfg, s, input), input)
  {
  }

  lemma AuthorizationIsLegal(cfg: Config, s: Store, input: Input)
    requires input.request.CreateApproval?
    ensures SavesLegally(cfg, s, DecideCreateApproval(cfg, s, input), input)
  {
  }

  lemma ApprovalIsLegal(cfg: Config, s: Store, t: Task, b: TaskBody, input: Input)
    ensures var d := DecideApproval(cfg, s, t, b, input); d.Save? ==> ApprovalsLegal(cfg, s.approvals, d.delta, input)
  {
  }

  lemma RequestedIsSubmitted(input: Input)
    requires input.request.CreateTask?
    ensures var b := input.request.task; var actor := ResolveActor(b.actor, input.request.caller);
      actor.Some? ==> SubmittedAs(Requested(b, actor.value, input), input)
  {
  }

  lemma SubmissionIsLegal(cfg: Config, s: Store, input: Input)
    requires input.request.CreateTask?
    ensures SavesLegally(cfg, s, DecideCreateTask(cfg, s, input), input)
  {
    var b := input.request.task;
    var actor := ResolveActor(b.actor, input.request.caller);
    if actor.Some? {
      RequestedIsSubmitted(input);
      ApprovalIsLegal(cfg, s, Requested(b, actor.value, input), b, input);
    }
  }

  lemma CancellationIsLegal(cfg: Config, s: Store, input: Input)
    requires input.request.CancelTask?
    ensures SavesLegally(cfg, s, DecideCancelTask(cfg, s, input), input)
  {
  }

  lemma LeaseIsLegal(cfg: Config, s: Store, input: Input)
    requires input.request.AgentTasks?
    ensures SavesLegally(cfg, s, DecideAgentTasks(cfg, s, input), input)
  {
  }

  lemma ResultIsLegal(cfg: Config, s: Store, input: Input)
    requires input.request.AgentResult?
    ensures SavesLegally(cfg, s, DecideAgentResult(cfg, s, input), input)
  {
  }

  /** Whatever the request, the edit its handler saves is legal. */
  lemma DecisionsAreLegal(cfg: Config, s: Store, input: Input)
    ensures SavesLegally(cfg, s, Decide(cfg, s, input), input)
  {
    match input.request
    case CreateNode(_, _, _) => CreationIsLegal(cfg, s, input);
    case RevokeNode(_, _) => RevocationIsLegal(cfg, s, input);
    case RotateNode(_, _) => RotationIsLegal(cfg, s, input);
    case CreateGrant(_) => PledgeIsLegal(cfg, s, input);
    case RevokeGrant(_, _) => WithdrawalIsLegal(cfg, s, input);
    case RedeemGrant(_, _, _, _) => RedemptionIsLegal(cfg, s, input);
    case CreateApproval(_, _, _, _, _, _) => AuthorizationIsLegal(cfg, s, input);
    case CreateTask(_, _) => SubmissionIsLegal(cfg, s, input);
    case CancelTask(_, _) => CancellationIsLegal(cfg, s, input);
    case Heartbeat(_) => BeatIsLegal(cfg, s, input);
    case AgentTasks(_) => LeaseIsLegal(cfg, s, input);
    case AgentResult(_, _) => ResultIsLegal(cfg, s, input);
  }

  const STORAGE_UNAVAILABLE := Refused(503, "storage_unavailable")

  /** What a decision comes to, given the backend's verdict. */
  function Conclude(sys: Sys, d: Decision, input: Input): Outcome
    requires d.Touch? ==> d.nodeAt < |sys.mem.nodes|
    requires d.Save? ==> Fits(sys.mem, d.delta)
  {
    match d
    case Answer(reply) => Outcome(sys, reply)
    case Touch(k, node, reply) => Outcome(sys.(mem := sys.mem.(nodes := sys.mem.nodes[k := node])), reply)
    case Save(delta, reply) =>
      if input.commits then
        var saved := Apply(sys.mem, delta, input);
        Outcome(Sys(saved, saved), reply)
      else Outcome(sys, STORAGE_UNAVAILABLE)
  }

  /** One request against memory and the committed store. */
  function Step(cfg: Config, sys: Sys, input: Input): Outcome {
    Conclude(sys, Decide(cfg, sys.mem, input), input)
  }
}
