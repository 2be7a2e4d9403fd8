/**
 * What each request does to the store and is answered, told by the columns of
 * the records themselves: which records it names, which columns change and to
 * what, what is written to the log, and what stays as it was. None of the
 * engine's functions is used here, so the engine can be held against it.
 */
module RequestLaws {
  import opened Records
  import opened Engine
  import Text
  import Utf8

  /* ---- ways a request can end ---- */

  /** Nothing changed, and this was the answer. */
  ghost predicate Refuses(sys: Sys, out: Outcome, status: nat, code: string) {
    out == Outcome(sys, Refused(status, code))
  }

  /** An edit is on disk and in memory; or the backend failed, and nothing changed. */
  ghost predicate SavedOrUndone(sys: Sys, input: Input, out: Outcome) {
    if input.commits then out.sys.disk == out.sys.mem else Refuses(sys, out, 503, "storage_unavailable")
  }

  ghost predicate SameBut<T>(before: seq<T>, after: seq<T>, k: nat) {
    k < |before| == |after| && forall i :: 0 <= i < |before| && i != k ==> after[i] == before[i]
  }

  /** One more at the end, and the others as they were. */
  ghost predicate Gains<T>(before: seq<T>, after: seq<T>, item: T) {
    |after| == |before| + 1 && after[|before|] == item && forall i :: 0 <= i < |before| ==> after[i] == before[i]
  }

  ghost predicate SameTasks(s: Store, t: Store) { t.tasks == s.tasks }

  ghost predicate SameNodes(s: Store, t: Store) { t.nodes == s.nodes }

  ghost predicate SameTickets(s: Store, t: Store) { t.grants == s.grants && t.approvals == s.approvals }

  /** Under whose name an administrator's request is recorded. */
  ghost function Speaker(caller: Option<string>): string {
    match caller
    case Some(name) => name
    case None => "admin"
  }

  /** One record is written at the end of the log: what, about what, by whom and when. */
  ghost predicate Logs(
    s: Store, t: Store, input: Input, event: Event, nodeId: Option<string>, taskId: Option<string>, actor: string) {
    Gains(s.audit, t.audit, Activity(input.draw(1), event, nodeId, taskId, Some(actor), input.now, "", ""))
  }

  /* ---- who is named ---- */

  ghost predicate FirstNode(nodes: seq<Node>, id: string, k: nat) {
    k < |nodes| && nodes[k].id == id && forall i :: 0 <= i < k ==> nodes[i].id != id
  }

  ghost predicate NoNode(nodes: seq<Node>, id: string) {
    forall i :: 0 <= i < |nodes| ==> nodes[i].id != id
  }

  ghost predicate FirstGrant(grants: seq<Grant>, code: string, k: nat) {
    k < |grants| && grants[k].code == code && forall i :: 0 <= i < k ==> grants[i].code != code
  }

  ghost predicate NoGrant(grants: seq<Grant>, code: string) {
    forall i :: 0 <= i < |grants| ==> grants[i].code != code
  }

  ghost predicate FirstTask(tasks: seq<Task>, id: string, k: nat) {
    k < |tasks| && tasks[k].id == id && forall i :: 0 <= i < k ==> tasks[i].id != id
  }

  ghost predicate NoTask(tasks: seq<Task>, id: string) {
    forall i :: 0 <= i < |tasks| ==> tasks[i].id != id
  }

  /* ---- enrollment ---- */

  /** The node as it was described, or as it is by default; online, not revoked, and seen now. */
  ghost predicate AsDescribed(n: Node, id: string, d: NodeBody, credential: string, now: nat) {
    n.id == id && n.online && !n.revoked && n.credential == credential && n.lastSeen == now &&
    n.abilities == "file.read,file.write,task.exec,system.inspect" &&
    n.name == (if d.name.Some? then d.name.value else id) &&
    n.platform == (if d.platform.Some? then d.platform.value else "unknown") &&
    n.architecture == (if d.architecture.Some? then d.architecture.value else "unknown") &&
    n.version == (if d.version.Some? then d.version.value else "unknown") &&
    n.labels == (if d.labels.Some? then d.labels.value else "") &&
    n.region == (if d.region.Some? then d.region.value else "unknown") &&
    n.dataClass == (if d.dataClass.Some? then d.dataClass.value else "unclassified") &&
    n.capacity == (if d.capacity.Some? then d.capacity.value else "")
  }

  /** Exactly one node is added, the one described; tasks and approvals stay as they were. */
  ghost predicate Adds(sys: Sys, input: Input, out: Outcome, id: string, d: NodeBody) {
    var s, t := sys.mem, out.sys.mem;
    out.reply.NodeReply? && out.reply.status == 201 && AsDescribed(out.reply.node, id, d, input.draw(0), input.now) &&
    Gains(s.nodes, t.nodes, out.reply.node) && SameTasks(s, t) && t.approvals == s.approvals
  }

  ghost predicate LabelsAllowed(cfg: Config, d: NodeBody) {
    cfg.validLabels(if d.labels.Some? then d.labels.value else "")
  }

  ghost predicate Creates(sys: Sys, input: Input, out: Outcome)
    requires input.request.CreateNode?
  {
    var r, s, t := input.request, sys.mem, out.sys.mem;
    SavedOrUndone(sys, input, out) &&
    (input.commits ==>
       Adds(sys, input, out, r.nodeId, r.description) && t.grants == s.grants &&
       Logs(s, t, input, NodeCreated, Some(r.nodeId), None, Speaker(r.caller)))
  }

  ghost predicate CreationLaw(cfg: Config, sys: Sys, input: Input, out: Outcome)
    requires input.request.CreateNode?
  {
    var r, s := input.request, sys.mem;
    if !Text.ValidId(r.nodeId) then Refuses(sys, out, 400, "invalid_node")
    else if !LabelsAllowed(cfg, r.description) then Refuses(sys, out, 400, "invalid_labels")
    else if !NoNode(s.nodes, r.nodeId) then Refuses(sys, out, 409, "node_exists")
    else Creates(sys, input, out)
  }

  /** A grant of that code and signature, genuine, not used, not revoked, and not expired. */
  ghost predicate StillGood(cfg: Config, g: Grant, code: string, signature: string, now: nat) {
    g.code == code && g.signature == signature && cfg.verifies(code, g.expiresAt, signature) && !g.used && !g.revoked &&
    now < g.expiresAt
  }

  ghost predicate FirstGood(cfg: Config, grants: seq<Grant>, code: string, signature: string, now: nat, k: nat) {
    k < |grants| && StillGood(cfg, grants[k], code, signature, now) &&
    forall i :: 0 <= i < k ==> !StillGood(cfg, grants[i], code, signature, now)
  }

  ghost predicate NoneGood(cfg: Config, grants: seq<Grant>, code: string, signature: string, now: nat) {
    forall i :: 0 <= i < |grants| ==> !StillGood(cfg, grants[i], code, signature, now)
  }

  /** The grant at `k` is used up, and the node is added. */
  ghost predicate Spends(sys: Sys, input: Input, out: Outcome, k: nat)
    requires input.request.RedeemGrant?
  {
    var r, s, t := input.request, sys.mem, out.sys.mem;
    SavedOrUndone(sys, input, out) &&
    (input.commits ==>
       Adds(sys, input, out, r.nodeId, r.description) && SameBut(s.grants, t.grants, k) &&
       t.grants[k] == s.grants[k].(used := true) &&
       Logs(s, t, input, GrantRedeemed, Some(r.nodeId), None, r.nodeId))
  }

  ghost predicate RedemptionLaw(cfg: Config, sys: Sys, input: Input, out: Outcome)
    requires input.request.RedeemGrant?
  {
    var r, s := input.request, sys.mem;
    if r.code == "" || r.signature == "" || !Text.ValidId(r.nodeId) then Refuses(sys, out, 400, "invalid_grant")
    else if !LabelsAllowed(cfg, r.description) then Refuses(sys, out, 400, "invalid_labels")
    else if !NoNode(s.nodes, r.nodeId) then Refuses(sys, out, 409, "node_exists")
    else if NoneGood(cfg, s.grants, r.code, r.signature, input.now)
    then Refuses(sys, out, 403, "grant_invalid_or_expired")
    else forall k :: FirstGood(cfg, s.grants, r.code, r.signature, input.now, k) ==> Spends(sys, input, out, k)
  }

  /* ---- revocation and rotation ---- */

  /** Positions below `n` that have the property, in order. */
  ghost function Positions(n: nat, p: nat -> bool): seq<nat> {
    if n == 0 then [] else if p(n - 1) then Positions(n - 1, p) + [n - 1] else Positions(n - 1, p)
  }

  /** The task belongs to the node and has not ended. */
  ghost predicate Open(t: Task, nodeId: string) {
    t.nodeId == nodeId && (t.state == Queued || t.state == Dispatched)
  }

  ghost function OpenAt(tasks: seq<Task>, nodeId: string): nat -> bool {
    (i: nat) => i < |tasks| && Open(tasks[i], nodeId)
  }

  /** The node's open tasks are cancelled and lose their lease; every other task is as it was. */
  ghost predicate CancelsOpen(before: seq<Task>, after: seq<Task>, nodeId: string) {
    |after| == |before| && forall i :: 0 <= i < |before| ==>
      after[i] == if Open(before[i], nodeId) then before[i].(state := Cancelled, leaseUntil := 0) else before[i]
  }

  /** The revocation is recorded, and then each task it cancelled, in the tasks' order. */
  ghost predicate LogsRevocation(s: Store, t: Store, input: Input, id: string, actor: string) {
    var n, at := |s.audit|, Positions(|s.tasks|, OpenAt(s.tasks, id));
    |t.audit| == n + 1 + |at| && t.audit[..n] == s.audit &&
    t.audit[n] == Activity(input.draw(1), NodeRevoked, Some(id), None, Some(actor), input.now, "", "") &&
    forall j :: 0 <= j < |at| ==>
      at[j] < |s.tasks| &&
      t.audit[n + 1 + j] == Activity(input.draw(2 + at[j]), TaskCancelledByRevoke, Some(id),
                                     Some(s.tasks[at[j]].id), Some(actor), input.now, "", "")
  }

  /** The node at `k`, and nothing else among the nodes, is revoked and offline. */
  ghost predicate Revokes(sys: Sys, input: Input, out: Outcome, id: string, k: nat) {
    var s, t := sys.mem, out.sys.mem;
    SameBut(s.nodes, t.nodes, k) && t.nodes[k] == s.nodes[k].(revoked := true, online := false) &&
    out.reply == NodeReply(200, t.nodes[k]) && CancelsOpen(s.tasks, t.tasks, id) && SameTickets(s, t)
  }

  ghost predicate RevocationLaw(sys: Sys, input: Input, out: Outcome)
    requires input.request.RevokeNode?
  {
    var r, s := input.request, sys.mem;
    if NoNode(s.nodes, r.nodeId) then Refuses(sys, out, 404, "node_not_found")
    else
      SavedOrUndone(sys, input, out) &&
      (input.commits ==>
         (forall k :: FirstNode(s.nodes, r.nodeId, k) ==> Revokes(sys, input, out, r.nodeId, k)) &&
         LogsRevocation(s, out.sys.mem, input, r.nodeId, Speaker(r.caller)))
  }

  /** The node at `k`, and nothing else, gets a credential that was just drawn. */
  ghost predicate Rotates(sys: Sys, input: Input, out: Outcome, k: nat) {
    var s, t := sys.mem, out.sys.mem;
    SameBut(s.nodes, t.nodes, k) && t.nodes[k] == s.nodes[k].(credential := input.draw(0)) &&
    out.reply == NodeReply(200, t.nodes[k]) && SameTasks(s, t) && SameTickets(s, t)
  }

  ghost predicate RotationAt(sys: Sys, input: Input, out: Outcome, k: nat)
    requires input.request.RotateNode? && k < |sys.mem.nodes|
  {
    var r, s := input.request, sys.mem;
    if s.nodes[k].revoked then Refuses(sys, out, 403, "node_revoked")
    else
      SavedOrUndone(sys, input, out) &&
      (input.commits ==>
         Rotates(sys, input, out, k) &&
         Logs(s, out.sys.mem, input, CredentialRotated, Some(r.nodeId), None, Speaker(r.caller)))
  }

  ghost predicate RotationLaw(sys: Sys, input: Input, out: Outcome)
    requires input.request.RotateNode?
  {
    var r, nodes := input.request, sys.mem.nodes;
    if NoNode(nodes, r.nodeId) then Refuses(sys, out, 404, "node_not_found")
    else forall k :: FirstNode(nodes, r.nodeId, k) ==> RotationAt(sys, input, out, k)
  }

  /* ---- grants and approvals ---- */

  /** The new grant runs for five minutes and carries the server's signature. */
  ghost predicate NewGrant(cfg: Config, g: Grant, input: Input) {
    g.code == input.draw(0) && g.expiresAt == input.now + 300_000 && g.signature == cfg.sign(g.code, g.expiresAt) &&
    !g.used && !g.revoked
  }

  ghost predicate GrantLaw(cfg: Config, sys: Sys, input: Input, out: Outcome)
    requires input.request.CreateGrant?
  {
    var s, t := sys.mem, out.sys.mem;
    SavedOrUndone(sys, input, out) &&
    (input.commits ==>
       out.reply.GrantReply? && out.reply.status == 201 && NewGrant(cfg, out.reply.grant, input) &&
       Gains(s.grants, t.grants, out.reply.grant) && SameNodes(s, t) && SameTasks(s, t) && t.approvals == s.approvals &&
       Logs(s, t, input, GrantCreated, None, None, Speaker(input.request.caller)))
  }

  /** The grant at `k`, and nothing else, is revoked. */
  ghost predicate Withdraws(sys: Sys, input: Input, out: Outcome, k: nat) {
    var s, t := sys.mem, out.sys.mem;
    SameBut(s.grants, t.grants, k) && t.grants[k] == s.grants[k].(revoked := true) &&
    out.reply == GrantReply(200, t.grants[k]) && SameNodes(s, t) && SameTasks(s, t) && t.approvals == s.approvals
  }

  ghost predicate WithdrawalLaw(sys: Sys, input: Input, out: Outcome)
    requires input.request.RevokeGrant?
  {
    var r, s := input.request, sys.mem;
    if !Text.ValidId(r.code) then Refuses(sys, out, 400, "invalid_grant")
    else if NoGrant(s.grants, r.code) then Refuses(sys, out, 404, "grant_not_found")
    else
      SavedOrUndone(sys, input, out) &&
      (input.commits ==>
         (forall k :: FirstGrant(s.grants, r.code, k) ==> Withdraws(sys, input, out, k)) &&
         Logs(s, out.sys.mem, input, GrantRevoked, None, None, Speaker(r.caller)))
  }

  /** An authenticated caller claims to be someone else. */
  ghost predicate Impersonates(caller: Option<string>, claimed: Option<string>) {
    caller.Some? && claimed.Some? && caller.value != claimed.value
  }

  /** Callers act as themselves; others as whom they claim to be; and as the administrator when they claim nobody. */
  ghost predicate ActsAs(caller: Option<string>, claimed: Option<string>, actor: string) {
    match caller
    case Some(c) => actor == c
    case None => if claimed.Some? then actor == claimed.value else actor == "admin"
  }

  /** The approval lets this actor run exactly this program on this node, once, for five minutes. */
  ghost predicate NewApproval(a: Approval, input: Input)
    requires input.request.CreateApproval?
  {
    var r := input.request;
    a.id == input.draw(0) && a.nodeId == r.nodeId && a.ability == "task.exec" && a.argument == r.argument &&
    a.program == (if r.program.Some? then r.program.value else "echo") &&
    ActsAs(r.caller, r.claimedActor, a.actor) && a.expiresAt == input.now + 300_000 && !a.used
  }

  ghost predicate ApprovalSaved(sys: Sys, input: Input, out: Outcome)
    requires input.request.CreateApproval?
  {
    var r, s, t := input.request, sys.mem, out.sys.mem;
    out.reply.ApprovalReply? && out.reply.status == 201 && NewApproval(out.reply.approval, input) &&
    Gains(s.approvals, t.approvals, out.reply.approval) && SameNodes(s, t) && SameTasks(s, t) && t.grants == s.grants &&
    Logs(s, t, input, ApprovalCreated, Some(r.nodeId), Some(input.draw(0)), Speaker(r.caller))
  }

  ghost predicate ApprovalLaw(sys: Sys, input: Input, out: Outcome)
    requires input.request.CreateApproval?
  {
    var r := input.request;
    if Impersonates(r.caller, r.claimedActor) then Refuses(sys, out, 403, "actor_mismatch")
    else
      forall actor {:trigger ActsAs(r.caller, r.claimedActor, actor)} :: ActsAs(r.caller, r.claimedActor, actor) ==>
        if r.ability != "task.exec" || !Text.ValidId(r.nodeId) || !Text.ValidActor(actor)
        then Refuses(sys, out, 400, "invalid_approval")
        else SavedOrUndone(sys, input, out) && (input.commits ==> ApprovalSaved(sys, input, out))
  }

  /* ---- submissions ---- */

  /** The task holds what was asked for, or the default where nothing was; it is queued, and nothing has come of it. */
  ghost predicate AsAsked(t: Task, input: Input)
    requires input.request.CreateTask?
  {
    var b := input.request.task;
    t.id == input.draw(0) && t.nodeId == b.nodeId && t.ability == b.ability && t.argument == b.argument &&
    t.idempotencyKey == b.idempotencyKey && ActsAs(input.request.caller, b.actor, t.actor) &&
    t.requestId == (if b.requestId.Some? then b.requestId.value else input.draw(4)) &&
    t.program == (if b.program.Some? then b.program.value else "echo") &&
    t.timeoutMs == (if b.timeoutMs.Some? then b.timeoutMs.value else 30_000) &&
    t.outputLimit == (if b.outputLimit.Some? then b.outputLimit.value else 1_048_576) &&
    t.state == Queued && t.output == "" && t.outputSha256 == "" && !t.outputTruncated && t.exitCode == None &&
    t.leaseUntil == 0 && t.leaseToken == ""
  }

  ghost predicate FirstKeyed(tasks: seq<Task>, key: string, k: nat) {
    k < |tasks| && tasks[k].idempotencyKey == key && forall i :: 0 <= i < k ==> tasks[i].idempotencyKey != key
  }

  ghost predicate KeyTaken(tasks: seq<Task>, key: string) {
    key != "" && exists i :: 0 <= i < |tasks| && tasks[i].idempotencyKey == key
  }

  /** The two ask the same of the same node for the same actor. */
  ghost predicate Repeats(t: Task, u: Task) {
    t.nodeId == u.nodeId && t.actor == u.actor && t.ability == u.ability && t.program == u.program &&
    t.argument == u.argument && t.timeoutMs == u.timeoutMs
  }

  /** The node is up: online, not revoked, and seen within the time to live. */
  ghost predicate Up(cfg: Config, n: Node, now: nat) {
    n.online && !n.revoked && now <= n.lastSeen + cfg.onlineTtlMs && now <= 0xFFFF_FFFF_FFFF_FFFF
  }

  ghost predicate SomeUp(cfg: Config, nodes: seq<Node>, id: string, now: nat) {
    exists i :: 0 <= i < |nodes| && nodes[i].id == id && Up(cfg, nodes[i], now)
  }

  ghost predicate NamesPath(t: Task) {
    t.ability == "file.read" || t.ability == "file.write"
  }

  /** The policy file says no. */
  ghost predicate Denied(cfg: Config, t: Task) {
    t.ability !in cfg.allowedAbilities || (cfg.allowedActors != [] && t.actor !in cfg.allowedActors) ||
    (t.ability == "task.exec" && cfg.allowedCommands != [] && t.program !in cfg.allowedCommands) ||
    (NamesPath(t) && !cfg.allowsPath(t.program))
  }

  /** The first node of that id holds a class of data the policy does not allow. */
  ghost predicate WrongClass(cfg: Config, nodes: seq<Node>, id: string) {
    cfg.allowedDataClasses != [] &&
    exists k: nat :: FirstNode(nodes, id, k) && nodes[k].dataClass !in cfg.allowedDataClasses
  }

  ghost predicate SomeOffers(nodes: seq<Node>, id: string, ability: string) {
    exists i :: 0 <= i < |nodes| && nodes[i].id == id && ability in Text.Split(nodes[i].abilities, ',')
  }

  ghost predicate NeedsApproval(cfg: Config, ability: string) {
    ability == "task.exec" || ability in cfg.approvalRequired
  }

  /** The record approves this task, and has neither been used nor expired. */
  ghost predicate Approves(a: Approval, id: string, t: Task, now: nat) {
    a.id == id && a.nodeId == t.nodeId && a.ability == t.ability && a.program == t.program &&
    a.argument == t.argument && a.actor == t.actor && !a.used && now < a.expiresAt
  }

  ghost predicate FirstApproving(approvals: seq<Approval>, id: string, t: Task, now: nat, k: nat) {
    k < |approvals| && Approves(approvals[k], id, t, now) &&
    forall i :: 0 <= i < k ==> !Approves(approvals[i], id, t, now)
  }

  ghost predicate NoneApproves(approvals: seq<Approval>, id: string, t: Task, now: nat) {
    forall i :: 0 <= i < |approvals| ==> !Approves(approvals[i], id, t, now)
  }

  /** The task is queued, with its two records; these come after the record of its approval, if one was used. */
  ghost predicate Queues(s: Store, t: Store, task: Task, input: Input, at: nat) {
    Gains(s.tasks, t.tasks, task) && SameNodes(s, t) && t.grants == s.grants && |t.audit| == at + 2 &&
    |s.audit| <= at && t.audit[..|s.audit|] == s.audit &&
    t.audit[at] ==
      Activity(input.draw(2), TaskAccepted, Some(task.nodeId), Some(task.id), Some(task.actor), input.now, "", "") &&
    t.audit[at + 1] ==
      Activity(input.draw(3), PolicyAllowed, Some(task.nodeId), Some(task.id), Some(task.actor), input.now, "", "")
  }

  /** Queued, with no approval record used. */
  ghost predicate QueuedFreely(sys: Sys, input: Input, out: Outcome, task: Task) {
    SavedOrUndone(sys, input, out) &&
    (input.commits ==>
       out.reply == TaskReply(202, task) && Queues(sys.mem, out.sys.mem, task, input, |sys.mem.audit|) &&
       out.sys.mem.approvals == sys.mem.approvals)
  }

  /** Queued against the approval at `k`, which is thereby used, and the use of it recorded first. */
  ghost predicate QueuedAgainst(sys: Sys, input: Input, out: Outcome, task: Task, k: nat) {
    var s, t := sys.mem, out.sys.mem;
    SavedOrUndone(sys, input, out) &&
    (input.commits ==>
       out.reply == TaskReply(202, task) && Queues(s, t, task, input, |s.audit| + 1) &&
       SameBut(s.approvals, t.approvals, k) && t.approvals[k] == s.approvals[k].(used := true) &&
       t.audit[|s.audit|] == Activity(input.draw(1), ApprovalConsumed, Some(task.nodeId), Some(s.approvals[k].id),
                                      Some(task.actor), input.now, "", ""))
  }

  /** The approval gate, and what is beyond it. */
  ghost predicate GateLaw(cfg: Config, sys: Sys, input: Input, out: Outcome, task: Task)
    requires input.request.CreateTask?
  {
    var b, s := input.request.task, sys.mem;
    if !NeedsApproval(cfg, task.ability) then QueuedFreely(sys, input, out, task)
    else if !cfg.requireApprovalRecords then
      if b.approved then QueuedFreely(sys, input, out, task) else Refuses(sys, out, 428, "approval_required")
    else if b.approvalId.None? then Refuses(sys, out, 428, "approval_required")
    else if NoneApproves(s.approvals, b.approvalId.value, task, input.now)
    then Refuses(sys, out, 403, "approval_invalid")
    else
      forall k :: FirstApproving(s.approvals, b.approvalId.value, task, input.now, k) ==>
        QueuedAgainst(sys, input, out, task, k)
  }

  /** The node and the policy, in the order they are asked. */
  ghost predicate PolicyLaw(cfg: Config, sys: Sys, input: Input, out: Outcome, task: Task)
    requires input.request.CreateTask?
  {
    var nodes := sys.mem.nodes;
    if !SomeUp(cfg, nodes, task.nodeId, input.now) then Refuses(sys, out, 409, "node_unavailable")
    else if !NamesPath(task) && task.ability != "task.exec" && task.ability != "system.inspect"
    then Refuses(sys, out, 403, "forbidden")
    else if Denied(cfg, task) || WrongClass(cfg, nodes, task.nodeId) then Refuses(sys, out, 403, "policy_denied")
    else if !SomeOffers(nodes, task.nodeId, task.ability) then Refuses(sys, out, 403, "ability_unavailable")
    else GateLaw(cfg, sys, input, out, task)
  }

  /** A key already taken: the task that has it, or a conflict. */
  ghost predicate ReplayLaw(sys: Sys, out: Outcome, task: Task, k: nat)
    requires k < |sys.mem.tasks|
  {
    if Repeats(sys.mem.tasks[k], task) then out == Outcome(sys, TaskReply(200, sys.mem.tasks[k]))
    else Refuses(sys, out, 409, "idempotency_conflict")
  }

  ghost predicate TaskLaw(cfg: Config, sys: Sys, input: Input, out: Outcome, task: Task)
    requires input.request.CreateTask?
  {
    var tasks := sys.mem.tasks;
    if !(1 <= task.outputLimit <= 1_048_576) then Refuses(sys, out, 400, "invalid_output_limit")
    else if !Text.ValidId(task.requestId) then Refuses(sys, out, 400, "invalid_request_id")
    else if !Text.ValidId(task.actor) then Refuses(sys, out, 400, "invalid_actor")
    else if !(1 <= task.timeoutMs <= 300_000) then Refuses(sys, out, 400, "invalid_timeout")
    else if KeyTaken(tasks, task.idempotencyKey)
    then forall k :: FirstKeyed(tasks, task.idempotencyKey, k) ==> ReplayLaw(sys, out, task, k)
    else PolicyLaw(cfg, sys, input, out, task)
  }

  ghost predicate SubmissionLaw(cfg: Config, sys: Sys, input: Input, out: Outcome)
    requires input.request.CreateTask?
  {
    if Impersonates(input.request.caller, input.request.task.actor) then Refuses(sys, out, 403, "actor_mismatch")
    else exists task :: AsAsked(task, input) && TaskLaw(cfg, sys, input, out, task)
  }

  /* ---- cancellation ---- */

  ghost predicate HasEnded(t: Task) {
    t.state == Succeeded || t.state == Failed || t.state == Cancelled || t.state == TimedOut
  }

  /** The task at `k`, and nothing else, is cancelled and loses its lease. */
  ghost predicate Cancels(sys: Sys, input: Input, out: Outcome, k: nat) {
    var s, t := sys.mem, out.sys.mem;
    SameBut(s.tasks, t.tasks, k) && t.tasks[k] == s.tasks[k].(state := Cancelled, leaseUntil := 0) &&
    out.reply == TaskReply(200, t.tasks[k]) && SameNodes(s, t) && SameTickets(s, t)
  }

  ghost predicate CancellationAt(sys: Sys, input: Input, out: Outcome, k: nat)
    requires input.request.CancelTask? && k < |sys.mem.tasks|
  {
    var r, s := input.request, sys.mem;
    if r.caller.Some? && s.tasks[k].actor != r.caller.value then Refuses(sys, out, 403, "actor_forbidden")
    else if HasEnded(s.tasks[k]) then Refuses(sys, out, 409, "task_terminal")
    else
      SavedOrUndone(sys, input, out) &&
      (input.commits ==>
         Cancels(sys, input, out, k) &&
         Logs(s, out.sys.mem, input, TaskCancelled, Some(s.tasks[k].nodeId), Some(r.taskId), Speaker(r.caller)))
  }

  ghost predicate CancellationLaw(sys: Sys, input: Input, out: Outcome)
    requires input.request.CancelTask?
  {
    var r, tasks := input.request, sys.mem.tasks;
    if NoTask(tasks, r.taskId) then Refuses(sys, out, 404, "task_not_found")
    else forall k :: FirstTask(tasks, r.taskId, k) ==> CancellationAt(sys, input, out, k)
  }

  /* ---- heartbeats ---- */

  /** Only the node at `k` changed, and what it is now. */
  ghost predicate OnlyNode(s: Store, t: Store, k: nat, n: Node) {
    SameBut(s.nodes, t.nodes, k) && t.nodes[k] == n && SameTasks(s, t) && SameTickets(s, t)
  }

  /** What the beat says of the machine, where it says something. */
  ghost predicate Refreshed(n: Node, was: Node, b: BeatBody, abilities: string, now: nat) {
    n == was.(online := true, lastSeen := now, abilities := abilities,
              platform := if b.platform.Some? then b.platform.value else was.platform,
              architecture := if b.architecture.Some? then b.architecture.value else was.architecture,
              version := if b.version.Some? then b.version.value else was.version)
  }

  ghost predicate RefreshSaved(sys: Sys, input: Input, out: Outcome, k: nat, abilities: string)
    requires input.request.Heartbeat? && k < |sys.mem.nodes|
  {
    var b, s, t := input.request.beat, sys.mem, out.sys.mem;
    SavedOrUndone(sys, input, out) &&
    (input.commits ==>
       out.reply.NodeReply? && out.reply.status == 200 &&
       Refreshed(out.reply.node, s.nodes[k], b, abilities, input.now) && OnlyNode(s, t, k, out.reply.node) &&
       Logs(s, t, input, NodeHeartbeat, Some(b.nodeId), None, b.nodeId))
  }

  /** The abilities are not understood: the node was seen all the same, in memory only. */
  ghost predicate SeenOnly(sys: Sys, input: Input, out: Outcome, k: nat)
    requires k < |sys.mem.nodes|
  {
    out.reply == Refused(422, "unsupported_ability") && out.sys.disk == sys.disk &&
    out.sys.mem.audit == sys.mem.audit &&
    OnlyNode(sys.mem, out.sys.mem, k, sys.mem.nodes[k].(online := true, lastSeen := input.now))
  }

  ghost predicate BeatAt(cfg: Config, sys: Sys, input: Input, out: Outcome, k: nat)
    requires input.request.Heartbeat? && k < |sys.mem.nodes|
  {
    var b, was := input.request.beat, sys.mem.nodes[k];
    if was.revoked then Refuses(sys, out, 403, "node_revoked")
    else if b.namesSchedulingMetadata then Refuses(sys, out, 400, "immutable_node_metadata")
    else
      match b.abilities
      case None => RefreshSaved(sys, input, out, k, was.abilities)
      case Some(text) =>
        match cfg.negotiate(text)
        case None => SeenOnly(sys, input, out, k)
        case Some(abilities) => RefreshSaved(sys, input, out, k, abilities)
  }

  ghost predicate BeatLaw(cfg: Config, sys: Sys, input: Input, out: Outcome)
    requires input.request.Heartbeat?
  {
    var b, s := input.request.beat, sys.mem;
    if b.nodeId == "" then Refuses(sys, out, 400, "invalid_node")
    else if b.protocolVersion.Some? && b.protocolVersion.value != 1
    then Refuses(sys, out, 426, "unsupported_protocol_version")
    else if NoNode(s.nodes, b.nodeId) then Refuses(sys, out, 404, "node_not_found")
    else forall k :: FirstNode(s.nodes, b.nodeId, k) ==> BeatAt(cfg, sys, input, out, k)
  }

  /* ---- polls ---- */

  /** The task is the node's, and waits for an agent: never leased, or its lease has run out. */
  ghost predicate Waits(t: Task, nodeId: string, now: nat) {
    t.nodeId == nodeId && (t.state == Queued || (t.state == Dispatched && t.leaseUntil <= now))
  }

  ghost function WaitsAt(tasks: seq<Task>, nodeId: string, now: nat): nat -> bool {
    (i: nat) => i < |tasks| && Waits(tasks[i], nodeId, now)
  }

  /** The task under a new lease, which runs 5000 ms past the task's own timeout, and 35000 ms at least. */
  ghost function UnderLease(t: Task, token: string, now: nat): Task {
    var runs := if t.timeoutMs > 30_000 then t.timeoutMs else 30_000;
    t.(state := Dispatched, leaseToken := token, leaseUntil := now + runs + 5_000)
  }

  /** Waiting tasks are leased, each under its own new token; every other task is as it was. */
  ghost predicate LeasesWaiting(before: seq<Task>, after: seq<Task>, nodeId: string, input: Input) {
    |after| == |before| && forall i :: 0 <= i < |before| ==>
      after[i] == if Waits(before[i], nodeId, input.now) then UnderLease(before[i], input.draw(2 + i), input.now)
                  else before[i]
  }

  /** The agent is sent those tasks that waited, in their order, as they are now. */
  ghost predicate SendsWaiting(before: seq<Task>, after: seq<Task>, sent: seq<Task>, nodeId: string, now: nat) {
    var at := Positions(|before|, WaitsAt(before, nodeId, now));
    |sent| == |at| && forall j :: 0 <= j < |at| ==> at[j] < |after| && sent[j] == after[at[j]]
  }

  ghost predicate NoneWaits(tasks: seq<Task>, nodeId: string, now: nat) {
    forall i :: 0 <= i < |tasks| ==> !Waits(tasks[i], nodeId, now)
  }

  ghost predicate PollLaw(cfg: Config, sys: Sys, input: Input, out: Outcome)
    requires input.request.AgentTasks?
  {
    var id, s, t := input.request.nodeId, sys.mem, out.sys.mem;
    if !SomeUp(cfg, s.nodes, id, input.now) then Refuses(sys, out, 403, "node_revoked")
    else if NoneWaits(s.tasks, id, input.now) then out == Outcome(sys, LeasesReply([]))
    else
      SavedOrUndone(sys, input, out) &&
      (input.commits ==>
         LeasesWaiting(s.tasks, t.tasks, id, input) && out.reply.LeasesReply? &&
         SendsWaiting(s.tasks, t.tasks, out.reply.tasks, id, input.now) && SameNodes(s, t) && SameTickets(s, t) &&
         Logs(s, t, input, TaskDispatched, Some(id), None, id))
  }

  /* ---- results ---- */

  ghost predicate IsHexDigit(c: char) {
    '0' <= c <= '9' || 'a' <= c <= 'f' || 'A' <= c <= 'F'
  }

  /** Equal but for the case of Latin letters in `a`. */
  ghost predicate LowerAlike(a: string, b: string) {
    |a| == |b| && forall i :: 0 <= i < |a| ==>
      b[i] == if 'A' <= a[i] <= 'Z' then (a[i] as int + 32) as char else a[i]
  }

  /** The digest the agent names is no digest of the output it sent. */
  ghost predicate WrongDigest(cfg: Config, b: ResultBody) {
    b.outputSha256.Some? &&
    var claimed := b.outputSha256.value;
    !(|claimed| == 64 && (forall i :: 0 <= i < |claimed| ==> IsHexDigit(claimed[i])) &&
      LowerAlike(claimed, cfg.sha256(b.output)))
  }

  ghost predicate FirstOn(tasks: seq<Task>, id: string, nodeId: string, k: nat) {
    k < |tasks| && tasks[k].id == id && tasks[k].nodeId == nodeId &&
    forall i :: 0 <= i < k ==> !(tasks[i].id == id && tasks[i].nodeId == nodeId)
  }

  ghost predicate NoneOn(tasks: seq<Task>, id: string, nodeId: string) {
    forall i :: 0 <= i < |tasks| ==> !(tasks[i].id == id && tasks[i].nodeId == nodeId)
  }

  ghost predicate IsFinal(s: TaskState) {
    s == Succeeded || s == Failed || s == Cancelled || s == TimedOut
  }

  /** The stored preview is the longest whole-character prefix that fits, and is marked when it is not everything. */
  ghost predicate Previews(done: Task, was: Task, output: string) {
    var room := if was.outputLimit < 4_096 then was.outputLimit else 4_096;
    done.output <= output && |Utf8.Encode(done.output)| <= room &&
    (forall n :: |done.output| < n <= |output| ==> |Utf8.Encode(output[..n])| > room) &&
    (done.outputTruncated <==> |Utf8.Encode(output)| > room)
  }

  /** The task ends as reported, and keeps everything else. */
  ghost predicate Concludes(cfg: Config, done: Task, was: Task, b: ResultBody) {
    done == was.(state := (if b.state.Some? then b.state.value else Failed), exitCode := b.exitCode,
                 outputSha256 := cfg.sha256(b.output), output := done.output,
                 outputTruncated := done.outputTruncated) &&
    Previews(done, was, b.output)
  }

  /** The task at `k`, and nothing else, ends with this result. */
  ghost predicate ResultSaved(cfg: Config, sys: Sys, input: Input, out: Outcome, k: nat)
    requires input.request.AgentResult?
  {
    var r, s, t := input.request, sys.mem, out.sys.mem;
    SavedOrUndone(sys, input, out) &&
    (input.commits ==>
       SameBut(s.tasks, t.tasks, k) && Concludes(cfg, t.tasks[k], s.tasks[k], r.result) &&
       out.reply == TaskReply(200, t.tasks[k]) && SameNodes(s, t) && SameTickets(s, t) &&
       Logs(s, t, input, TaskCompleted, Some(r.result.nodeId), Some(r.taskId), r.result.nodeId))
  }

  ghost predicate ResultAt(cfg: Config, sys: Sys, input: Input, out: Outcome, k: nat)
    requires input.request.AgentResult? && k < |sys.mem.tasks|
  {
    var b, was := input.request.result, sys.mem.tasks[k];
    if b.requestId.Some? && b.requestId.value != was.requestId then Refuses(sys, out, 409, "request_id_mismatch")
    else if was.state != Dispatched || was.leaseUntil < input.now then Refuses(sys, out, 409, "task_expired")
    else if was.leaseToken == "" || b.leaseToken != was.leaseToken then Refuses(sys, out, 409, "lease_token_mismatch")
    else if b.state.Some? && !IsFinal(b.state.value) then Refuses(sys, out, 400, "invalid_task_state")
    else ResultSaved(cfg, sys, input, out, k)
  }

  ghost predicate ResultLaw(cfg: Config, sys: Sys, input: Input, out: Outcome)
    requires input.request.AgentResult?
  {
    var r, b, s := input.request, input.request.result, sys.mem;
    if b.requestId.Some? && !Text.ValidId(b.requestId.value) then Refuses(sys, out, 400, "invalid_request_id")
    else if WrongDigest(cfg, b) then Refuses(sys, out, 400, "output_hash_mismatch")
    else if NoneOn(s.tasks, r.taskId, b.nodeId) then Refuses(sys, out, 404, "task_not_found")
    else forall k :: FirstOn(s.tasks, r.taskId, b.nodeId, k) ==> ResultAt(cfg, sys, input, out, k)
  }

  /* ---- every request ---- */

  ghost predicate Lawful(cfg: Config, sys: Sys, input: Input, out: Outcome) {
    match input.request
    case CreateNode(_, _, _) => CreationLaw(cfg, sys, input, out)
    case RevokeNode(_, _) => RevocationLaw(sys, input, out)
    case RotateNode(_, _) => RotationLaw(sys, input, out)
    case CreateGrant(_) => GrantLaw(cfg, sys, input, out)
    case RevokeGrant(_, _) => WithdrawalLaw(sys, input, out)
    case RedeemGrant(_, _, _, _) => RedemptionLaw(cfg, sys, input, out)
    case CreateApproval(_, _, _, _, _, _) => ApprovalLaw(sys, input, out)
    case CreateTask(_, _) => SubmissionLaw(cfg, sys, input, out)
    case CancelTask(_, _) => CancellationLaw(sys, input, out)
    case Heartbeat(_) => BeatLaw(cfg, sys, input, out)
    case AgentTasks(_) => PollLaw(cfg, sys, input, out)
    case AgentResult(_, _) => ResultLaw(cfg, sys, input, out)
  }
}
