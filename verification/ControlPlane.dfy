/** The Control Plane as it runs: one store edited in place under its mutex, and a backend that commits or fails. */
module ControlPlane {
  import opened Records
  import opened Engine
  import Laws = RequestLaws
  import Lawful = LawfulRequests
  import Text

  class Server {
    const cfg: Config
    var nodes: seq<Node>
    var tasks: seq<Task>
    var audit: seq<Activity>
    var grants: seq<Grant>
    var approvals: seq<Approval>
    /** The store the backend last committed. */
    var disk: Store

    constructor (cfg: Config)
      ensures this.cfg == cfg && State() == Sys(EMPTY_STORE, EMPTY_STORE)
    {
      this.cfg := cfg;
      nodes, tasks, audit, grants, approvals := [], [], [], [], [];
      disk := EMPTY_STORE;
    }

    function Memory(): Store
      reads this
    {
      Store(nodes, tasks, audit, grants, approvals)
    }

    function State(): Sys
      reads this
    {
      Sys(Memory(), disk)
    }

    /** A transactional backend: it takes the whole store or nothing. */
    method Persist(commits: bool) returns (ok: bool)
      modifies this`disk
      ensures ok == commits && disk == if commits then Memory() else old(disk)
    {
      if commits { disk := Memory(); }
      ok := commits;
    }

    method PersistOrRollback(before: Store, commits: bool) returns (failed: bool)
      modifies this
      ensures failed == !commits
      ensures State() == if commits then Sys(old(Memory()), old(Memory())) else Sys(before, old(disk))
    {
      var ok := Persist(commits);
      if !ok {
        nodes, tasks, audit := before.nodes, before.tasks, before.audit;
        grants, approvals := before.grants, before.approvals;
      }
      failed := !ok;
    }

    method CreateNode(input: Input) returns (reply: Reply)
      requires input.request.CreateNode?
      modifies this
      ensures Outcome(State(), reply) == Conclude(old(State()), DecideCreateNode(cfg, old(Memory()), input), input)
      ensures Laws.CreationLaw(cfg, old(State()), input, Outcome(State(), reply))
    {
      Lawful.CreationIsLawful(cfg, State(), input);
      var r := input.request;
      if !Text.ValidId(r.nodeId) { return Refused(400, "invalid_node"); }
      if !cfg.validLabels(r.description.labels.GetOr("")) { return Refused(400, "invalid_labels"); }
      var before := Memory();
      var k := Find(nodes, NodeNamed(r.nodeId));
      if k < |nodes| { return Refused(409, "node_exists"); }
      var node := NewNode(r.nodeId, r.description, input.draw(0), input.now);
      nodes := nodes + [node];
      audit := audit + [Stamp(input, 1, NodeCreated, Some(r.nodeId), None, AuditActor(r.caller))];
      var failed := PersistOrRollback(before, input.commits);
      if failed { return STORAGE_UNAVAILABLE; }
      reply := NodeReply(201, node);
    }

    /** Spends the grant and enrolls the node in one commit. */
    method Spend(k: nat, input: Input) returns (reply: Reply)
      requires input.request.RedeemGrant? && k < |grants|
      modifies this
      ensures Outcome(State(), reply) == Conclude(old(State()), DecideSpending(old(Memory()), k, input), input)
    {
      var r := input.request;
      var before := Memory();
      grants := grants[k := grants[k].(used := true)];
      var node := NewNode(r.nodeId, r.description, input.draw(0), input.now);
      nodes := nodes + [node];
      audit := audit + [Stamp(input, 1, GrantRedeemed, Some(r.nodeId), None, r.nodeId)];
      var failed := PersistOrRollback(before, input.commits);
      if failed { return STORAGE_UNAVAILABLE; }
      reply := NodeReply(201, node);
    }

    method RedeemGrant(input: Input) returns (reply: Reply)
      requires input.request.RedeemGrant?
      modifies this
      ensures Outcome(State(), reply) == Conclude(old(State()), DecideRedeemGrant(cfg, old(Memory()), input), input)
      ensures Laws.RedemptionLaw(cfg, old(State()), input, Outcome(State(), reply))
    {
      Lawful.RedemptionIsLawful(cfg, State(), input);
      var r := input.request;
      if r.code == "" || r.signature == "" || !Text.ValidId(r.nodeId) { return Refused(400, "invalid_grant"); }
      if !cfg.validLabels(r.description.labels.GetOr("")) { return Refused(400, "invalid_labels"); }
      var k := Find(nodes, NodeNamed(r.nodeId));
      if k < |nodes| { return Refused(409, "node_exists"); }
      var g := Find(grants, Redeemable(cfg, r.code, r.signature, input.now));
      if g == |grants| { return Refused(403, "grant_invalid_or_expired"); }
      reply := Spend(g, input);
    }

    /** Revokes the node, cancels its live tasks and records both in one commit. */
    method RetireNode(k: nat, actor: string, input: Input) returns (reply: Reply)
      requires k < |nodes|
      modifies this
      ensures Outcome(State(), reply) == Conclude(old(State()), DecideRetirement(old(Memory()), k, actor), input)
    {
      var id := nodes[k].id;
      var before := Memory();
      nodes := nodes[k := nodes[k].(revoked := true, online := false)];
      var node := nodes[k];
      var cancelled := CancelTasksOf(id, actor, input);
      audit := audit + [Stamp(input, 1, NodeRevoked, Some(id), None, actor)];
      Append(cancelled);
      assert audit == before.audit + NewRecords(before, Retire(k, actor), input);
      assert tasks == TasksAfter(before.tasks, before.nodes, Retire(k, actor), input);
      var failed := PersistOrRollback(before, input.commits);
      if failed { return STORAGE_UNAVAILABLE; }
      reply := NodeReply(200, node);
    }

    method RevokeNode(input: Input) returns (reply: Reply)
      requires input.request.RevokeNode?
      modifies this
      ensures Outcome(State(), reply) == Conclude(old(State()), DecideRevokeNode(cfg, old(Memory()), input), input)
      ensures Laws.RevocationLaw(old(State()), input, Outcome(State(), reply))
    {
      Lawful.RevocationIsLawful(cfg, State(), input);
      var k := Find(nodes, NodeNamed(input.request.nodeId));
      if k == |nodes| { return Refused(404, "node_not_found"); }
      reply := RetireNode(k, AuditActor(input.request.caller), input);
    }

    /** Cancels the live tasks of a node in place and collects the record each one is owed. */
    method CancelTasksOf(id: string, actor: string, input: Input) returns (cancelled: seq<Activity>)
      modifies this`tasks
      ensures |tasks| == |old(tasks)| && forall j :: 0 <= j < |tasks| ==> tasks[j] == AbandonAt(old(tasks)[j], id)
      ensures cancelled == CancelRecords(old(tasks), id, actor, input, |tasks|)
      ensures Laws.CancelsOpen(old(tasks), tasks, id)
    {
      cancelled := [];
      var i := 0;
      while i < |tasks|
        invariant i <= |tasks| == |old(tasks)|
        invariant forall j :: 0 <= j < i ==> tasks[j] == AbandonAt(old(tasks)[j], id)
        invariant forall j :: i <= j < |tasks| ==> tasks[j] == old(tasks)[j]
        invariant cancelled == CancelRecords(old(tasks), id, actor, input, i)
      {
        if CancelledWith(tasks[i], id) {
          cancelled := cancelled +
            [Stamp(input, FIRST_SPARE_DRAW + i, TaskCancelledByRevoke, Some(id), Some(tasks[i].id), actor)];
          tasks := tasks[i := Abandon(tasks[i])];
        }
        i := i + 1;
      }
    }

    method Append(records: seq<Activity>)
      modifies this`audit
      ensures audit == old(audit) + records
    {
      var i := 0;
      while i < |records|
        invariant i <= |records| && audit == old(audit) + records[..i]
      {
        audit := audit + [records[i]];
        i := i + 1;
      }
    }

    method RotateNode(input: Input) returns (reply: Reply)
      requires input.request.RotateNode?
      modifies this
      ensures Outcome(State(), reply) == Conclude(old(State()), DecideRotateNode(cfg, old(Memory()), input), input)
      ensures Laws.RotationLaw(old(State()), input, Outcome(State(), reply))
    {
      Lawful.RotationIsLawful(cfg, State(), input);
      var id, credential := input.request.nodeId, input.draw(0);
      var before := Memory();
      var k := Find(nodes, NodeNamed(id));
      if k == |nodes| { return Refused(404, "node_not_found"); }
      if nodes[k].revoked { return Refused(403, "node_revoked"); }
      nodes := nodes[k := nodes[k].(credential := credential)];
      var node := nodes[k];
      audit := audit + [Stamp(input, 1, CredentialRotated, Some(id), None, AuditActor(input.request.caller))];
      var failed := PersistOrRollback(before, input.commits);
      if failed { return STORAGE_UNAVAILABLE; }
      reply := NodeReply(200, node);
    }

    method CreateGrant(input: Input) returns (reply: Reply)
      requires input.request.CreateGrant?
      modifies this
      ensures Outcome(State(), reply) == Conclude(old(State()), DecideCreateGrant(cfg, old(Memory()), input), input)
      ensures Laws.GrantLaw(cfg, old(State()), input, Outcome(State(), reply))
    {
      Lawful.PledgeIsLawful(cfg, State(), input);
      var before := Memory();
      var code, expires := input.draw(0), input.now + GRANT_LIFETIME_MS;
      var grant := Grant(code, cfg.sign(code, expires), expires, false, false);
      audit := audit + [Stamp(input, 1, GrantCreated, None, None, AuditActor(input.request.caller))];
      grants := grants + [grant];
      var failed := PersistOrRollback(before, input.commits);
      if failed { return STORAGE_UNAVAILABLE; }
      reply := GrantReply(201, grant);
    }

    method RevokeGrant(input: Input) returns (reply: Reply)
      requires input.request.RevokeGrant?
      modifies this
      ensures Outcome(State(), reply) == Conclude(old(State()), DecideRevokeGrant(cfg, old(Memory()), input), input)
      ensures Laws.WithdrawalLaw(old(State()), input, Outcome(State(), reply))
    {
      Lawful.WithdrawalIsLawful(cfg, State(), input);
      var r := input.request;
      if !Text.ValidId(r.code) { return Refused(400, "invalid_grant"); }
      var before := Memory();
      var k := Find(grants, GrantCoded(r.code));
      if k == |grants| { return Refused(404, "grant_not_found"); }
      grants := grants[k := grants[k].(revoked := true)];
      var grant := grants[k];
      audit := audit + [Stamp(input, 1, GrantRevoked, None, None, AuditActor(r.caller))];
      var failed := PersistOrRollback(before, input.commits);
      if failed { return STORAGE_UNAVAILABLE; }
      reply := GrantReply(200, grant);
    }

    method CreateApproval(input: Input) returns (reply: Reply)
      requires input.request.CreateApproval?
      modifies this
      ensures Outcome(State(), reply) == Conclude(old(State()), DecideCreateApproval(cfg, old(Memory()), input), input)
      ensures Laws.ApprovalLaw(old(State()), input, Outcome(State(), reply))
    {
      Lawful.AuthorizationIsLawful(cfg, State(), input);
      var r := input.request;
      var actor := ResolveActor(r.claimedActor, r.caller);
      if actor.None? { return Refused(403, "actor_mismatch"); }
      if r.ability != "task.exec" || !Text.ValidId(r.nodeId) || !Text.ValidActor(actor.value) {
        return Refused(400, "invalid_approval");
      }
      var approval := Approval(input.draw(0), r.nodeId, r.ability, r.program.GetOr("echo"), r.argument, actor.value,
                               input.now + GRANT_LIFETIME_MS, false);
      var before := Memory();
      audit := audit +
        [Stamp(input, 1, ApprovalCreated, Some(approval.nodeId), Some(approval.id), AuditActor(r.caller))];
      approvals := approvals + [approval];
      var failed := PersistOrRollback(before, input.commits);
      if failed { return STORAGE_UNAVAILABLE; }
      reply := ApprovalReply(201, approval);
    }

    method CreateTask(input: Input) returns (reply: Reply)
      requires input.request.CreateTask?
      modifies this
      ensures Outcome(State(), reply) == Conclude(old(State()), DecideCreateTask(cfg, old(Memory()), input), input)
      ensures Laws.SubmissionLaw(cfg, old(State()), input, Outcome(State(), reply))
    {
      Lawful.SubmissionIsLawful(cfg, State(), input);
      var b := input.request.task;
      var actor := ResolveActor(b.actor, input.request.caller);
      if actor.None? { return Refused(403, "actor_mismatch"); }
      var t := Requested(b, actor.value, input);
      var malformed := TaskBodyRefusal(t);
      if malformed.Some? { return malformed.value; }
      var before := Memory();
      if t.idempotencyKey != "" {
        var k := Find(tasks, TaskKeyed(t.idempotencyKey));
        if k < |tasks| {
          if SameRequest(tasks[k], t) { return TaskReply(200, tasks[k]); }
          return Refused(409, "idempotency_conflict");
        }
      }
      var refusal := PolicyRefusal(cfg, before, t, input.now);
      if refusal.Some? { return refusal.value; }
      reply := Queue(t, b, input);
    }

    /** Spends the approval the request names, or says why the task may not be queued. */
    method SpendApproval(t: Task, b: TaskBody, input: Input)
      returns (refusal: Option<Reply>, ghost spentAt: Option<nat>)
      modifies this`approvals, this`audit
      ensures refusal.Some? ==> Memory() == old(Memory())
      ensures DecideApproval(cfg, old(Memory()), t, b, input) ==
              if refusal.Some? then Answer(refusal.value) else Save(Submit(t, spentAt), TaskReply(202, t))
      ensures refusal.None? ==> approvals == ApprovalsAfter(old(approvals), Submit(t, spentAt))
      ensures refusal.None? ==> audit == old(audit) + Consumption(old(approvals), t, spentAt, input)
    {
      spentAt := None;
      if Gated(cfg, t.ability) {
        if cfg.requireApprovalRecords {
          if b.approvalId.None? { return Some(Refused(428, "approval_required")), None; }
          var k := Find(approvals, Consumable(b.approvalId.value, t, input.now));
          if k == |approvals| { return Some(Refused(403, "approval_invalid")), None; }
          approvals := approvals[k := approvals[k].(used := true)];
          audit := audit + [Stamp(input, 1, ApprovalConsumed, Some(t.nodeId), Some(b.approvalId.value), t.actor)];
          spentAt := Some(k);
        } else if !b.approved {
          return Some(Refused(428, "approval_required")), None;
        }
      }
      refusal := None;
    }

    /** Queues a task that policy lets through, spending its approval in the same commit. */
    method Queue(t: Task, b: TaskBody, input: Input) returns (reply: Reply)
      modifies this
      ensures Outcome(State(), reply) == Conclude(old(State()), DecideApproval(cfg, old(Memory()), t, b, input), input)
    {
      var before := Memory();
      var refusal, spentAt := SpendApproval(t, b, input);
      if refusal.Some? { return refusal.value; }
      audit := audit + [Stamp(input, 2, TaskAccepted, Some(t.nodeId), Some(t.id), t.actor)];
      audit := audit + [Stamp(input, 3, PolicyAllowed, Some(t.nodeId), Some(t.id), t.actor)];
      tasks := tasks + [t];
      assert audit == before.audit + NewRecords(before, Submit(t, spentAt), input);
      var failed := PersistOrRollback(before, input.commits);
      if failed { return STORAGE_UNAVAILABLE; }
      reply := TaskReply(202, t);
    }

    method CancelTask(input: Input) returns (reply: Reply)
      requires input.request.CancelTask?
      modifies this
      ensures Outcome(State(), reply) == Conclude(old(State()), DecideCancelTask(cfg, old(Memory()), input), input)
      ensures Laws.CancellationLaw(old(State()), input, Outcome(State(), reply))
    {
      Lawful.CancellationIsLawful(cfg, State(), input);
      var r := input.request;
      var before := Memory();
      var k := Find(tasks, TaskNamed(r.taskId));
      if k == |tasks| { return Refused(404, "task_not_found"); }
      if r.caller.Some? && tasks[k].actor != r.caller.value { return Refused(403, "actor_forbidden"); }
      if tasks[k].state.Terminal() { return Refused(409, "task_terminal"); }
      tasks := tasks[k := Abandon(tasks[k])];
      var task := tasks[k];
      audit := audit + [Stamp(input, 1, TaskCancelled, Some(task.nodeId), Some(r.taskId), AuditActor(r.caller))];
      var failed := PersistOrRollback(before, input.commits);
      if failed { return STORAGE_UNAVAILABLE; }
      reply := TaskReply(200, task);
    }

    /** The platform fields a heartbeat may refresh. */
    method Describe(seen: Node, b: BeatBody) returns (node: Node)
      ensures node == seen.(platform := b.platform.GetOr(seen.platform),
                            architecture := b.architecture.GetOr(seen.architecture),
                            version := b.version.GetOr(seen.version))
    {
      node := seen;
      if b.platform.Some? { node := node.(platform := b.platform.value); }
      if b.architecture.Some? { node := node.(architecture := b.architecture.value); }
      if b.version.Some? { node := node.(version := b.version.value); }
    }

    /** Marks the node seen, whatever comes of the rest; then negotiates, refreshes and records. */
    method Refresh(k: nat, input: Input) returns (reply: Reply)
      requires input.request.Heartbeat? && k < |nodes| && nodes[k].id == input.request.beat.nodeId && !nodes[k].revoked
      modifies this
      ensures Outcome(State(), reply) == Conclude(old(State()), DecideRefresh(cfg, old(Memory()), k, input), input)
    {
      var b := input.request.beat;
      var before := Memory();
      var node := nodes[k].(online := true, lastSeen := input.now);
      nodes := nodes[k := node];
      if b.abilities.Some? {
        var negotiated := cfg.negotiate(b.abilities.value);
        if negotiated.None? { return Refused(422, "unsupported_ability"); }
        node := node.(abilities := negotiated.value);
      }
      node := Describe(node, b);
      nodes := nodes[k := node];
      audit := audit + [Stamp(input, 1, NodeHeartbeat, Some(b.nodeId), None, b.nodeId)];
      var failed := PersistOrRollback(before, input.commits);
      if failed { return STORAGE_UNAVAILABLE; }
      reply := NodeReply(200, node);
    }

    method Heartbeat(input: Input) returns (reply: Reply)
      requires input.request.Heartbeat?
      modifies this
      ensures Outcome(State(), reply) == Conclude(old(State()), DecideHeartbeat(cfg, old(Memory()), input), input)
      ensures Laws.BeatLaw(cfg, old(State()), input, Outcome(State(), reply))
    {
      Lawful.BeatIsLawful(cfg, State(), input);
      var b := input.request.beat;
      if b.nodeId == "" { return Refused(400, "invalid_node"); }
      if b.protocolVersion.Some? && b.protocolVersion.value != 1 {
        return Refused(426, "unsupported_protocol_version");
      }
      var k := Find(nodes, NodeNamed(b.nodeId));
      if k == |nodes| { return Refused(404, "node_not_found"); }
      if nodes[k].revoked { return Refused(403, "node_revoked"); }
      if b.namesSchedulingMetadata { return Refused(400, "immutable_node_metadata"); }
      reply := Refresh(k, input);
    }

    /** Leases the node's due tasks in place, each under a new token, and collects what the agent is sent. */
    method LeaseDueTasks(id: string, input: Input) returns (queued: seq<Task>)
      modifies this`tasks
      ensures |tasks| == |old(tasks)|
      ensures forall j :: 0 <= j < |tasks| ==> tasks[j] == LeaseAt(old(tasks)[j], id, input, j)
      ensures queued == Leases(old(tasks), id, input, |tasks|)
      ensures queued == [] ==> tasks == old(tasks)
      ensures Laws.LeasesWaiting(old(tasks), tasks, id, input)
      ensures Laws.SendsWaiting(old(tasks), tasks, queued, id, input.now)
    {
      queued := [];
      var i := 0;
      while i < |tasks|
        invariant i <= |tasks| == |old(tasks)|
        invariant forall j :: 0 <= j < i ==> tasks[j] == LeaseAt(old(tasks)[j], id, input, j)
        invariant forall j :: i <= j < |tasks| ==> tasks[j] == old(tasks)[j]
        invariant queued == Leases(old(tasks), id, input, i)
        invariant queued == [] ==> tasks == old(tasks)
      {
        if Due(tasks[i], id, input.now) {
          tasks := tasks[i := Leased(tasks[i], input.draw(FIRST_SPARE_DRAW + i), input.now)];
          queued := queued + [tasks[i]];
        }
        i := i + 1;
      }
      Lawful.LeasedInPlace(old(tasks), tasks, id, input);
    }

    method AgentTasks(input: Input) returns (reply: Reply)
      requires input.request.AgentTasks?
      modifies this
      ensures Outcome(State(), reply) == Conclude(old(State()), DecideAgentTasks(cfg, old(Memory()), input), input)
      ensures Laws.PollLaw(cfg, old(State()), input, Outcome(State(), reply))
    {
      Lawful.PollIsLawful(cfg, State(), input);
      var id := input.request.nodeId;
      var k := Find(nodes, FreshNamed(cfg, id, input.now));
      if k == |nodes| { return Refused(403, "node_revoked"); }
      reply := HandOut(id, input);
    }

    /** Leases what is due and saves, unless nothing is. */
    method HandOut(id: string, input: Input) returns (reply: Reply)
      modifies this
      ensures Outcome(State(), reply) == Conclude(old(State()), DecideLeases(old(Memory()), id, input), input)
    {
      var before := Memory();
      var queued := LeaseDueTasks(id, input);
      if queued != [] {
        audit := audit + [Stamp(input, 1, TaskDispatched, Some(id), None, id)];
        assert tasks == TasksAfter(before.tasks, before.nodes, Dispatch(id), input);
        var failed := PersistOrRollback(before, input.commits);
        if failed { return STORAGE_UNAVAILABLE; }
      }
      reply := LeasesReply(queued);
    }

    /** Takes the result of a task that was found, or says why not. */
    method Report(k: nat, digest: string, input: Input) returns (reply: Reply)
      requires input.request.AgentResult? && k < |tasks|
      requires tasks[k].id == input.request.taskId && tasks[k].nodeId == input.request.result.nodeId
      modifies this
      ensures Outcome(State(), reply) == Conclude(old(State()), DecideReport(old(Memory()), k, digest, input), input)
    {
      var id, b := input.request.taskId, input.request.result;
      var before := Memory();
      if b.requestId.Some? && b.requestId.value != tasks[k].requestId { return Refused(409, "request_id_mismatch"); }
      if tasks[k].state != Dispatched || tasks[k].leaseUntil < input.now { return Refused(409, "task_expired"); }
      if tasks[k].leaseToken == "" || tasks[k].leaseToken != b.leaseToken {
        return Refused(409, "lease_token_mismatch");
      }
      if !b.state.GetOr(Failed).Terminal() { return Refused(400, "invalid_task_state"); }
      tasks := tasks[k := Completed(tasks[k], b, digest)];
      var task := tasks[k];
      audit := audit + [Stamp(input, 1, TaskCompleted, Some(b.nodeId), Some(id), b.nodeId)];
      var failed := PersistOrRollback(before, input.commits);
      if failed { return STORAGE_UNAVAILABLE; }
      reply := TaskReply(200, task);
    }

    method AgentResult(input: Input) returns (reply: Reply)
      requires input.request.AgentResult?
      modifies this
      ensures Outcome(State(), reply) == Conclude(old(State()), DecideAgentResult(cfg, old(Memory()), input), input)
      ensures Laws.ResultLaw(cfg, old(State()), input, Outcome(State(), reply))
    {
      Lawful.ResultIsLawful(cfg, State(), input);
      var id, b := input.request.taskId, input.request.result;
      if b.requestId.Some? && !Text.ValidId(b.requestId.value) { return Refused(400, "invalid_request_id"); }
      var digest := VerifiedDigest(cfg, b);
      if digest.None? { return Refused(400, "output_hash_mismatch"); }
      var k := Find(tasks, TaskOn(id, b.nodeId));
      if k == |tasks| { return Refused(404, "task_not_found"); }
      reply := Report(k, digest.value, input);
    }

    /** Whatever the request, the server does what the engine's `Step` says. */
    method Handle(input: Input) returns (reply: Reply)
      modifies this
      ensures Outcome(State(), reply) == Step(cfg, old(State()), input)
      ensures Laws.Lawful(cfg, old(State()), input, Outcome(State(), reply))
    {
      Lawful.StepIsLawful(cfg, State(), input);
      match input.request {
        case CreateNode(_, _, _) => reply := CreateNode(input);
        case RevokeNode(_, _) => reply := RevokeNode(input);
        case RotateNode(_, _) => reply := RotateNode(input);
        case CreateGrant(_) => reply := CreateGrant(input);
        case RevokeGrant(_, _) => reply := RevokeGrant(input);
        case RedeemGrant(_, _, _, _) => reply := RedeemGrant(input);
        case CreateApproval(_, _, _, _, _, _) => reply := CreateApproval(input);
        case CreateTask(_, _) => reply := CreateTask(input);
        case CancelTask(_, _) => reply := CancelTask(input);
        case Heartbeat(_) => reply := Heartbeat(input);
        case AgentTasks(_) => reply := AgentTasks(input);
        case AgentResult(_, _) => reply := AgentResult(input);
      }
    }
  }
}
