/** The engine keeps the laws of every request. */
module LawfulRequests {
  import opened Records
  import opened Engine
  import opened RequestLaws
  import Text
  import Utf8

  /* ---- lookups ---- */

  lemma NodeFound(nodes: seq<Node>, id: string)
    ensures var k := FirstIndex(nodes, NodeNamed(id));
      (k == |nodes| <==> NoNode(nodes, id)) && (k < |nodes| ==> FirstNode(nodes, id, k)) &&
      forall j :: FirstNode(nodes, id, j) ==> j == k
  {
    assert forall i :: 0 <= i < |nodes| ==> (NodeNamed(id)(nodes[i]) <==> nodes[i].id == id);
  }

  lemma GrantFound(grants: seq<Grant>, code: string)
    ensures var k := FirstIndex(grants, GrantCoded(code));
      (k == |grants| <==> NoGrant(grants, code)) && (k < |grants| ==> FirstGrant(grants, code, k)) &&
      forall j :: FirstGrant(grants, code, j) ==> j == k
  {
    assert forall i :: 0 <= i < |grants| ==> (GrantCoded(code)(grants[i]) <==> grants[i].code == code);
  }

  lemma TaskFound(tasks: seq<Task>, id: string)
    ensures var k := FirstIndex(tasks, TaskNamed(id));
      (k == |tasks| <==> NoTask(tasks, id)) && (k < |tasks| ==> FirstTask(tasks, id, k)) &&
      forall j :: FirstTask(tasks, id, j) ==> j == k
  {
    assert forall i :: 0 <= i < |tasks| ==> (TaskNamed(id)(tasks[i]) <==> tasks[i].id == id);
  }

  lemma KeyFound(tasks: seq<Task>, key: string)
    ensures var k := FirstIndex(tasks, TaskKeyed(key));
      (KeyTaken(tasks, key) <==> key != "" && k < |tasks|) && (k < |tasks| ==> FirstKeyed(tasks, key, k)) &&
      forall j :: FirstKeyed(tasks, key, j) ==> j == k
  {
    assert forall i :: 0 <= i < |tasks| ==> (TaskKeyed(key)(tasks[i]) <==> tasks[i].idempotencyKey == key);
  }

  lemma TaskOnFound(tasks: seq<Task>, id: string, nodeId: string)
    ensures var k := FirstIndex(tasks, TaskOn(id, nodeId));
      (k == |tasks| <==> NoneOn(tasks, id, nodeId)) && (k < |tasks| ==> FirstOn(tasks, id, nodeId, k)) &&
      forall j :: FirstOn(tasks, id, nodeId, j) ==> j == k
  {
    assert forall i :: 0 <= i < |tasks| ==>
      (TaskOn(id, nodeId)(tasks[i]) <==> tasks[i].id == id && tasks[i].nodeId == nodeId);
  }

  lemma GoodFound(cfg: Config, grants: seq<Grant>, code: string, signature: string, now: nat)
    ensures var k := FirstIndex(grants, Redeemable(cfg, code, signature, now));
      (k == |grants| <==> NoneGood(cfg, grants, code, signature, now)) &&
      (k < |grants| ==> FirstGood(cfg, grants, code, signature, now, k)) &&
      forall j :: FirstGood(cfg, grants, code, signature, now, j) ==> j == k
  {
    assert forall i :: 0 <= i < |grants| ==>
      (Redeemable(cfg, code, signature, now)(grants[i]) <==> StillGood(cfg, grants[i], code, signature, now));
  }

  lemma ApprovalFound(approvals: seq<Approval>, id: string, t: Task, now: nat)
    ensures var k := FirstIndex(approvals, Consumable(id, t, now));
      (k == |approvals| <==> NoneApproves(approvals, id, t, now)) &&
      (k < |approvals| ==> FirstApproving(approvals, id, t, now, k)) &&
      forall j :: FirstApproving(approvals, id, t, now, j) ==> j == k
  {
    assert forall i :: 0 <= i < |approvals| ==>
      (Consumable(id, t, now)(approvals[i]) <==> Approves(approvals[i], id, t, now));
  }

  lemma UpFound(cfg: Config, nodes: seq<Node>, id: string, now: nat)
    ensures FirstIndex(nodes, FreshNamed(cfg, id, now)) < |nodes| <==> SomeUp(cfg, nodes, id, now)
  {
    assert forall i :: 0 <= i < |nodes| ==>
      (FreshNamed(cfg, id, now)(nodes[i]) <==> nodes[i].id == id && Up(cfg, nodes[i], now));
  }

  lemma OfferFound(nodes: seq<Node>, id: string, ability: string)
    ensures FirstIndex(nodes, OffersNamed(id, ability)) < |nodes| <==> SomeOffers(nodes, id, ability)
  {
    assert forall i :: 0 <= i < |nodes| ==>
      (OffersNamed(id, ability)(nodes[i]) <==>
       nodes[i].id == id && ability in Text.Split(nodes[i].abilities, ','));
  }

  /* ---- nodes ---- */

  lemma NewNodeIsDescribed(id: string, d: NodeBody, credential: string, now: nat)
    ensures AsDescribed(NewNode(id, d, credential, now), id, d, credential, now)
  {
  }

  lemma NodeIsCreated(sys: Sys, input: Input, node: Node)
    requires input.request.CreateNode?
    requires node == NewNode(input.request.nodeId, input.request.description, input.draw(0), input.now)
    ensures Creates(sys, input, Conclude(sys, Save(Enroll(node, None), NodeReply(201, node)), input))
  {
    NewNodeIsDescribed(input.request.nodeId, input.request.description, input.draw(0), input.now);
  }

  lemma GrantIsSpent(sys: Sys, input: Input, k: nat)
    requires input.request.RedeemGrant? && k < |sys.mem.grants|
    ensures Spends(sys, input, Conclude(sys, DecideSpending(sys.mem, k, input), input), k)
  {
    NewNodeIsDescribed(input.request.nodeId, input.request.description, input.draw(0), input.now);
  }

  lemma CreationIsLawful(cfg: Config, sys: Sys, input: Input)
    requires input.request.CreateNode?
    ensures CreationLaw(cfg, sys, input, Conclude(sys, DecideCreateNode(cfg, sys.mem, input), input))
  {
    var r := input.request;
    NodeFound(sys.mem.nodes, r.nodeId);
    NodeIsCreated(sys, input, NewNode(r.nodeId, r.description, input.draw(0), input.now));
  }

  /** A redemption before the grants are searched. */
  lemma RedemptionRefused(cfg: Config, sys: Sys, input: Input)
    requires input.request.RedeemGrant?
    requires var r := input.request;
      r.code == "" || r.signature == "" || !Text.ValidId(r.nodeId) || !LabelsAllowed(cfg, r.description) ||
      !NoNode(sys.mem.nodes, r.nodeId)
    ensures RedemptionLaw(cfg, sys, input, Conclude(sys, DecideRedeemGrant(cfg, sys.mem, input), input))
  {
    NodeFound(sys.mem.nodes, input.request.nodeId);
  }

  lemma RedemptionSearched(cfg: Config, sys: Sys, input: Input, k: nat)
    requires input.request.RedeemGrant?
    requires var r := input.request;
      r.code != "" && r.signature != "" && Text.ValidId(r.nodeId) && LabelsAllowed(cfg, r.description) &&
      NoNode(sys.mem.nodes, r.nodeId) &&
      k == FirstIndex(sys.mem.grants, Redeemable(cfg, r.code, r.signature, input.now))
    ensures DecideRedeemGrant(cfg, sys.mem, input) ==
      if k == |sys.mem.grants| then Answer(Refused(403, "grant_invalid_or_expired"))
      else DecideSpending(sys.mem, k, input)
  {
    NodeFound(sys.mem.nodes, input.request.nodeId);
  }

  lemma RedemptionIsLawful(cfg: Config, sys: Sys, input: Input)
    requires input.request.RedeemGrant?
    ensures RedemptionLaw(cfg, sys, input, Conclude(sys, DecideRedeemGrant(cfg, sys.mem, input), input))
  {
    var r := input.request;
    if r.code == "" || r.signature == "" || !Text.ValidId(r.nodeId) || !LabelsAllowed(cfg, r.description) ||
       !NoNode(sys.mem.nodes, r.nodeId) {
      RedemptionRefused(cfg, sys, input);
    } else {
      var k := FirstIndex(sys.mem.grants, Redeemable(cfg, r.code, r.signature, input.now));
      GoodFound(cfg, sys.mem.grants, r.code, r.signature, input.now);
      RedemptionSearched(cfg, sys, input, k);
      if k < |sys.mem.grants| { GrantIsSpent(sys, input, k); }
    }
  }

  lemma {:induction false} CancelRecordsAt(
    tasks: seq<Task>, nodeId: string, actor: string, input: Input, n: nat)
    requires n <= |tasks|
    ensures var records, at := CancelRecords(tasks, nodeId, actor, input, n), Positions(n, OpenAt(tasks, nodeId));
      |records| == |at| && forall j :: 0 <= j < |at| ==>
        at[j] < n && records[j] ==
          Activity(input.draw(2 + at[j]), TaskCancelledByRevoke, Some(nodeId), Some(tasks[at[j]].id), Some(actor),
                   input.now, "", "")
  {
    if n > 0 { CancelRecordsAt(tasks, nodeId, actor, input, n - 1); }
  }

  lemma RevocationIsLogged(s: Store, t: Store, input: Input, k: nat, actor: string)
    requires k < |s.nodes| && t.audit == s.audit + NewRecords(s, Retire(k, actor), input)
    ensures LogsRevocation(s, t, input, s.nodes[k].id, actor)
  {
    CancelRecordsAt(s.tasks, s.nodes[k].id, actor, input, |s.tasks|);
  }

  lemma RetirementRevokes(sys: Sys, input: Input, k: nat, actor: string)
    requires k < |sys.mem.nodes|
    ensures var out := Conclude(sys, DecideRetirement(sys.mem, k, actor), input);
      SavedOrUndone(sys, input, out) &&
      (input.commits ==>
         Revokes(sys, input, out, sys.mem.nodes[k].id, k) &&
         out.sys.mem.audit == sys.mem.audit + NewRecords(sys.mem, Retire(k, actor), input))
  {
  }

  lemma RevocationIsLawful(cfg: Config, sys: Sys, input: Input)
    requires input.request.RevokeNode?
    ensures RevocationLaw(sys, input, Conclude(sys, DecideRevokeNode(cfg, sys.mem, input), input))
  {
    var r := input.request;
    NodeFound(sys.mem.nodes, r.nodeId);
    var k := FirstIndex(sys.mem.nodes, NodeNamed(r.nodeId));
    if k < |sys.mem.nodes| {
      var actor := AuditActor(r.caller);
      RetirementRevokes(sys, input, k, actor);
      var out := Conclude(sys, DecideRetirement(sys.mem, k, actor), input);
      if input.commits { RevocationIsLogged(sys.mem, out.sys.mem, input, k, actor); }
      }
  }

  lemma RotationIsLawful(cfg: Config, sys: Sys, input: Input)
    requires input.request.RotateNode?
    ensures RotationLaw(sys, input, Conclude(sys, DecideRotateNode(cfg, sys.mem, input), input))
  {
    NodeFound(sys.mem.nodes, input.request.nodeId);
    var k := FirstIndex(sys.mem.nodes, NodeNamed(input.request.nodeId));
    assert k < |sys.mem.nodes| ==>
      RotationAt(sys, input, Conclude(sys, DecideRotateNode(cfg, sys.mem, input), input), k);
  }

  lemma RefreshIsLawful(cfg: Config, sys: Sys, input: Input, k: nat)
    requires input.request.Heartbeat? && k < |sys.mem.nodes|
    requires !sys.mem.nodes[k].revoked && !input.request.beat.namesSchedulingMetadata
    requires sys.mem.nodes[k].id == input.request.beat.nodeId
    ensures BeatAt(cfg, sys, input, Conclude(sys, DecideRefresh(cfg, sys.mem, k, input), input), k)
  {
  }

  lemma BeatIsLawful(cfg: Config, sys: Sys, input: Input)
    requires input.request.Heartbeat?
    ensures BeatLaw(cfg, sys, input, Conclude(sys, DecideHeartbeat(cfg, sys.mem, input), input))
  {
    var b := input.request.beat;
    NodeFound(sys.mem.nodes, b.nodeId);
    var k := FirstIndex(sys.mem.nodes, NodeNamed(b.nodeId));
    if k < |sys.mem.nodes| && !sys.mem.nodes[k].revoked && !b.namesSchedulingMetadata {
      RefreshIsLawful(cfg, sys, input, k);
    }
  }

  /* ---- grants and approvals ---- */

  lemma PledgeIsLawful(cfg: Config, sys: Sys, input: Input)
    requires input.request.CreateGrant?
    ensures GrantLaw(cfg, sys, input, Conclude(sys, DecideCreateGrant(cfg, sys.mem, input), input))
  {
  }

  lemma WithdrawalIsLawful(cfg: Config, sys: Sys, input: Input)
    requires input.request.RevokeGrant?
    ensures WithdrawalLaw(sys, input, Conclude(sys, DecideRevokeGrant(cfg, sys.mem, input), input))
  {
    GrantFound(sys.mem.grants, input.request.code);
  }

  /** The actor a request is made for is the only one it may be made for. */
  lemma ActorResolved(claimed: Option<string>, caller: Option<string>)
    ensures Impersonates(caller, claimed) <==> ResolveActor(claimed, caller).None?
    ensures !Impersonates(caller, claimed) ==> ActsAs(caller, claimed, ResolveActor(claimed, caller).value)
    ensures !Impersonates(caller, claimed) ==>
      forall actor {:trigger ActsAs(caller, claimed, actor)} :: ActsAs(caller, claimed, actor) ==>
        actor == ResolveActor(claimed, caller).value
  {
  }

  lemma AuthorizationIsLawful(cfg: Config, sys: Sys, input: Input)
    requires input.request.CreateApproval?
    ensures ApprovalLaw(sys, input, Conclude(sys, DecideCreateApproval(cfg, sys.mem, input), input))
  {
    ActorResolved(input.request.claimedActor, input.request.caller);
  }

  /* ---- submissions ---- */

  lemma RequestedIsAsAsked(input: Input, actor: string)
    requires input.request.CreateTask? && ActsAs(input.request.caller, input.request.task.actor, actor)
    ensures AsAsked(Requested(input.request.task, actor, input), input)
  {
  }

  lemma FreelyQueued(sys: Sys, input: Input, task: Task)
    ensures QueuedFreely(sys, input, Conclude(sys, Save(Submit(task, None), TaskReply(202, task)), input), task)
  {
  }

  lemma AgainstQueued(sys: Sys, input: Input, task: Task, k: nat)
    requires k < |sys.mem.approvals|
    ensures QueuedAgainst(sys, input, Conclude(sys, Save(Submit(task, Some(k)), TaskReply(202, task)), input), task, k)
  {
  }

  lemma GateIsLawful(cfg: Config, sys: Sys, input: Input, task: Task)
    requires input.request.CreateTask?
    ensures GateLaw(cfg, sys, input,
                    Conclude(sys, DecideApproval(cfg, sys.mem, task, input.request.task, input), input), task)
  {
    var b := input.request.task;
    FreelyQueued(sys, input, task);
    if b.approvalId.Some? {
      ApprovalFound(sys.mem.approvals, b.approvalId.value, task, input.now);
      var k := FirstIndex(sys.mem.approvals, Consumable(b.approvalId.value, task, input.now));
      if k < |sys.mem.approvals| { AgainstQueued(sys, input, task, k); }
    }
  }

  lemma RequestIsDenied(cfg: Config, t: Task)
    ensures var known := NamesPath(t) || t.ability == "task.exec" || t.ability == "system.inspect";
      RequestRefusal(cfg, t) ==
        if !known then Some(Refused(403, "forbidden")) else if Denied(cfg, t) then Some(Refused(403, "policy_denied"))
        else None
  {
  }

  lemma ClassFound(cfg: Config, nodes: seq<Node>, id: string)
    ensures var at := FirstIndex(nodes, NodeNamed(id));
      WrongClass(cfg, nodes, id) <==>
        at < |nodes| && cfg.allowedDataClasses != [] && nodes[at].dataClass !in cfg.allowedDataClasses
  {
    NodeFound(nodes, id);
    var at := FirstIndex(nodes, NodeNamed(id));
    if at < |nodes| && cfg.allowedDataClasses != [] && nodes[at].dataClass !in cfg.allowedDataClasses {
      assert FirstNode(nodes, id, at) && nodes[at].dataClass !in cfg.allowedDataClasses;
      assert WrongClass(cfg, nodes, id);
    }
    if WrongClass(cfg, nodes, id) {
      var k: nat :| FirstNode(nodes, id, k) && nodes[k].dataClass !in cfg.allowedDataClasses;
      assert k == at;
    }
  }

  lemma NodeIsDenied(cfg: Config, nodes: seq<Node>, t: Task)
    ensures NodeRefusal(cfg, nodes, t) ==
      if WrongClass(cfg, nodes, t.nodeId) then Some(Refused(403, "policy_denied"))
      else if !SomeOffers(nodes, t.nodeId, t.ability) then Some(Refused(403, "ability_unavailable")) else None
  {
    NodeFound(nodes, t.nodeId);
    OfferFound(nodes, t.nodeId, t.ability);
    ClassFound(cfg, nodes, t.nodeId);
  }

  lemma PolicyIsLawful(cfg: Config, sys: Sys, input: Input, task: Task)
    requires input.request.CreateTask?
    ensures PolicyLaw(cfg, sys, input,
                      Conclude(sys, DecideSubmission(cfg, sys.mem, task, input.request.task, input), input), task)
  {
    UpFound(cfg, sys.mem.nodes, task.nodeId, input.now);
    RequestIsDenied(cfg, task);
    NodeIsDenied(cfg, sys.mem.nodes, task);
    GateIsLawful(cfg, sys, input, task);
  }

  lemma SubmissionIsLawful(cfg: Config, sys: Sys, input: Input)
    requires input.request.CreateTask?
    ensures SubmissionLaw(cfg, sys, input, Conclude(sys, DecideCreateTask(cfg, sys.mem, input), input))
  {
    var b := input.request.task;
    ActorResolved(b.actor, input.request.caller);
    if !Impersonates(input.request.caller, b.actor) {
      var actor := ResolveActor(b.actor, input.request.caller).value;
      var task := Requested(b, actor, input);
      RequestedIsAsAsked(input, actor);
      KeyFound(sys.mem.tasks, task.idempotencyKey);
      PolicyIsLawful(cfg, sys, input, task);
      assert TaskLaw(cfg, sys, input, Conclude(sys, DecideCreateTask(cfg, sys.mem, input), input), task);
    }
  }

  lemma CancellationIsLawful(cfg: Config, sys: Sys, input: Input)
    requires input.request.CancelTask?
    ensures CancellationLaw(sys, input, Conclude(sys, DecideCancelTask(cfg, sys.mem, input), input))
  {
    TaskFound(sys.mem.tasks, input.request.taskId);
    var k := FirstIndex(sys.mem.tasks, TaskNamed(input.request.taskId));
    assert k < |sys.mem.tasks| ==>
      CancellationAt(sys, input, Conclude(sys, DecideCancelTask(cfg, sys.mem, input), input), k);
  }

  /* ---- polls ---- */

  lemma {:induction false} LeasesAt(tasks: seq<Task>, nodeId: string, input: Input, n: nat)
    requires n <= |tasks|
    ensures var leases, at := Leases(tasks, nodeId, input, n), Positions(n, WaitsAt(tasks, nodeId, input.now));
      |leases| == |at| && (forall j :: 0 <= j < |at| ==>
        at[j] < n && leases[j] == LeaseAt(tasks[at[j]], nodeId, input, at[j])) &&
      (at == [] <==> forall i :: 0 <= i < n ==> !Waits(tasks[i], nodeId, input.now))
  {
    if n > 0 { LeasesAt(tasks, nodeId, input, n - 1); }
  }

  /** Tasks leased where they are. */
  lemma LeasedInPlace(before: seq<Task>, after: seq<Task>, nodeId: string, input: Input)
    requires |after| == |before|
    requires forall j :: 0 <= j < |before| ==> after[j] == LeaseAt(before[j], nodeId, input, j)
    ensures LeasesWaiting(before, after, nodeId, input)
    ensures SendsWaiting(before, after, Leases(before, nodeId, input, |before|), nodeId, input.now)
  {
    LeasesAt(before, nodeId, input, |before|);
  }

  lemma PollIsLawful(cfg: Config, sys: Sys, input: Input)
    requires input.request.AgentTasks?
    ensures PollLaw(cfg, sys, input, Conclude(sys, DecideAgentTasks(cfg, sys.mem, input), input))
  {
    var id, s := input.request.nodeId, sys.mem;
    UpFound(cfg, s.nodes, id, input.now);
    LeasesAt(s.tasks, id, input, |s.tasks|);
    LeasedInPlace(s.tasks, TasksAfter(s.tasks, s.nodes, Dispatch(id), input), id, input);
  }

  /* ---- results ---- */

  lemma LowercaseAlike(a: string, b: string)
    ensures Lowercase(a) == b <==> LowerAlike(a, b)
  {
  }

  lemma DigestChecked(cfg: Config, b: ResultBody)
    ensures VerifiedDigest(cfg, b) == if WrongDigest(cfg, b) then None else Some(cfg.sha256(b.output))
  {
    if b.outputSha256.Some? {
      var claimed := b.outputSha256.value;
      LowercaseAlike(claimed, cfg.sha256(b.output));
      assert forall c :: c in "0123456789abcdefABCDEF" <==> IsHexDigit(c);
      assert forall i :: 0 <= i < |claimed| ==> claimed[i] in claimed;
    }
  }

  lemma CompletedPreviews(t: Task, b: ResultBody, digest: string)
    ensures Previews(Completed(t, b, digest), t, b.output)
  {
    var room := Min(t.outputLimit, MAX_PERSISTED_OUTPUT_BYTES);
    var done := Completed(t, b, digest);
    Utf8.TruncateIsLongestFit(b.output, room);
    Utf8.EncodeLength(b.output);
    Utf8.EncodeLength(done.output);
    forall n | |done.output| < n <= |b.output| ensures |Utf8.Encode(b.output[..n])| > room {
      Utf8.EncodeLength(b.output[..n]);
    }
  }

  lemma CompletedConcludes(cfg: Config, t: Task, b: ResultBody)
    ensures Concludes(cfg, Completed(t, b, cfg.sha256(b.output)), t, b)
  {
    CompletedPreviews(t, b, cfg.sha256(b.output));
  }

  lemma ReportIsLawful(cfg: Config, sys: Sys, input: Input, k: nat)
    requires input.request.AgentResult? && k < |sys.mem.tasks|
    requires sys.mem.tasks[k].id == input.request.taskId && sys.mem.tasks[k].nodeId == input.request.result.nodeId
    ensures ResultAt(cfg, sys, input,
                     Conclude(sys, DecideReport(sys.mem, k, cfg.sha256(input.request.result.output), input),
                              input), k)
  {
    CompletedConcludes(cfg, sys.mem.tasks[k], input.request.result);
  }

  lemma ResultIsLawful(cfg: Config, sys: Sys, input: Input)
    requires input.request.AgentResult?
    ensures ResultLaw(cfg, sys, input, Conclude(sys, DecideAgentResult(cfg, sys.mem, input), input))
  {
    var r, b := input.request, input.request.result;
    DigestChecked(cfg, b);
    TaskOnFound(sys.mem.tasks, r.taskId, b.nodeId);
    var k := FirstIndex(sys.mem.tasks, TaskOn(r.taskId, b.nodeId));
    if k < |sys.mem.tasks| { ReportIsLawful(cfg, sys, input, k); }
  }

  /* ---- every request ---- */

  predicate IsAdministrative(r: Request) {
    r.CreateNode? || r.RevokeNode? || r.RotateNode? || r.CreateGrant? || r.RevokeGrant? || r.RedeemGrant? ||
    r.CreateApproval?
  }

  lemma AdministrativeStepIsLawful(cfg: Config, sys: Sys, input: Input)
    requires IsAdministrative(input.request)
    ensures Lawful(cfg, sys, input, Step(cfg, sys, input))
  {
    match input.request
    case CreateNode(_, _, _) => CreationIsLawful(cfg, sys, input);
    case RevokeNode(_, _) => RevocationIsLawful(cfg, sys, input);
    case RotateNode(_, _) => RotationIsLawful(cfg, sys, input);
    case CreateGrant(_) => PledgeIsLawful(cfg, sys, input);
    case RevokeGrant(_, _) => WithdrawalIsLawful(cfg, sys, input);
    case RedeemGrant(_, _, _, _) => RedemptionIsLawful(cfg, sys, input);
    case CreateApproval(_, _, _, _, _, _) => AuthorizationIsLawful(cfg, sys, input);
  }

  lemma TaskStepIsLawful(cfg: Config, sys: Sys, input: Input)
    requires !IsAdministrative(input.request)
    ensures Lawful(cfg, sys, input, Step(cfg, sys, input))
  {
    match input.request
    case CreateTask(_, _) => SubmissionIsLawful(cfg, sys, input);
    case CancelTask(_, _) => CancellationIsLawful(cfg, sys, input);
    case Heartbeat(_) => BeatIsLawful(cfg, sys, input);
    case AgentTasks(_) => PollIsLawful(cfg, sys, input);
    case AgentResult(_, _) => ResultIsLawful(cfg, sys, input);
  }

  /** Whatever the request, the engine's step keeps its law. */
  lemma StepIsLawful(cfg: Config, sys: Sys, input: Input)
    ensures Lawful(cfg, sys, input, Step(cfg, sys, input))
  {
    if IsAdministrative(input.request) {
      AdministrativeStepIsLawful(cfg, sys, input);
    } else {
      TaskStepIsLawful(cfg, sys, input);
    }
  }
}
