/** When each request succeeds: the handlers' chains of checks, read as one condition on the store and the policy. */
module EngineOutcomes {
  import opened Records
  import opened Engine
  import opened EngineRuns
  import opened EngineInvariants
  import opened Counting
  import Laws = RequestLaws
  import LawfulRequests
  import Text

  /* ---- submissions ---- */

  predicate WithinBounds(t: Task) {
    1 <= t.outputLimit <= 1_048_576 && 1 <= t.timeoutMs <= 300_000 &&
    Text.ValidId(t.requestId) && Text.ValidId(t.actor)
  }

  predicate KeyFree(tasks: seq<Task>, key: string) {
    key == "" || forall i :: 0 <= i < |tasks| ==> tasks[i].idempotencyKey != key
  }

  /** The policy file lets the actor use the ability on this program. */
  predicate PolicyAllows(cfg: Config, t: Task) {
    t.ability in ["file.read", "file.write", "task.exec", "system.inspect"] && t.ability in cfg.allowedAbilities &&
    (cfg.allowedActors == [] || t.actor in cfg.allowedActors) &&
    (t.ability == "task.exec" && cfg.allowedCommands != [] ==> t.program in cfg.allowedCommands) &&
    (t.ability == "file.read" || t.ability == "file.write" ==> cfg.allowsPath(t.program))
  }

  /** The node holds an allowed data class and offers the ability. */
  predicate NodeSuits(cfg: Config, n: Node, ability: string) {
    (cfg.allowedDataClasses == [] || n.dataClass in cfg.allowedDataClasses) && ability in Text.Split(n.abilities, ',')
  }

  /** Some node of that id is up and suits. */
  ghost predicate NodeAllows(cfg: Config, nodes: seq<Node>, t: Task, now: nat) {
    exists i :: 0 <= i < |nodes| && nodes[i].id == t.nodeId && Laws.Up(cfg, nodes[i], now) &&
      NodeSuits(cfg, nodes[i], t.ability)
  }

  /** An approval is not needed, or is given: by an unused, unexpired record that covers the task, or by flag. */
  ghost predicate ApprovalGiven(cfg: Config, approvals: seq<Approval>, t: Task, b: TaskBody, now: nat) {
    Laws.NeedsApproval(cfg, t.ability) ==>
      if cfg.requireApprovalRecords then
        b.approvalId.Some? &&
        exists k :: 0 <= k < |approvals| && Laws.Approves(approvals[k], b.approvalId.value, t, now)
      else b.approved
  }

  predicate UniqueNodes(nodes: seq<Node>) {
    forall i, j :: 0 <= i < j < |nodes| ==> nodes[i].id != nodes[j].id
  }

  /** With unique ids, every search for the node finds the same one. */
  lemma NodeFoundOnce(nodes: seq<Node>, id: string, i: nat)
    requires UniqueNodes(nodes) && i < |nodes| && nodes[i].id == id
    ensures FirstIndex(nodes, NodeNamed(id)) == i
  {
    assert NodeNamed(id)(nodes[i]);
  }

  lemma FreshNodeFound(cfg: Config, nodes: seq<Node>, id: string, now: nat)
    ensures FirstIndex(nodes, FreshNamed(cfg, id, now)) < |nodes| <==> Serving(cfg, nodes, id, now)
  {
    assert forall k :: 0 <= k < |nodes| && nodes[k].id == id && Fresh(cfg, nodes[k], now) ==>
      FreshNamed(cfg, id, now)(nodes[k]);
  }

  lemma OfferFound(nodes: seq<Node>, id: string, ability: string, i: nat)
    requires UniqueNodes(nodes) && i < |nodes| && nodes[i].id == id
    ensures FirstIndex(nodes, OffersNamed(id, ability)) < |nodes| <==> ability in Text.Split(nodes[i].abilities, ',')
  {
    var j := FirstIndex(nodes, OffersNamed(id, ability));
    if j < |nodes| {
      NodeFoundOnce(nodes, id, i);
      NodeFoundOnce(nodes, id, j);
    }
    assert OffersNamed(id, ability)(nodes[i]) <==> ability in Text.Split(nodes[i].abilities, ',');
  }

  /** The three searches among the nodes, as the handler makes them. */
  predicate NodeGates(cfg: Config, nodes: seq<Node>, t: Task, now: nat) {
    var at := FirstIndex(nodes, NodeNamed(t.nodeId));
    FirstIndex(nodes, FreshNamed(cfg, t.nodeId, now)) < |nodes| &&
    (at < |nodes| && cfg.allowedDataClasses != [] ==> nodes[at].dataClass in cfg.allowedDataClasses) &&
    FirstIndex(nodes, OffersNamed(t.nodeId, t.ability)) < |nodes|
  }

  lemma NodeGatesRead(cfg: Config, nodes: seq<Node>, t: Task, now: nat)
    requires UniqueNodes(nodes)
    ensures NodeGates(cfg, nodes, t, now) <==> NodeAllows(cfg, nodes, t, now)
  {
    FreshNodeFound(cfg, nodes, t.nodeId, now);
    forall i | 0 <= i < |nodes| && nodes[i].id == t.nodeId
      ensures FirstIndex(nodes, NodeNamed(t.nodeId)) == i
      ensures FirstIndex(nodes, OffersNamed(t.nodeId, t.ability)) < |nodes| <==>
              t.ability in Text.Split(nodes[i].abilities, ',')
    {
      NodeFoundOnce(nodes, t.nodeId, i);
      OfferFound(nodes, t.nodeId, t.ability, i);
    }
  }

  lemma RequestGatesRead(cfg: Config, t: Task)
    ensures RequestRefusal(cfg, t).None? <==> PolicyAllows(cfg, t)
  {
  }

  lemma GatesRead(cfg: Config, s: Store, t: Task, now: nat)
    ensures PolicyRefusal(cfg, s, t, now).None? <==> PolicyAllows(cfg, t) && NodeGates(cfg, s.nodes, t, now)
  {
    RequestGatesRead(cfg, t);
  }

  lemma PolicyRefusalReads(cfg: Config, s: Store, t: Task, now: nat)
    requires UniqueNodes(s.nodes)
    ensures PolicyRefusal(cfg, s, t, now).None? <==> PolicyAllows(cfg, t) && NodeAllows(cfg, s.nodes, t, now)
  {
    GatesRead(cfg, s, t, now);
    NodeGatesRead(cfg, s.nodes, t, now);
  }

  lemma ApprovalReads(cfg: Config, s: Store, t: Task, b: TaskBody, input: Input)
    ensures DecideApproval(cfg, s, t, b, input).Save? <==> ApprovalGiven(cfg, s.approvals, t, b, input.now)
  {
    if Gated(cfg, t.ability) && cfg.requireApprovalRecords && b.approvalId.Some? {
      var p := Consumable(b.approvalId.value, t, input.now);
      var k := FirstIndex(s.approvals, p);
      if ApprovalGiven(cfg, s.approvals, t, b, input.now) {
        var j :| 0 <= j < |s.approvals| && Laws.Approves(s.approvals[j], b.approvalId.value, t, input.now);
        assert p(s.approvals[j]);
      }
    }
  }

  /** The task is within bounds, its key is free, the policy allows it, an up node suits it and it is approved. */
  ghost predicate Allowed(cfg: Config, s: Store, t: Task, input: Input)
    requires input.request.CreateTask?
  {
    WithinBounds(t) && KeyFree(s.tasks, t.idempotencyKey) && PolicyAllows(cfg, t) &&
    NodeAllows(cfg, s.nodes, t, input.now) && ApprovalGiven(cfg, s.approvals, t, input.request.task, input.now)
  }

  /** The caller does not claim to be someone else, and the task it asks for is allowed. */
  ghost predicate Admissible(cfg: Config, s: Store, input: Input)
    requires input.request.CreateTask?
  {
    !Laws.Impersonates(input.request.caller, input.request.task.actor) &&
    forall t {:trigger Laws.AsAsked(t, input)} :: Laws.AsAsked(t, input) ==> Allowed(cfg, s, t, input)
  }

  lemma KeyFreeReads(tasks: seq<Task>, key: string)
    ensures KeyFree(tasks, key) <==> key == "" || FirstIndex(tasks, TaskKeyed(key)) == |tasks|
  {
    assert forall i :: 0 <= i < |tasks| && tasks[i].idempotencyKey == key ==> TaskKeyed(key)(tasks[i]);
  }

  /** What is asked for is one task. */
  lemma AskedOnce(input: Input, actor: string)
    requires input.request.CreateTask? && Laws.ActsAs(input.request.caller, input.request.task.actor, actor)
    ensures Laws.AsAsked(Requested(input.request.task, actor, input), input)
    ensures forall t :: Laws.AsAsked(t, input) ==> t == Requested(input.request.task, actor, input)
  {
  }

  lemma AllowedIsSaved(cfg: Config, s: Store, t: Task, input: Input)
    requires input.request.CreateTask? && UniqueNodes(s.nodes)
    ensures Allowed(cfg, s, t, input) <==>
      TaskBodyRefusal(t).None? &&
      (t.idempotencyKey == "" || FirstIndex(s.tasks, TaskKeyed(t.idempotencyKey)) == |s.tasks|) &&
      DecideSubmission(cfg, s, t, input.request.task, input).Save?
  {
    KeyFreeReads(s.tasks, t.idempotencyKey);
    PolicyRefusalReads(cfg, s, t, input.now);
    ApprovalReads(cfg, s, t, input.request.task, input);
  }

  /**
   * A submission queues a task exactly when it is admissible. Neither the order
   * of the checks nor anything else in the store matters.
   */
  lemma QueuedExactlyWhenAllowed(cfg: Config, s: Store, input: Input)
    requires input.request.CreateTask? && UniqueNodes(s.nodes)
    ensures DecideCreateTask(cfg, s, input).Save? <==> Admissible(cfg, s, input)
  {
    var b := input.request.task;
    var actor := ResolveActor(b.actor, input.request.caller);
    LawfulRequests.ActorResolved(b.actor, input.request.caller);
    if actor.Some? {
      var t := Requested(b, actor.value, input);
      AskedOnce(input, actor.value);
      AllowedIsSaved(cfg, s, t, input);
    }
  }

  /* ---- enrollment ---- */

  predicate IdFree(nodes: seq<Node>, id: string) {
    forall i :: 0 <= i < |nodes| ==> nodes[i].id != id
  }

  lemma IdFreeReads(nodes: seq<Node>, id: string)
    ensures FirstIndex(nodes, NodeNamed(id)) == |nodes| <==> IdFree(nodes, id)
  {
    assert forall i :: 0 <= i < |nodes| && nodes[i].id == id ==> NodeNamed(id)(nodes[i]);
  }

  /** An administrator's node is created exactly when its id is well formed and free and its labels are allowed. */
  lemma CreatedExactlyWhenFree(cfg: Config, s: Store, input: Input)
    requires input.request.CreateNode?
    ensures DecideCreateNode(cfg, s, input).Save? <==>
      Text.ValidId(input.request.nodeId) && cfg.validLabels(input.request.description.labels.GetOr("")) &&
      IdFree(s.nodes, input.request.nodeId)
  {
    IdFreeReads(s.nodes, input.request.nodeId);
  }

  /** A grant is redeemed exactly when, besides, some grant of that code and signature is genuine and still good. */
  lemma RedeemedExactlyWhenGood(cfg: Config, s: Store, input: Input)
    requires input.request.RedeemGrant?
    ensures var r := input.request;
      DecideRedeemGrant(cfg, s, input).Save? <==>
        r.code != "" && r.signature != "" && Text.ValidId(r.nodeId) &&
        cfg.validLabels(r.description.labels.GetOr("")) && IdFree(s.nodes, r.nodeId) &&
        exists k :: 0 <= k < |s.grants| && Laws.StillGood(cfg, s.grants[k], r.code, r.signature, input.now)
  {
    var r := input.request;
    IdFreeReads(s.nodes, r.nodeId);
    var p := Redeemable(cfg, r.code, r.signature, input.now);
    assert forall k :: 0 <= k < |s.grants| && Laws.StillGood(cfg, s.grants[k], r.code, r.signature, input.now) ==>
      p(s.grants[k]);
  }

  /* ---- cancellation ---- */

  /** A task is cancelled exactly when the caller may act for its actor and it has not ended. */
  lemma CancelledExactlyWhenOpen(cfg: Config, s: Store, input: Input)
    requires input.request.CancelTask?
    requires forall i, j :: 0 <= i < j < |s.tasks| ==> s.tasks[i].id != s.tasks[j].id
    ensures DecideCancelTask(cfg, s, input).Save? <==>
      exists k :: 0 <= k < |s.tasks| && s.tasks[k].id == input.request.taskId && !Laws.HasEnded(s.tasks[k]) &&
        (input.request.caller.Some? ==> s.tasks[k].actor == input.request.caller.value)
  {
    var id := input.request.taskId;
    var first := FirstIndex(s.tasks, TaskNamed(id));
    forall k | 0 <= k < |s.tasks| && s.tasks[k].id == id ensures k == first {
      assert TaskNamed(id)(s.tasks[k]);
    }
  }

  /* ---- polling ---- */

  ghost function DueAt(nodeId: string, now: nat): Task -> bool {
    (t: Task) => Laws.Waits(t, nodeId, now)
  }

  lemma {:induction false} LeasesAreTheDue(tasks: seq<Task>, nodeId: string, input: Input, n: nat)
    requires n <= |tasks|
    ensures |Leases(tasks, nodeId, input, n)| == Count(tasks[..n], DueAt(nodeId, input.now))
    ensures forall k :: 0 <= k < n && Laws.Waits(tasks[k], nodeId, input.now) ==>
      var at := Count(tasks[..k], DueAt(nodeId, input.now));
      at < |Leases(tasks, nodeId, input, n)| &&
      Leases(tasks, nodeId, input, n)[at] == Laws.UnderLease(tasks[k], input.draw(2 + k), input.now)
  {
    if n > 0 {
      LeasesAreTheDue(tasks, nodeId, input, n - 1);
      assert tasks[..n][..n - 1] == tasks[..n - 1];
    }
  }

  /**
   * A poll by a node that is up is answered with its own waiting tasks, all of
   * them and no others, in their order, each under a new lease and its own
   * token; a node that is not up is refused.
   */
  lemma PollLeasesExactlyTheDue(cfg: Config, s: Store, input: Input)
    requires input.request.AgentTasks?
    ensures var id := input.request.nodeId; var reply := DecideAgentTasks(cfg, s, input).reply;
      var due := DueAt(id, input.now);
      if Laws.SomeUp(cfg, s.nodes, id, input.now) then
        reply.LeasesReply? && |reply.tasks| == Count(s.tasks, due) &&
        (DecideAgentTasks(cfg, s, input).Save? <==> Count(s.tasks, due) > 0) &&
        forall k :: 0 <= k < |s.tasks| && Laws.Waits(s.tasks[k], id, input.now) ==>
          var at := Count(s.tasks[..k], due);
          at < |reply.tasks| && reply.tasks[at] == Laws.UnderLease(s.tasks[k], input.draw(2 + k), input.now)
      else reply == Refused(403, "node_revoked") && DecideAgentTasks(cfg, s, input).Answer?
  {
    var id := input.request.nodeId;
    LawfulRequests.UpFound(cfg, s.nodes, id, input.now);
    LeasesAreTheDue(s.tasks, id, input, |s.tasks|);
    assert s.tasks[..|s.tasks|] == s.tasks;
  }
}
