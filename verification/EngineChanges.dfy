/**
 * Who may change what. Over any history, restarts included, a record changes
 * only when a request names it and asks for that change, and every record goes
 * back to the request that made it.
 */
module EngineChanges {
  import opened Records
  import opened Engine
  import opened EngineRuns
  import opened EngineInvariants
  import opened RequestLaws
  import EngineTheorems

  /* ---- tasks ---- */

  /** A poll by the task's own node leases it, when it waits. */
  ghost predicate LeasedBy(input: Input, t: Task, u: Task) {
    input.request.AgentTasks? && Waits(t, input.request.nodeId, input.now) &&
    u == t.(state := Dispatched, leaseToken := u.leaseToken, leaseUntil := u.leaseUntil)
  }

  /** A result from the task's own node, in time and under the task's own token, ends it. */
  ghost predicate EndedBy(input: Input, t: Task, u: Task) {
    var r := input.request;
    r.AgentResult? && r.taskId == t.id && r.result.nodeId == t.nodeId && t.state == Dispatched &&
    input.now <= t.leaseUntil && r.result.leaseToken == t.leaseToken != "" && HasEnded(u) &&
    u == t.(state := if r.result.state.Some? then r.result.state.value else Failed, exitCode := r.result.exitCode,
            output := u.output, outputTruncated := u.outputTruncated, outputSha256 := u.outputSha256)
  }

  /** Its own actor, or an administrator, cancels it by its id, before it has ended. */
  ghost predicate CancelledBy(input: Input, t: Task, u: Task) {
    var r := input.request;
    r.CancelTask? && r.taskId == t.id && (r.caller.Some? ==> r.caller.value == t.actor) && !HasEnded(t) &&
    u == t.(state := Cancelled, leaseUntil := 0)
  }

  /** Its node is revoked by id, before it has ended. */
  ghost predicate LostBy(input: Input, t: Task, u: Task) {
    input.request.RevokeNode? && Open(t, input.request.nodeId) && u == t.(state := Cancelled, leaseUntil := 0)
  }

  ghost predicate TaskAsked(input: Input, t: Task, u: Task) {
    LeasedBy(input, t, u) || EndedBy(input, t, u) || CancelledBy(input, t, u) || LostBy(input, t, u)
  }

  lemma EditOfTaskAsked(cfg: Config, s: Store, d: Delta, input: Input, k: nat)
    requires Legal(cfg, s, d, input) && k < |s.tasks|
    ensures var u := TasksAfter(s.tasks, s.nodes, d, input)[k]; u == s.tasks[k] || TaskAsked(input, s.tasks[k], u)
  {
  }

  /**
   * A task changes only at a saved request that asks for it: a poll by its own
   * node, a result for it under its own token, its cancellation, or its node's
   * revocation; and it changes as that request says.
   */
  lemma TaskChangesAreAsked(cfg: Config, trace: Trace, h: History, n: nat, k: nat)
    requires Follows(cfg, trace, h) && k < |h.state(n).mem.tasks|
    ensures k < |h.state(n + 1).mem.tasks|
    ensures var t, u := h.state(n).mem.tasks[k], h.state(n + 1).mem.tasks[k];
      u == t || (trace.at(n).commits && TaskAsked(trace.at(n), t, u))
  {
    assert Moves(cfg, trace, h, n);
    EngineTheorems.NothingGoesBack(cfg, trace, h, n, n + 1);
    if h.edit(n).Some? { EditOfTaskAsked(cfg, h.state(n).mem, h.edit(n).value, trace.at(n), k); }
  }

  /** A task's lease and token are touched by its own node's polls only; its end takes the lease away. */
  lemma TokensChangeAtOwnPolls(cfg: Config, trace: Trace, h: History, n: nat, k: nat)
    requires Follows(cfg, trace, h) && k < |h.state(n).mem.tasks| && k < |h.state(n + 1).mem.tasks|
    ensures var t, u := h.state(n).mem.tasks[k], h.state(n + 1).mem.tasks[k];
      u.leaseToken != t.leaseToken || (u.state == Dispatched && u != t) ==>
        trace.at(n).request.AgentTasks? && trace.at(n).request.nodeId == t.nodeId
  {
    TaskChangesAreAsked(cfg, trace, h, n, k);
  }

  /* ---- nodes ---- */

  ghost predicate RevokedBy(input: Input, n: Node, m: Node) {
    input.request.RevokeNode? && input.request.nodeId == n.id && m == n.(revoked := true, online := false)
  }

  ghost predicate RotatedBy(input: Input, n: Node, m: Node) {
    input.request.RotateNode? && input.request.nodeId == n.id && !n.revoked && m == n.(credential := m.credential)
  }

  /** A heartbeat touches what the machine says of itself, and nothing an administrator set. */
  ghost predicate HeardBy(input: Input, n: Node, m: Node) {
    input.request.Heartbeat? && input.request.beat.nodeId == n.id && !n.revoked &&
    m == n.(online := true, lastSeen := input.now, abilities := m.abilities, platform := m.platform,
            architecture := m.architecture, version := m.version)
  }

  ghost predicate NodeAsked(input: Input, n: Node, m: Node) {
    RevokedBy(input, n, m) || RotatedBy(input, n, m) || HeardBy(input, n, m)
  }

  lemma EditOfNodeAsked(cfg: Config, s: Store, d: Delta, input: Input, k: nat)
    requires Legal(cfg, s, d, input) && k < |s.nodes|
    ensures var m := NodesAfter(s.nodes, d)[k]; m == s.nodes[k] || NodeAsked(input, s.nodes[k], m)
  {
  }

  /**
   * A node changes only when a request names it: its revocation, its rotation
   * or its own heartbeat; or when the server is started again, and it is as it
   * was last saved, which differs in presence only.
   */
  lemma NodeChangesAreAsked(cfg: Config, trace: Trace, h: History, n: nat, k: nat)
    requires Follows(cfg, trace, h) && k < |h.state(n).mem.nodes|
    ensures k < |h.state(n + 1).mem.nodes| && k < |h.state(n).disk.nodes|
    ensures var a, b, saved := h.state(n).mem.nodes[k], h.state(n + 1).mem.nodes[k], h.state(n).disk.nodes[k];
      b == a || NodeAsked(trace.at(n), a, b) ||
      (b == saved && b == a.(online := saved.online, lastSeen := saved.lastSeen))
  {
    assert Moves(cfg, trace, h, n);
    AlwaysSound(cfg, trace, h, n);
    EngineTheorems.NothingGoesBack(cfg, trace, h, n, n + 1);
    if h.edit(n).Some? { EditOfNodeAsked(cfg, h.state(n).mem, h.edit(n).value, trace.at(n), k); }
  }

  /* ---- grants and approvals ---- */

  ghost predicate GrantAsked(input: Input, g: Grant, u: Grant) {
    (input.request.RevokeGrant? && input.request.code == g.code && u == g.(revoked := true)) ||
    (input.request.RedeemGrant? && input.request.code == g.code && !g.used && !g.revoked && input.now < g.expiresAt &&
     u == g.(used := true))
  }

  /** A grant changes only when a request brings its code: to revoke it, or to redeem it while it is good. */
  lemma GrantChangesAreAsked(cfg: Config, trace: Trace, h: History, n: nat, k: nat)
    requires Follows(cfg, trace, h) && k < |h.state(n).mem.grants|
    ensures k < |h.state(n + 1).mem.grants|
    ensures var g, u := h.state(n).mem.grants[k], h.state(n + 1).mem.grants[k];
      u == g || (trace.at(n).commits && GrantAsked(trace.at(n), g, u))
  {
    assert Moves(cfg, trace, h, n);
  }

  ghost predicate ApprovalAsked(input: Input, a: Approval, u: Approval) {
    input.request.CreateTask? && u == a.(used := true) && !a.used && input.now < a.expiresAt &&
    a.nodeId == input.request.task.nodeId && a.ability == input.request.task.ability &&
    a.argument == input.request.task.argument &&
    a.program == (if input.request.task.program.Some? then input.request.task.program.value else "echo") &&
    ActsAs(input.request.caller, input.request.task.actor, a.actor)
  }

  /** An approval changes only by being used, while it is good, for a submission it was given for. */
  lemma ApprovalChangesAreAsked(cfg: Config, trace: Trace, h: History, n: nat, k: nat)
    requires Follows(cfg, trace, h) && k < |h.state(n).mem.approvals|
    ensures k < |h.state(n + 1).mem.approvals|
    ensures var a, u := h.state(n).mem.approvals[k], h.state(n + 1).mem.approvals[k];
      u == a || (trace.at(n).commits && ApprovalAsked(trace.at(n), a, u))
  {
    assert Moves(cfg, trace, h, n);
  }

  /* ---- where records come from ---- */

  /** What the task was submitted with is what this request asked for, in the name of its own caller. */
  ghost predicate ComesFrom(t: Task, input: Input) {
    input.commits && input.request.CreateTask? &&
    var b := input.request.task;
    t.id == input.draw(0) && t.nodeId == b.nodeId && t.ability == b.ability && t.argument == b.argument &&
    t.idempotencyKey == b.idempotencyKey && ActsAs(input.request.caller, b.actor, t.actor) &&
    t.program == (if b.program.Some? then b.program.value else "echo")
  }

  lemma StartsEmpty(cfg: Config, trace: Trace, h: History, n: nat)
    requires Follows(cfg, trace, h) && (h.state(n).mem.tasks != [] || h.state(n).mem.approvals != [])
    ensures n > 0
  {
    assert h.state(0).mem == EMPTY_STORE;
  }

  lemma NextTaskComesFrom(cfg: Config, trace: Trace, h: History, n: nat, k: nat)
    requires Follows(cfg, trace, h) && |h.state(n).mem.tasks| <= k < |h.state(n + 1).mem.tasks|
    ensures ComesFrom(h.state(n + 1).mem.tasks[k], trace.at(n))
  {
    assert Moves(cfg, trace, h, n);
  }

  lemma OriginKept(t: Task, u: Task, input: Input)
    requires ComesFrom(t, input) && SameSubmission(u, t)
    ensures ComesFrom(u, input)
  {
  }

  /**
   * Every task in every reachable store was submitted by a saved request, for
   * the node, ability, program and argument that request named, and under the
   * name of its caller: nobody who is authenticated acts for anybody else.
   */
  lemma {:induction false} TasksAreGenuine(cfg: Config, trace: Trace, h: History, n: nat, k: nat) returns (i: nat)
    requires Follows(cfg, trace, h) && k < |h.state(n).mem.tasks|
    ensures i < n && ComesFrom(h.state(n).mem.tasks[k], trace.at(i))
  {
    StartsEmpty(cfg, trace, h, n);
    if k < |h.state(n - 1).mem.tasks| {
      i := TasksAreGenuine(cfg, trace, h, n - 1, k);
      EngineTheorems.NothingGoesBack(cfg, trace, h, n - 1, n);
      OriginKept(h.state(n - 1).mem.tasks[k], h.state(n).mem.tasks[k], trace.at(i));
    } else {
      NextTaskComesFrom(cfg, trace, h, n - 1, k);
      i := n - 1;
    }
  }

  ghost predicate GivenBy(a: Approval, input: Input) {
    input.commits && input.request.CreateApproval? &&
    var r := input.request;
    a.id == input.draw(0) && a.nodeId == r.nodeId && a.ability == r.ability == "task.exec" &&
    a.argument == r.argument && a.program == (if r.program.Some? then r.program.value else "echo") &&
    ActsAs(r.caller, r.claimedActor, a.actor) && a.expiresAt == input.now + 300_000
  }

  lemma NextApprovalGivenBy(cfg: Config, trace: Trace, h: History, n: nat, k: nat)
    requires Follows(cfg, trace, h) && |h.state(n).mem.approvals| <= k < |h.state(n + 1).mem.approvals|
    ensures GivenBy(h.state(n + 1).mem.approvals[k], trace.at(n))
  {
    assert Moves(cfg, trace, h, n);
  }

  lemma GiverKept(a: Approval, u: Approval, input: Input)
    requires GivenBy(a, input) && (u == a || u == a.(used := true))
    ensures GivenBy(u, input)
  {
  }

  /** Every approval was given by a saved request, for what it named, and under the name of its caller. */
  lemma {:induction false} ApprovalsAreGenuine(cfg: Config, trace: Trace, h: History, n: nat, k: nat)
    returns (i: nat)
    requires Follows(cfg, trace, h) && k < |h.state(n).mem.approvals|
    ensures i < n && GivenBy(h.state(n).mem.approvals[k], trace.at(i))
  {
    StartsEmpty(cfg, trace, h, n);
    if k < |h.state(n - 1).mem.approvals| {
      i := ApprovalsAreGenuine(cfg, trace, h, n - 1, k);
      EngineTheorems.NothingGoesBack(cfg, trace, h, n - 1, n);
      GiverKept(h.state(n - 1).mem.approvals[k], h.state(n).mem.approvals[k], trace.at(i));
    } else {
      NextApprovalGivenBy(cfg, trace, h, n - 1, k);
      i := n - 1;
    }
  }

  /* ---- revocation by name ---- */

  lemma RevocationNames(cfg: Config, trace: Trace, h: History, n: nat) returns (at: nat)
    requires Moves(cfg, trace, h, n) && h.edit(n).Some? && trace.at(n).request.RevokeNode?
    ensures at < |h.state(n + 1).mem.nodes| && h.state(n + 1).mem.nodes[at].revoked
    ensures h.state(n + 1).mem.nodes[at].id == trace.at(n).request.nodeId
  {
    at := h.edit(n).value.nodeAt;
  }

  lemma SameIdSamePlace(nodes: seq<Node>, i: nat, j: nat)
    requires NodesOk(nodes) && i < |nodes| && j < |nodes| && nodes[i].id == nodes[j].id
    ensures i == j
  {
  }

  lemma IdleHasNoneOpen(tasks: seq<Task>, id: string)
    requires forall i :: 0 <= i < |tasks| && tasks[i].nodeId == id ==> !tasks[i].state.Live()
    ensures forall i :: 0 <= i < |tasks| ==> !Open(tasks[i], id)
  {
  }

  /**
   * Once a request to revoke the node of some id has been saved, then ever
   * after that node is revoked and offline, none of its tasks is open, and
   * nothing it does is saved.
   */
  lemma RevokedByName(cfg: Config, trace: Trace, h: History, n: nat, m: nat, k: nat)
    requires FreshDraws(trace) && Follows(cfg, trace, h) && n < m
    requires h.edit(n).Some? && trace.at(n).request.RevokeNode?
    requires k < |h.state(m).mem.nodes| && h.state(m).mem.nodes[k].id == trace.at(n).request.nodeId
    ensures h.state(m).mem.nodes[k].revoked && !h.state(m).mem.nodes[k].online
    ensures forall i :: 0 <= i < |h.state(m).mem.tasks| ==> !Open(h.state(m).mem.tasks[i], trace.at(n).request.nodeId)
    ensures h.edit(m).Some? ==>
      Fits(h.state(m).mem, h.edit(m).value) &&
      !EngineTheorems.Engages(h.state(m).mem, h.edit(m).value, trace.at(n).request.nodeId)
  {
    assert Moves(cfg, trace, h, n);
    var at := RevocationNames(cfg, trace, h, n);
    EngineTheorems.RevokedForGood(cfg, trace, h, n + 1, m, at);
    AlwaysSound(cfg, trace, h, m);
    SameIdSamePlace(h.state(m).mem.nodes, at, k);
    IdleHasNoneOpen(h.state(m).mem.tasks, trace.at(n).request.nodeId);
  }
}
