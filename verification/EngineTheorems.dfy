/**
 * What the engine guarantees over whole runs: any requests in any order, any
 * replies lost or repeated, any commits failing. Results are stated of every
 * history of legal edits; `EngineRuns.RunFollows` shows a run of the engine is one.
 */
module EngineTheorems {
  import opened Records
  import opened Engine
  import opened EngineRuns
  import opened EngineInvariants
  import opened Counting
  import AuditChain
  import LawfulRequests
  import RequestLaws
  import Text

  /* ---- commit or rollback ---- */

  /**
   * After every response, memory and the last committed store agree on
   * everything except nodes' presence.
   */
  lemma CommitOrRollback(cfg: Config, trace: Trace, h: History, n: nat)
    requires Follows(cfg, trace, h)
    ensures var sys := h.state(n);
            SameButPresence(sys.mem.nodes, sys.disk.nodes) && sys.mem == sys.disk.(nodes := sys.mem.nodes)
  {
    AlwaysSound(cfg, trace, h, n);
  }

  /** A 503 leaves memory and disk exactly as they were before the request. */
  lemma Unavailable503ChangesNothing(cfg: Config, sys: Sys, input: Input)
    requires Step(cfg, sys, input).reply == STORAGE_UNAVAILABLE
    ensures Step(cfg, sys, input).sys == sys
  {
  }

  /* ---- what never goes back ---- */

  predicate TasksGrow(a: seq<Task>, b: seq<Task>) {
    |a| <= |b| && forall k :: 0 <= k < |a| ==>
      SameSubmission(b[k], a[k]) && (a[k].state.Terminal() ==> b[k] == a[k])
  }

  /** Everything an administrator gave the node when it was enrolled. */
  predicate SameMetadata(a: Node, b: Node) {
    a.id == b.id && a.name == b.name && a.labels == b.labels && a.region == b.region && a.dataClass == b.dataClass &&
    a.capacity == b.capacity
  }

  predicate NodesGrow(a: seq<Node>, b: seq<Node>) {
    |a| <= |b| && forall k :: 0 <= k < |a| ==> SameMetadata(b[k], a[k]) && (a[k].revoked ==> b[k].revoked)
  }

  predicate ApprovalsGrow(a: seq<Approval>, b: seq<Approval>) {
    |a| <= |b| && forall k :: 0 <= k < |a| ==> b[k] == a[k] || (!a[k].used && b[k] == a[k].(used := true))
  }

  predicate GrantsGrow(a: seq<Grant>, b: seq<Grant>) {
    |a| <= |b| && forall k :: 0 <= k < |a| ==>
      b[k].code == a[k].code && b[k].expiresAt == a[k].expiresAt &&
      (a[k].used ==> b[k].used) && (a[k].revoked ==> b[k].revoked && b[k].used == a[k].used)
  }

  lemma EditGrowsTasks(cfg: Config, tasks: seq<Task>, nodes: seq<Node>, d: Delta, input: Input)
    requires NodesFit(nodes, d) && TasksLegal(cfg, tasks, nodes, d, input)
    ensures TasksGrow(tasks, TasksAfter(tasks, nodes, d, input))
  {
  }

  lemma EditGrowsNodes(nodes: seq<Node>, d: Delta, now: nat)
    requires NodesLegal(nodes, d, now)
    ensures NodesGrow(nodes, NodesAfter(nodes, d))
  {
  }

  lemma EditGrowsGrants(grants: seq<Grant>, d: Delta, input: Input)
    requires GrantsLegal(grants, d, input)
    ensures GrantsGrow(grants, GrantsAfter(grants, d))
  {
  }

  lemma EditGrowsApprovals(cfg: Config, approvals: seq<Approval>, d: Delta, input: Input)
    requires ApprovalsLegal(cfg, approvals, d, input)
    ensures ApprovalsGrow(approvals, ApprovalsAfter(approvals, d))
  {
  }

  lemma EditGrows(cfg: Config, s: Store, d: Delta, input: Input)
    requires Legal(cfg, s, d, input)
    ensures Grows(s, Apply(s, d, input))
  {
    EditGrowsTasks(cfg, s.tasks, s.nodes, d, input);
    EditGrowsNodes(s.nodes, d, input.now);
    EditGrowsGrants(s.grants, d, input);
    EditGrowsApprovals(cfg, s.approvals, d, input);
  }

  predicate Grows(a: Store, b: Store) {
    TasksGrow(a.tasks, b.tasks) && NodesGrow(a.nodes, b.nodes) && GrantsGrow(a.grants, b.grants) &&
    ApprovalsGrow(a.approvals, b.approvals) && a.audit <= b.audit
  }

  lemma NextGrows(cfg: Config, trace: Trace, h: History, n: nat)
    requires Moves(cfg, trace, h, n) && Sound(h.state(n))
    ensures Grows(h.state(n).mem, h.state(n + 1).mem)
  {
    var d := h.edit(n);
    if d.Some? { EditGrows(cfg, h.state(n).mem, d.value, trace.at(n)); }
  }

  lemma GrowsOn(a: Store, b: Store, c: Store)
    requires Grows(a, b) && Grows(b, c)
    ensures Grows(a, c)
  {
  }

  predicate GrowsAt(state: nat -> Sys, i: nat) {
    Grows(state(i).mem, state(i + 1).mem)
  }

  lemma {:induction false} GrowsAlong(state: nat -> Sys, n: nat, m: nat)
    requires n <= m && forall i: nat :: GrowsAt(state, i)
    ensures Grows(state(n).mem, state(m).mem)
    decreases m
  {
    if n < m {
      GrowsAlong(state, n, m - 1);
      assert GrowsAt(state, m - 1);
      GrowsOn(state(n).mem, state(m - 1).mem, state(m).mem);
    }
  }

  /**
   * Vectors only grow and entries keep their place. What a task was submitted
   * with never changes, and a terminal task never changes at all; a node's
   * administrator-owned metadata never changes, and a revoked node stays
   * revoked; a grant once used stays used, and once revoked stays revoked and
   * is never redeemed afterwards; an approval changes once, from unused to
   * used; the log is append-only.
   */
  lemma NothingGoesBack(cfg: Config, trace: Trace, h: History, n: nat, m: nat)
    requires Follows(cfg, trace, h) && n <= m
    ensures Grows(h.state(n).mem, h.state(m).mem)
  {
    forall i: nat ensures GrowsAt(h.state, i) {
      AlwaysSound(cfg, trace, h, i);
      assert Moves(cfg, trace, h, i);
      NextGrows(cfg, trace, h, i);
    }
    GrowsAlong(h.state, n, m);
  }

  /* ---- conservation ---- */

  /**
   * Each task has exactly one acceptance record; it is terminal exactly when
   * the log holds exactly one record of its end, and live exactly when it
   * holds none.
   */
  lemma TaskLedger(cfg: Config, trace: Trace, h: History, n: nat, k: nat)
    requires FreshDraws(trace) && Follows(cfg, trace, h) && k < |h.state(n).mem.tasks|
    ensures var s := h.state(n).mem; var t := s.tasks[k];
            Tally(s.audit, TaskAccepted, t.id) == 1 &&
            (t.state.Terminal() <==> Closings(s.audit, t.id) == 1) &&
            (t.state.Live() <==> Closings(s.audit, t.id) == 0)
  {
    Reachable(cfg, trace, h, n);
    var s := h.state(n).mem;
    assert Settled(s.audit, s.tasks[k]) && TaskOk(trace, n, s.tasks[k]);
  }

  /**
   * Node ids are unique; every node has its creation or redemption record; and
   * used grants are exactly the redemptions recorded.
   */
  lemma NodesAndGrantsConserved(cfg: Config, trace: Trace, h: History, n: nat)
    requires FreshDraws(trace) && Follows(cfg, trace, h)
    ensures var s := h.state(n).mem;
            (forall i, j :: 0 <= i < j < |s.nodes| ==> s.nodes[i].id != s.nodes[j].id) &&
            |s.nodes| == CountOf(s.audit, NodeCreated) + CountOf(s.audit, GrantRedeemed) &&
            Count(s.grants, Used()) == CountOf(s.audit, GrantRedeemed)
  {
    Reachable(cfg, trace, h, n);
  }

  /**
   * Used approvals, consumption records and, when approval records are
   * required, the tasks that need one correspond one to one: the i-th approval
   * consumed is used and names the node, ability, program, argument and actor
   * of the i-th such task.
   */
  lemma ApprovalsConserved(cfg: Config, trace: Trace, h: History, n: nat)
    requires FreshDraws(trace) && Follows(cfg, trace, h)
    ensures var s := h.state(n).mem; var ids := ConsumedIds(s.audit);
            Paired(cfg, s.approvals, ids, GatedTasks(cfg, s.tasks)) &&
            |ids| == CountOf(s.audit, ApprovalConsumed) == Count(s.approvals, Spent()) &&
            (cfg.requireApprovalRecords ==> |GatedTasks(cfg, s.tasks)| == |ids|)
  {
    Reachable(cfg, trace, h, n);
  }

  /** In record mode a gated ability other than `task.exec` is never accepted. */
  lemma OnlyExecIsEverApproved(cfg: Config, trace: Trace, h: History, n: nat, k: nat)
    requires FreshDraws(trace) && Follows(cfg, trace, h) && cfg.requireApprovalRecords
    requires k < |GatedTasks(cfg, h.state(n).mem.tasks)|
    ensures GatedTasks(cfg, h.state(n).mem.tasks)[k].ability == "task.exec"
  {
    Reachable(cfg, trace, h, n);
    var s := h.state(n).mem;
    assert Pays(s.approvals, ConsumedIds(s.audit)[k], GatedTasks(cfg, s.tasks)[k]);
  }

  /** A submission not answered 202 uses no approval, writes no record and changes nothing else. */
  lemma OnlyAcceptanceConsumes(cfg: Config, sys: Sys, input: Input, reply: Reply)
    requires input.request.CreateTask? && reply == Step(cfg, sys, input).reply
    requires reply.TaskReply? ==> reply.status != 202
    ensures Step(cfg, sys, input).sys == sys
  {
    if Decide(cfg, sys.mem, input).Save? && input.commits { assert false; }
  }

  /* ---- fencing ---- */

  /** Request number `i` leased the task at position `k`, and the lease was committed. */
  predicate LeasesAt(trace: Trace, h: History, i: nat, k: nat) {
    var s, d := h.state(i).mem, h.edit(i);
    d.Some? && d.value.Dispatch? && k < |s.tasks| && s.tasks[k].nodeId == d.value.nodeId &&
    (s.tasks[k].state == Queued || (s.tasks[k].state == Dispatched && s.tasks[k].leaseUntil <= trace.at(i).now))
  }

  /** Request number `j` was an accepted result for the task at position `k`. */
  predicate AcceptsAt(h: History, j: nat, k: nat) {
    var d := h.edit(j);
    d.Some? && d.value.Complete? && d.value.taskAt == k
  }

  /** The token a lease of the task at position `k` hands out. */
  function TokenOf(trace: Trace, i: nat, k: nat): string {
    trace.at(i).draw(FIRST_SPARE_DRAW + k)
  }

  /** One more than the latest of the first `n` requests that leased the task, or 0 when none did. */
  function LatestLease(trace: Trace, h: History, n: nat, k: nat): (r: nat)
    ensures r <= n && (r > 0 ==> LeasesAt(trace, h, r - 1, k))
    ensures forall i :: r <= i < n ==> !LeasesAt(trace, h, i, k)
  {
    if n == 0 then 0 else if LeasesAt(trace, h, n - 1, k) then n else LatestLease(trace, h, n - 1, k)
  }

  /** What one edit can do to a task: lease it when due, end it, or leave it alone. */
  lemma EditOfTask(cfg: Config, tasks: seq<Task>, nodes: seq<Node>, d: Delta, input: Input, k: nat)
    requires NodesFit(nodes, d) && TasksLegal(cfg, tasks, nodes, d, input) && k < |tasks|
    ensures var t := TasksAfter(tasks, nodes, d, input)[k];
      t == tasks[k] || (t.state.Terminal() && t.leaseToken == tasks[k].leaseToken) ||
      (d.Dispatch? && Due(tasks[k], d.nodeId, input.now) &&
       t == Leased(tasks[k], input.draw(FIRST_SPARE_DRAW + k), input.now))
    ensures d.Dispatch? && Due(tasks[k], d.nodeId, input.now) ==>
      TasksAfter(tasks, nodes, d, input)[k] == Leased(tasks[k], input.draw(FIRST_SPARE_DRAW + k), input.now)
  {
  }

  /** One request does to a task what its edit does, and only a lease makes it dispatched. */
  lemma NextTask(cfg: Config, trace: Trace, h: History, n: nat, k: nat)
    requires Follows(cfg, trace, h) && k < |h.state(n + 1).mem.tasks|
    ensures var t := h.state(n + 1).mem.tasks[k];
      if k >= |h.state(n).mem.tasks| then t.state == Queued && t.leaseToken == ""
      else if LeasesAt(trace, h, n, k) then t == Leased(h.state(n).mem.tasks[k], TokenOf(trace, n, k), trace.at(n).now)
      else t.leaseToken == h.state(n).mem.tasks[k].leaseToken && (t == h.state(n).mem.tasks[k] || t.state.Terminal())
    ensures |h.state(n).mem.tasks| <= |h.state(n + 1).mem.tasks|
  {
    assert Moves(cfg, trace, h, n);
    var s := h.state(n).mem;
    if h.edit(n).Some? && k < |s.tasks| { EditOfTask(cfg, s.tasks, s.nodes, h.edit(n).value, trace.at(n), k); }
  }

  /** The token in the task is the one its latest committed lease handed out. */
  predicate TokenIsLatest(trace: Trace, h: History, n: nat, k: nat) {
    var tasks, r := h.state(n).mem.tasks, LatestLease(trace, h, n, k);
    if k < |tasks| then tasks[k].leaseToken == if r == 0 then "" else TokenOf(trace, r - 1, k) else r == 0
  }

  lemma NextToken(cfg: Config, trace: Trace, h: History, n: nat, k: nat)
    requires Follows(cfg, trace, h) && TokenIsLatest(trace, h, n, k)
    ensures TokenIsLatest(trace, h, n + 1, k)
  {
    if k < |h.state(n + 1).mem.tasks| {
      NextTask(cfg, trace, h, n, k);
    } else {
      TasksOnlyGrow(cfg, trace, h, n);
    }
  }

  lemma TasksOnlyGrow(cfg: Config, trace: Trace, h: History, n: nat)
    requires Follows(cfg, trace, h)
    ensures |h.state(n).mem.tasks| <= |h.state(n + 1).mem.tasks|
  {
    NothingGoesBack(cfg, trace, h, n, n + 1);
  }

  /** The property is passed on at turn `m`. */
  predicate Passes(p: nat -> bool, m: nat) {
    p(m) ==> p(m + 1)
  }

  lemma {:induction false} Always(p: nat -> bool, n: nat)
    requires p(0) && forall m: nat :: Passes(p, m)
    ensures p(n)
  {
    if n > 0 {
      Always(p, n - 1);
      assert Passes(p, n - 1);
    }
  }

  lemma TokenAtStart(trace: Trace, h: History, k: nat)
    requires h.state(0) == Sys(EMPTY_STORE, EMPTY_STORE)
    ensures TokenIsLatest(trace, h, 0, k)
  {
  }

  lemma TokenStaysLatest(cfg: Config, trace: Trace, h: History, n: nat, k: nat)
    requires Follows(cfg, trace, h)
    ensures TokenIsLatest(trace, h, n, k)
  {
    ghost var p: nat -> bool := (m: nat) => TokenIsLatest(trace, h, m, k);
    forall m: nat ensures Passes(p, m) { if p(m) { NextToken(cfg, trace, h, m, k); } }
    TokenAtStart(trace, h, k);
    Always(p, n);
  }

  lemma AcceptanceEnds(cfg: Config, trace: Trace, h: History, j: nat, k: nat)
    requires Follows(cfg, trace, h) && AcceptsAt(h, j, k)
    ensures k < |h.state(j).mem.tasks| && !h.state(j).mem.tasks[k].state.Terminal()
    ensures Reports(trace.at(j), h.state(j).mem.tasks[k])
    ensures k < |h.state(j + 1).mem.tasks| && h.state(j + 1).mem.tasks[k].state.Terminal()
  {
    assert Moves(cfg, trace, h, j);
  }

  /** The result accepted at `j` is the only one ever, under the token of the latest committed lease before it. */
  ghost predicate Fenced(trace: Trace, h: History, j: nat, k: nat) {
    var i := LatestLease(trace, h, j, k) - 1;
    0 <= i < j && LeasesAt(trace, h, i, k) && (forall m :: i < m < j ==> !LeasesAt(trace, h, m, k)) &&
    trace.at(j).request.AgentResult? && trace.at(j).request.result.leaseToken == TokenOf(trace, i, k) &&
    forall m: nat :: m != j ==> !AcceptsAt(h, m, k)
  }

  /**
   * Each task accepts at most one result in the whole run, and the token it
   * accepts is the one handed out by that task's latest committed lease. Any
   * number of agents may share the node and their results may arrive late,
   * twice or out of order: nothing is assumed of requests or of the clock.
   */
  lemma Fencing(cfg: Config, trace: Trace, h: History, j: nat, k: nat)
    requires Follows(cfg, trace, h) && AcceptsAt(h, j, k)
    ensures Fenced(trace, h, j, k)
  {
    AcceptanceEnds(cfg, trace, h, j, k);
    TokenStaysLatest(cfg, trace, h, j, k);
    forall m: nat | m != j ensures !AcceptsAt(h, m, k) { OneAcceptance(cfg, trace, h, j, m, k); }
  }

  lemma OneAcceptance(cfg: Config, trace: Trace, h: History, j: nat, m: nat, k: nat)
    requires Follows(cfg, trace, h) && AcceptsAt(h, j, k) && m != j
    ensures !AcceptsAt(h, m, k)
  {
    if AcceptsAt(h, m, k) {
      AcceptanceEnds(cfg, trace, h, j, k);
      AcceptanceEnds(cfg, trace, h, m, k);
      if m < j { NothingGoesBack(cfg, trace, h, m + 1, j); } else { NothingGoesBack(cfg, trace, h, j + 1, m); }
    }
  }

  /** Once a task has been leased again, its token differs from the one any earlier lease handed out. */
  lemma TokenMovesOn(cfg: Config, trace: Trace, h: History, i: nat, m: nat, j: nat, k: nat)
    requires FreshDraws(trace) && Follows(cfg, trace, h) && i < m < j
    requires LeasesAt(trace, h, i, k) && LeasesAt(trace, h, m, k)
    ensures k < |h.state(j).mem.tasks| && h.state(j).mem.tasks[k].leaseToken != TokenOf(trace, i, k)
  {
    NothingGoesBack(cfg, trace, h, m, j);
    TokenStaysLatest(cfg, trace, h, j, k);
    var latest := LatestLease(trace, h, j, k) - 1;
    assert latest >= m;
    assert trace.origin(TokenOf(trace, i, k)) == (i, FIRST_SPARE_DRAW + k);
    assert trace.origin(TokenOf(trace, latest, k)) == (latest, FIRST_SPARE_DRAW + k);
  }

  /** A result for a task of a known id under any token but the task's own is refused and changes nothing. */
  lemma WrongTokenRefused(cfg: Config, sys: Sys, input: Input, k: nat)
    requires input.request.AgentResult? && k < |sys.mem.tasks| && input.request.taskId == sys.mem.tasks[k].id
    requires forall i :: 0 <= i < |sys.mem.tasks| && sys.mem.tasks[i].id == input.request.taskId ==> i == k
    requires input.request.result.leaseToken != sys.mem.tasks[k].leaseToken
    ensures Step(cfg, sys, input).sys == sys && Step(cfg, sys, input).reply.Refused?
  {
    assert Decide(cfg, sys.mem, input) == DecideAgentResult(cfg, sys.mem, input);
  }

  /** After a task has been leased again, a result under an earlier lease's token is refused and changes nothing. */
  lemma StaleResultRefused(cfg: Config, trace: Trace, h: History, i: nat, m: nat, j: nat, k: nat)
    requires FreshDraws(trace) && Follows(cfg, trace, h) && i < m < j
    requires LeasesAt(trace, h, i, k) && LeasesAt(trace, h, m, k)
    requires trace.at(j).request.AgentResult? && trace.at(j).request.result.leaseToken == TokenOf(trace, i, k)
    requires trace.at(j).request.taskId == h.state(m).mem.tasks[k].id
    ensures Step(cfg, h.state(j), trace.at(j)).sys == h.state(j)
    ensures Step(cfg, h.state(j), trace.at(j)).reply.Refused?
  {
    TokenMovesOn(cfg, trace, h, i, m, j, k);
    NothingGoesBack(cfg, trace, h, m, j);
    Reachable(cfg, trace, h, j);
    WrongTokenRefused(cfg, h.state(j), trace.at(j), k);
  }

  /**
   * At the instant a lease runs out, taking the task back and accepting its
   * result are both enabled. Whichever the mutex admits first decides: after
   * the poll the result is refused, and after the result the task is no longer
   * due.
   */
  lemma BoundaryInstant(cfg: Config, sys: Sys, poll: Input, report: Input, k: nat)
    requires k < |sys.mem.tasks| && Reports(report, sys.mem.tasks[k])
    requires forall i :: 0 <= i < |sys.mem.tasks| && sys.mem.tasks[i].id == report.request.taskId ==> i == k
    requires poll.now == report.now == sys.mem.tasks[k].leaseUntil
    requires poll.draw(FIRST_SPARE_DRAW + k) != sys.mem.tasks[k].leaseToken
    requires Committed(cfg, sys, poll) == Some(Dispatch(sys.mem.tasks[k].nodeId))
    requires Committed(cfg, sys, report).Some? && Committed(cfg, sys, report).value.Complete?
    requires Committed(cfg, sys, report).value.taskAt == k
    ensures Due(sys.mem.tasks[k], sys.mem.tasks[k].nodeId, poll.now)
    ensures var polled := Step(cfg, sys, poll).sys;
      Step(cfg, polled, report).reply.Refused? && Step(cfg, polled, report).sys == polled
    ensures var reported := Step(cfg, sys, report).sys;
      k < |reported.mem.tasks| && reported.mem.tasks[k].state.Terminal() &&
      !Due(reported.mem.tasks[k], sys.mem.tasks[k].nodeId, poll.now)
  {
    StepMoves(cfg, sys, poll);
    StepMoves(cfg, sys, report);
    PolledAt(sys.mem, poll, k);
    WrongTokenRefused(cfg, Step(cfg, sys, poll).sys, report, k);
  }

  lemma PolledAt(s: Store, poll: Input, k: nat)
    requires k < |s.tasks| && Due(s.tasks[k], s.tasks[k].nodeId, poll.now)
    ensures var tasks := Apply(s, Dispatch(s.tasks[k].nodeId), poll).tasks;
      |tasks| == |s.tasks| && tasks[k].leaseToken == poll.draw(FIRST_SPARE_DRAW + k) &&
      forall i :: 0 <= i < |tasks| ==> tasks[i].id == s.tasks[i].id
  {
  }

  /* ---- leases ---- */

  /** How many of requests `i` to `j - 1` leased the task. */
  function LeaseCount(trace: Trace, h: History, i: nat, j: nat, k: nat): nat
    requires i <= j
    decreases j
  {
    if i == j then 0 else LeaseCount(trace, h, i, j - 1, k) + if LeasesAt(trace, h, j - 1, k) then 1 else 0
  }

  /** While the task is leased, its lease runs at least 35 seconds from its latest hand-out. */
  predicate LeaseRuns(trace: Trace, h: History, n: nat, k: nat) {
    var tasks, r := h.state(n).mem.tasks, LatestLease(trace, h, n, k);
    k < |tasks| && tasks[k].state == Dispatched ==>
      r > 0 && tasks[k].leaseUntil ==
        trace.at(r - 1).now + Max(tasks[k].timeoutMs, DEFAULT_TASK_TIMEOUT_MS) + 5_000
  }

  lemma NextLeaseRuns(cfg: Config, trace: Trace, h: History, n: nat, k: nat)
    requires Follows(cfg, trace, h) && LeaseRuns(trace, h, n, k)
    ensures LeaseRuns(trace, h, n + 1, k)
  {
    if k < |h.state(n + 1).mem.tasks| { NextTask(cfg, trace, h, n, k); }
  }

  lemma LeaseRunsFromLatest(cfg: Config, trace: Trace, h: History, n: nat, k: nat)
    requires Follows(cfg, trace, h)
    ensures LeaseRuns(trace, h, n, k)
  {
    ghost var p: nat -> bool := (m: nat) => LeaseRuns(trace, h, m, k);
    forall m: nat ensures Passes(p, m) { if p(m) { NextLeaseRuns(cfg, trace, h, m, k); } }
    assert h.state(0).mem.tasks == [];
    Always(p, n);
  }

  /** No task that has been leased goes back to the queue. */
  lemma {:induction false} NeverQueuedAgain(cfg: Config, trace: Trace, h: History, i: nat, n: nat, k: nat)
    requires Follows(cfg, trace, h) && LeasesAt(trace, h, i, k) && i < n
    ensures k < |h.state(n).mem.tasks| && h.state(n).mem.tasks[k].state != Queued
    decreases n
  {
    NothingGoesBack(cfg, trace, h, i, n);
    NothingGoesBack(cfg, trace, h, i, n - 1);
    NextTask(cfg, trace, h, n - 1, k);
    if i < n - 1 { NeverQueuedAgain(cfg, trace, h, i, n - 1, k); }
  }

  /**
   * When each poll reads the clock once, leases of one task are at least 35
   * seconds apart, however the clock moves from request to request: a task
   * leased first at `t0` and again at `t1` has been leased at most
   * `1 + (t1 - t0) / 35000` times in between, both ends counted. The program
   * reads the clock again between finding the task due and dating its new
   * lease; were it set back in between, that lease would run for less.
   */
  lemma {:induction false} LeasesAreSpaced(cfg: Config, trace: Trace, h: History, i: nat, j: nat, k: nat)
    requires Follows(cfg, trace, h) && i <= j && LeasesAt(trace, h, i, k) && LeasesAt(trace, h, j, k)
    ensures 35_000 * (LeaseCount(trace, h, i, j + 1, k) - 1) <= trace.at(j).now - trace.at(i).now
    decreases j
  {
    if i == j {
      assert LeaseCount(trace, h, i, i, k) == 0;
    } else {
      var last := LatestLease(trace, h, j, k) - 1;
      NeverQueuedAgain(cfg, trace, h, i, j, k);
      LeaseRunsFromLatest(cfg, trace, h, j, k);
      assert last >= i;
      LeasesAreSpaced(cfg, trace, h, i, last, k);
      CountGap(trace, h, i, last + 1, j, k);
    }
  }

  lemma {:induction false} CountGap(trace: Trace, h: History, i: nat, m: nat, j: nat, k: nat)
    requires i <= m <= j && forall x :: m <= x < j ==> !LeasesAt(trace, h, x, k)
    ensures LeaseCount(trace, h, i, j, k) == LeaseCount(trace, h, i, m, k)
    decreases j
  {
    if m < j { CountGap(trace, h, i, m, j - 1, k); }
  }

  ghost predicate ClockNeverGoesBack(trace: Trace) {
    forall i: nat, j: nat :: i <= j ==> trace.at(i).now <= trace.at(j).now
  }

  /** All that is ever assumed of a run at once: fresh names, checked callers, machine words and a clock in order. */
  ghost predicate Ordinary(trace: Trace) {
    FreshDraws(trace) && Authenticated(trace) && WithinWords(trace) && ClockNeverGoesBack(trace)
  }

  predicate CallerChecked(r: Request) {
    Caller(r).Some? ==> Text.ValidActor(Caller(r).value)
  }

  predicate FitsWords(input: Input) {
    input.now + 305_000 <= U64_MAX &&
    (input.request.AgentResult? ==> ExitCodeFits(input.request.result.exitCode))
  }

  /**
   * Any requests by checked callers, with any commits, met under any clock that
   * keeps its order and its word, make an ordinary run once names are drawn for
   * them: what is proved of ordinary runs is proved of something.
   */
  lemma OrdinaryRunsExist(at: nat -> Input)
    requires forall i: nat :: CallerChecked(at(i).request) && FitsWords(at(i))
    requires forall i: nat, j: nat :: i <= j ==> at(i).now <= at(j).now
    ensures exists origin :: Ordinary(Trace(WithNames(at), origin))
  {
    FreshRunsExist(at);
    var origin :| FreshDraws(Trace(WithNames(at), origin));
    var trace := Trace(WithNames(at), origin);
    forall i: nat ensures trace.at(i).request == at(i).request && trace.at(i).now == at(i).now &&
                          CallerChecked(trace.at(i).request) && FitsWords(trace.at(i)) {
      assert CallerChecked(at(i).request) && FitsWords(at(i));
    }
    assert Ordinary(trace);
  }

  /** One of them: a server that is only ever asked for grants, at one instant. */
  lemma SomeRunIsOrdinary()
    ensures exists trace :: Ordinary(trace) && forall i: nat :: trace.at(i).request == CreateGrant(None)
  {
    var at := (i: nat) => Input(0, true, CreateGrant(None), (k: nat) => "");
    OrdinaryRunsExist(at);
    var origin :| Ordinary(Trace(WithNames(at), origin));
    var trace := Trace(WithNames(at), origin);
    assert Ordinary(trace) && forall i: nat :: trace.at(i).request == CreateGrant(None);
  }

  /**
   * Under a clock that never goes back, an agent that reports within the
   * task's own timeout still holds its lease: nobody else was given the task,
   * its token is the current one, and unless the task was ended meanwhile at
   * least 5000 ms of lease are left.
   */
  lemma PromptReporterHoldsLease(cfg: Config, trace: Trace, h: History, i: nat, j: nat, k: nat)
    requires Follows(cfg, trace, h) && ClockNeverGoesBack(trace) && i < j && LeasesAt(trace, h, i, k)
    requires trace.at(j).now <= trace.at(i).now + h.state(i).mem.tasks[k].timeoutMs
    ensures forall m :: i < m < j ==> !LeasesAt(trace, h, m, k)
    ensures k < |h.state(j).mem.tasks| && h.state(j).mem.tasks[k].leaseToken == TokenOf(trace, i, k)
    ensures h.state(j).mem.tasks[k].state == Dispatched ==>
              h.state(j).mem.tasks[k].leaseUntil >= trace.at(j).now + 5_000
  {
    NothingGoesBack(cfg, trace, h, i, j);
    NotLeasedAgain(cfg, trace, h, i, j, k);
    TokenStaysLatest(cfg, trace, h, j, k);
    LeaseRunsFromLatest(cfg, trace, h, j, k);
  }

  lemma {:induction false} NotLeasedAgain(cfg: Config, trace: Trace, h: History, i: nat, j: nat, k: nat)
    requires Follows(cfg, trace, h) && ClockNeverGoesBack(trace) && i < j && LeasesAt(trace, h, i, k)
    requires trace.at(j).now <= trace.at(i).now + h.state(i).mem.tasks[k].timeoutMs
    ensures forall m :: i < m < j ==> !LeasesAt(trace, h, m, k)
    decreases j
  {
    if i + 1 < j {
      assert trace.at(j - 1).now <= trace.at(j).now;
      NotLeasedAgain(cfg, trace, h, i, j - 1, k);
      NotLeasedNext(cfg, trace, h, i, j - 1, k);
    }
  }

  lemma NotLeasedNext(cfg: Config, trace: Trace, h: History, i: nat, j: nat, k: nat)
    requires Follows(cfg, trace, h) && i < j && LeasesAt(trace, h, i, k)
    requires trace.at(j).now <= trace.at(i).now + h.state(i).mem.tasks[k].timeoutMs
    requires forall m :: i < m < j ==> !LeasesAt(trace, h, m, k)
    ensures !LeasesAt(trace, h, j, k)
  {
    assert LatestLease(trace, h, j, k) == i + 1;
    NothingGoesBack(cfg, trace, h, i, j);
    NeverQueuedAgain(cfg, trace, h, i, j, k);
    LeaseRunsFromLatest(cfg, trace, h, j, k);
  }

  /** The result's own members are in order: request id, digest and final state. */
  ghost predicate WellFormed(cfg: Config, b: ResultBody, t: Task) {
    (b.requestId.Some? ==> b.requestId.value == t.requestId) && !RequestLaws.WrongDigest(cfg, b) &&
    (b.state.Some? ==> RequestLaws.IsFinal(b.state.value))
  }

  /**
   * A result is accepted exactly when it is well formed and comes from the
   * task's node, in time, for a task still leased and under its current token;
   * otherwise it is refused and changes nothing.
   */
  lemma ReportedExactlyWhenHeld(cfg: Config, s: Store, input: Input, k: nat)
    requires input.request.AgentResult? && k < |s.tasks|
    requires forall i :: 0 <= i < |s.tasks| && s.tasks[i].id == input.request.taskId <==> i == k
    requires Text.ValidId(s.tasks[k].requestId)
    ensures var d := DecideAgentResult(cfg, s, input);
      if Reports(input, s.tasks[k]) && WellFormed(cfg, input.request.result, s.tasks[k])
      then d.Save? && d.delta.taskAt == k && d.reply == TaskReply(200, d.delta.task)
      else d.Answer? && d.reply.Refused?
  {
    var p := TaskOn(input.request.taskId, input.request.result.nodeId);
    LawfulRequests.DigestChecked(cfg, input.request.result);
    assert s.tasks[k].id == input.request.taskId;
    assert FirstIndex(s.tasks, p) == if s.tasks[k].nodeId == input.request.result.nodeId then k else |s.tasks|;
  }

  lemma AcceptedExactlyWhenHeld(cfg: Config, sys: Sys, input: Input, k: nat)
    requires input.request.AgentResult? && input.commits && k < |sys.mem.tasks|
    requires forall i :: 0 <= i < |sys.mem.tasks| && sys.mem.tasks[i].id == input.request.taskId <==> i == k
    requires Text.ValidId(sys.mem.tasks[k].requestId)
    ensures var t := sys.mem.tasks[k]; var accepted := Reports(input, t) && WellFormed(cfg, input.request.result, t);
      if accepted then
        Step(cfg, sys, input).reply.TaskReply? && Step(cfg, sys, input).reply.status == 200 &&
        Committed(cfg, sys, input).Some? && Committed(cfg, sys, input).value.Complete? &&
        Committed(cfg, sys, input).value.taskAt == k
      else Step(cfg, sys, input).reply.Refused? && Step(cfg, sys, input).sys == sys
  {
    ReportedExactlyWhenHeld(cfg, sys.mem, input, k);
  }

  /**
   * Under a clock that never goes back, an agent that was leased a task and
   * reports it well formed, under its own token and within the timeout, has its
   * result accepted, unless the task was ended meanwhile or the commit fails.
   */
  lemma PromptResultAccepted(cfg: Config, trace: Trace, h: History, i: nat, j: nat, k: nat)
    requires FreshDraws(trace) && Follows(cfg, trace, h) && ClockNeverGoesBack(trace)
    requires i < j && LeasesAt(trace, h, i, k)
    requires trace.at(j).now <= trace.at(i).now + h.state(i).mem.tasks[k].timeoutMs
    requires k < |h.state(j).mem.tasks| && h.state(j).mem.tasks[k].state == Dispatched
    requires var input, t := trace.at(j), h.state(j).mem.tasks[k];
      input.commits && input.request.AgentResult? && input.request.taskId == t.id &&
      input.request.result.nodeId == t.nodeId && input.request.result.leaseToken == TokenOf(trace, i, k) &&
      WellFormed(cfg, input.request.result, t)
    ensures var reply := Step(cfg, h.state(j), trace.at(j)).reply; reply.TaskReply? && reply.status == 200
  {
    PromptReporterHoldsLease(cfg, trace, h, i, j, k);
    Reachable(cfg, trace, h, j);
    assert TaskOk(trace, j, h.state(j).mem.tasks[k]);
    assert Reports(trace.at(j), h.state(j).mem.tasks[k]);
    AcceptedExactlyWhenHeld(cfg, h.state(j), trace.at(j), k);
  }

  /** The digest an agent computes itself is always accepted. */
  lemma OwnDigestIsVerified(cfg: Config, b: ResultBody)
    requires b.outputSha256 == Some(cfg.sha256(b.output)) && AuditChain.IsDigest(cfg.sha256(b.output))
    ensures VerifiedDigest(cfg, b) == Some(cfg.sha256(b.output))
  {
    var digest := cfg.sha256(b.output);
    forall c | c in digest ensures c in "0123456789abcdefABCDEF" && !('A' <= c <= 'Z') {
      var i :| 0 <= i < |digest| && digest[i] == c;
      assert '0' <= c <= '9' || 'a' <= c <= 'f';
    }
    assert Lowercase(digest) == digest;
  }

  /* ---- idempotency ---- */

  /** At most one task ever has a given non-empty key, and it keeps its place and its six compared fields. */
  lemma OneTaskPerKey(cfg: Config, trace: Trace, h: History, n: nat, m: nat, k: nat, j: nat)
    requires FreshDraws(trace) && Follows(cfg, trace, h) && n <= m
    requires k < |h.state(n).mem.tasks| && j < |h.state(m).mem.tasks|
    requires h.state(n).mem.tasks[k].idempotencyKey != ""
    requires h.state(m).mem.tasks[j].idempotencyKey == h.state(n).mem.tasks[k].idempotencyKey
    ensures j == k && SameSubmission(h.state(m).mem.tasks[j], h.state(n).mem.tasks[k])
  {
    Reachable(cfg, trace, h, m);
    NothingGoesBack(cfg, trace, h, n, m);
  }

  /**
   * A later submission under a key already taken never queues a task and
   * changes nothing: it returns the task that has the key when the six compared
   * fields agree, terminal or not and whether or not its node is revoked, and
   * is refused as a conflict when they do not.
   */
  lemma ReplayReturnsTheTask(cfg: Config, trace: Trace, h: History, n: nat, m: nat, k: nat, actor: string)
    requires FreshDraws(trace) && Follows(cfg, trace, h) && n <= m && k < |h.state(n).mem.tasks|
    requires var input := trace.at(m);
      input.request.CreateTask? && ResolveActor(input.request.task.actor, input.request.caller) == Some(actor) &&
      TaskBodyRefusal(Requested(input.request.task, actor, input)).None? &&
      input.request.task.idempotencyKey == h.state(n).mem.tasks[k].idempotencyKey != ""
    ensures var reply := Step(cfg, h.state(m), trace.at(m)).reply;
      if SameRequest(h.state(n).mem.tasks[k], Requested(trace.at(m).request.task, actor, trace.at(m)))
      then k < |h.state(m).mem.tasks| && reply == TaskReply(200, h.state(m).mem.tasks[k]) &&
           h.state(m).mem.tasks[k].id == h.state(n).mem.tasks[k].id
      else reply == Refused(409, "idempotency_conflict")
    ensures Step(cfg, h.state(m), trace.at(m)).sys == h.state(m)
  {
    NothingGoesBack(cfg, trace, h, n, m);
    var tasks, key := h.state(m).mem.tasks, trace.at(m).request.task.idempotencyKey;
    assert TaskKeyed(key)(tasks[k]);
    OneTaskPerKey(cfg, trace, h, n, m, k, FirstIndex(tasks, TaskKeyed(key)));
    KeyTakenDecides(cfg, h.state(m), trace.at(m), k, actor);
  }

  lemma KeyTakenDecides(cfg: Config, sys: Sys, input: Input, k: nat, actor: string)
    requires input.request.CreateTask? && ResolveActor(input.request.task.actor, input.request.caller) == Some(actor)
    requires TaskBodyRefusal(Requested(input.request.task, actor, input)).None?
    requires k < |sys.mem.tasks| && k == FirstIndex(sys.mem.tasks, TaskKeyed(input.request.task.idempotencyKey))
    requires input.request.task.idempotencyKey != ""
    ensures Step(cfg, sys, input) ==
      Outcome(sys, if SameRequest(sys.mem.tasks[k], Requested(input.request.task, actor, input))
                   then TaskReply(200, sys.mem.tasks[k]) else Refused(409, "idempotency_conflict"))
  {
    assert Decide(cfg, sys.mem, input) == DecideCreateTask(cfg, sys.mem, input);
  }

  /* ---- revocation ---- */

  /** The edit gives node `id` work, takes work from it, or hears from it. */
  predicate Engages(s: Store, d: Delta, id: string)
    requires Fits(s, d)
  {
    (d.Submit? && d.task.nodeId == id) || (d.Dispatch? && d.nodeId == id) ||
    (d.Beat? && s.nodes[d.nodeAt].id == id) || (d.Rekey? && s.nodes[d.nodeAt].id == id) ||
    (d.Complete? && s.tasks[d.taskAt].nodeId == id)
  }

  /**
   * Once revoked, a node stays revoked, owns no queued or dispatched task, and
   * no submission, lease, heartbeat, rotation or result for it is ever saved.
   */
  lemma RevokedForGood(cfg: Config, trace: Trace, h: History, n: nat, m: nat, k: nat)
    requires FreshDraws(trace) && Follows(cfg, trace, h) && n <= m
    requires k < |h.state(n).mem.nodes| && h.state(n).mem.nodes[k].revoked
    ensures var s := h.state(m).mem; var id := h.state(n).mem.nodes[k].id;
      k < |s.nodes| && s.nodes[k].id == id && s.nodes[k].revoked && !s.nodes[k].online &&
      (forall i :: 0 <= i < |s.tasks| && s.tasks[i].nodeId == id ==> !s.tasks[i].state.Live()) &&
      (h.edit(m).Some? ==> Fits(s, h.edit(m).value) && !Engages(s, h.edit(m).value, id))
  {
    NothingGoesBack(cfg, trace, h, n, m);
    Reachable(cfg, trace, h, m);
    assert Moves(cfg, trace, h, m);
    RevokedIsIdle(cfg, trace, m, h.state(m).mem, h.edit(m), k);
  }

  lemma RevokedIsIdle(cfg: Config, trace: Trace, m: nat, s: Store, edit: Option<Delta>, k: nat)
    requires NodesOk(s.nodes) && TasksOk(trace, m, s.tasks, s.nodes) && k < |s.nodes| && s.nodes[k].revoked
    requires edit.Some? ==> Legal(cfg, s, edit.value, trace.at(m))
    ensures !s.nodes[k].online
    ensures forall i :: 0 <= i < |s.tasks| && s.tasks[i].nodeId == s.nodes[k].id ==> !s.tasks[i].state.Live()
    ensures edit.Some? ==> Fits(s, edit.value) && !Engages(s, edit.value, s.nodes[k].id)
  {
    assert NodeOk(s.nodes[k]);
    assert !Served(s.nodes, s.nodes[k].id);
    if edit.Some? && Engages(s, edit.value, s.nodes[k].id) {
      LegalEngagesServed(cfg, s, edit.value, trace.at(m), s.nodes[k].id);
    }
  }

  lemma LegalEngagesServed(cfg: Config, s: Store, d: Delta, input: Input, id: string)
    requires Legal(cfg, s, d, input) && NodesOk(s.nodes) && Engages(s, d, id)
    requires forall i :: 0 <= i < |s.tasks| && s.tasks[i].state.Live() ==> Served(s.nodes, s.tasks[i].nodeId)
    ensures Served(s.nodes, id)
  {
    if d.Submit? || d.Dispatch? { ServingIsServed(cfg, s.nodes, id, input.now); }
  }

  /** Revoking one node leaves every other node, and every task of another node, exactly as it was. */
  lemma RevocationIsLocal(cfg: Config, trace: Trace, h: History, n: nat)
    requires Follows(cfg, trace, h) && h.edit(n).Some? && h.edit(n).value.Retire?
    ensures var k := h.edit(n).value.nodeAt; var s, t := h.state(n).mem, h.state(n + 1).mem;
      k < |s.nodes| && |t.nodes| == |s.nodes| && |t.tasks| == |s.tasks| &&
      t.grants == s.grants && t.approvals == s.approvals &&
      (forall i :: 0 <= i < |s.nodes| && i != k ==> t.nodes[i] == s.nodes[i]) &&
      (forall i :: 0 <= i < |s.tasks| && s.tasks[i].nodeId != s.nodes[k].id ==> t.tasks[i] == s.tasks[i])
  {
    assert Moves(cfg, trace, h, n);
  }

  /* ---- grants ---- */

  /** A grant that is revoked before it is redeemed is never redeemed. */
  lemma RevokedGrantNeverUsed(cfg: Config, trace: Trace, h: History, n: nat, m: nat, k: nat)
    requires Follows(cfg, trace, h) && n <= m && k < |h.state(n).mem.grants|
    requires h.state(n).mem.grants[k].revoked && !h.state(n).mem.grants[k].used
    ensures k < |h.state(m).mem.grants| && h.state(m).mem.grants[k].revoked && !h.state(m).mem.grants[k].used
  {
    NothingGoesBack(cfg, trace, h, n, m);
  }

  lemma ExpiredStaysUnused(grants: seq<Grant>, d: Delta, input: Input, k: nat)
    requires GrantsLegal(grants, d, input) && k < |grants| && !grants[k].used && grants[k].expiresAt <= input.now
    ensures k < |GrantsAfter(grants, d)| && !GrantsAfter(grants, d)[k].used
  {
  }

  /** A grant that expires before it is redeemed is never redeemed, when the clock never goes back. */
  lemma {:induction false} ExpiredGrantNeverUsed(cfg: Config, trace: Trace, h: History, n: nat, m: nat, k: nat)
    requires Follows(cfg, trace, h) && ClockNeverGoesBack(trace) && n <= m && k < |h.state(n).mem.grants|
    requires !h.state(n).mem.grants[k].used && h.state(n).mem.grants[k].expiresAt <= trace.at(n).now
    ensures k < |h.state(m).mem.grants| && !h.state(m).mem.grants[k].used
    decreases m
  {
    if n < m {
      ExpiredGrantNeverUsed(cfg, trace, h, n, m - 1, k);
      NothingGoesBack(cfg, trace, h, n, m - 1);
      assert Moves(cfg, trace, h, m - 1);
      assert trace.at(n).now <= trace.at(m - 1).now;
      var grants, d := h.state(m - 1).mem.grants, h.edit(m - 1);
      if d.Some? { ExpiredStaysUnused(grants, d.value, trace.at(m - 1), k); }
    }
  }
}
