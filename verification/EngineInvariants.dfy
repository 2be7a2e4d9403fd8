/** What every edit of the store keeps, and so what holds in every reachable state. */
module EngineInvariants {
  import opened Records
  import opened Engine
  import opened EngineRuns
  import opened Counting
  import opened Text

  /* ---- nodes ---- */

  predicate NodeOk(n: Node) {
    Text.ValidId(n.id) && (n.revoked ==> !n.online)
  }

  /** Node ids are unique and well formed, and no revoked node is online. */
  predicate NodesOk(nodes: seq<Node>) {
    (forall i, j :: 0 <= i < j < |nodes| ==> nodes[i].id != nodes[j].id) &&
    (forall i :: 0 <= i < |nodes| ==> NodeOk(nodes[i]))
  }

  lemma NodesKept(nodes: seq<Node>, d: Delta, now: nat)
    requires NodesOk(nodes) && NodesLegal(nodes, d, now)
    ensures NodesOk(NodesAfter(nodes, d))
    ensures |NodesAfter(nodes, d)| == |nodes| + if d.Enroll? then 1 else 0
  {
  }

  /** Memory and the last committed store differ in presence only, and both keep node ids in order. */
  predicate Sound(sys: Sys) {
    NodesOk(sys.mem.nodes) && NodesOk(sys.disk.nodes) && SameButPresence(sys.mem.nodes, sys.disk.nodes) &&
    sys.mem == sys.disk.(nodes := sys.mem.nodes)
  }

  lemma NextSound(cfg: Config, trace: Trace, h: History, n: nat)
    requires Moves(cfg, trace, h, n) && Sound(h.state(n))
    ensures Sound(h.state(n + 1))
  {
    if h.edit(n).Some? { NodesKept(h.state(n).mem.nodes, h.edit(n).value, trace.at(n).now); }
  }

  lemma {:induction false} AlwaysSound(cfg: Config, trace: Trace, h: History, n: nat)
    requires Follows(cfg, trace, h)
    ensures Sound(h.state(n))
  {
    var m := 0;
    while m < n
      invariant m <= n && Sound(h.state(m))
    {
      assert Moves(cfg, trace, h, m);
      NextSound(cfg, trace, h, m);
      m := m + 1;
    }
  }

  /* ---- grants ---- */

  function Used(): Grant -> bool { (g: Grant) => g.used }

  /** Grant codes are unique. */
  predicate GrantsOk(trace: Trace, n: nat, grants: seq<Grant>) {
    (forall i, j :: 0 <= i < j < |grants| ==> grants[i].code != grants[j].code) &&
    (forall i :: 0 <= i < |grants| ==> Known(trace, n, grants[i].code))
  }

  lemma GrantsKept(trace: Trace, n: nat, grants: seq<Grant>, d: Delta)
    requires FreshDraws(trace) && GrantsOk(trace, n, grants) && GrantsLegal(grants, d, trace.at(n))
    ensures GrantsOk(trace, n + 1, GrantsAfter(grants, d))
    ensures Count(GrantsAfter(grants, d), Used()) ==
            Count(grants, Used()) + if d.Enroll? && d.grantAt.Some? then 1 else 0
  {
    CodesKept(trace, n, grants, d);
    UsesCounted(grants, d, trace.at(n));
  }

  lemma CodesKept(trace: Trace, n: nat, grants: seq<Grant>, d: Delta)
    requires FreshDraws(trace) && GrantsOk(trace, n, grants) && GrantsLegal(grants, d, trace.at(n))
    ensures GrantsOk(trace, n + 1, GrantsAfter(grants, d))
  {
    var after := GrantsAfter(grants, d);
    assert forall i :: 0 <= i < |grants| ==> after[i].code == grants[i].code;
    if d.Pledge? { assert trace.origin(trace.at(n).draw(0)) == (n, 0); }
  }

  lemma UsesCounted(grants: seq<Grant>, d: Delta, input: Input)
    requires GrantsLegal(grants, d, input)
    ensures Count(GrantsAfter(grants, d), Used()) ==
            Count(grants, Used()) + if d.Enroll? && d.grantAt.Some? then 1 else 0
  {
    match d
    case Enroll(_, Some(k)) => CountUpdate(grants, k, grants[k].(used := true), Used());
    case Withdraw(k, _) => CountUpdate(grants, k, grants[k].(revoked := true), Used());
    case Pledge(g, _) => CountOne(grants, g, Used());
    case _ =>
  }

  /* ---- tasks ---- */

  /** Live or terminal, within the limits, and holding a token drawn before whenever it is leased. */
  predicate TaskOk(trace: Trace, n: nat, t: Task) {
    Known(trace, n, t.id) && Text.ValidId(t.requestId) && Text.ValidId(t.actor) && Text.ValidId(t.nodeId) &&
    (t.state.Live() || t.state.Terminal()) &&
    0 < t.timeoutMs <= MAX_TASK_TIMEOUT_MS && 0 < t.outputLimit <= MAX_TASK_OUTPUT_LIMIT &&
    (t.state == Dispatched ==> t.leaseToken != "") &&
    (t.state == Queued ==> t.leaseToken == "" && t.leaseUntil == 0) &&
    (t.leaseToken != "" ==> Known(trace, n, t.leaseToken))
  }

  /** Some node has this id, and none that has it is revoked. */
  predicate Served(nodes: seq<Node>, id: string) {
    (exists i :: 0 <= i < |nodes| && nodes[i].id == id) &&
    (forall i :: 0 <= i < |nodes| && nodes[i].id == id ==> !nodes[i].revoked)
  }

  /**
   * Task ids and non-empty idempotency keys are unique, and the node of a
   * queued or dispatched task exists and is not revoked.
   */
  predicate TasksOk(trace: Trace, n: nat, tasks: seq<Task>, nodes: seq<Node>) {
    (forall i, j :: 0 <= i < j < |tasks| ==> tasks[i].id != tasks[j].id) &&
    (forall i, j :: 0 <= i < j < |tasks| && tasks[i].idempotencyKey != "" ==>
       tasks[i].idempotencyKey != tasks[j].idempotencyKey) &&
    (forall i :: 0 <= i < |tasks| ==> TaskOk(trace, n, tasks[i])) &&
    (forall i :: 0 <= i < |tasks| && tasks[i].state.Live() ==> Served(nodes, tasks[i].nodeId))
  }

  lemma ServingIsServed(cfg: Config, nodes: seq<Node>, id: string, now: nat)
    requires NodesOk(nodes) && Serving(cfg, nodes, id, now)
    ensures Served(nodes, id) && Text.ValidId(id)
  {
    var k :| 0 <= k < |nodes| && nodes[k].id == id && Fresh(cfg, nodes[k], now);
    forall i | 0 <= i < |nodes| && nodes[i].id == id ensures !nodes[i].revoked {
      assert i == k;
    }
  }

  lemma ServedKept(nodes: seq<Node>, d: Delta, now: nat, id: string)
    requires NodesLegal(nodes, d, now) && Served(nodes, id)
    ensures (d.Retire? && nodes[d.nodeAt].id == id) || Served(NodesAfter(nodes, d), id)
  {
    var k :| 0 <= k < |nodes| && nodes[k].id == id;
    assert NodesAfter(nodes, d)[k].id == id;
  }

  lemma OldTaskKept(cfg: Config, trace: Trace, n: nat, tasks: seq<Task>, nodes: seq<Node>, d: Delta, i: nat)
    requires FreshDraws(trace) && NodesFit(nodes, d) && i < |tasks| && TaskOk(trace, n, tasks[i])
    requires TasksLegal(cfg, tasks, nodes, d, trace.at(n))
    ensures var t := TasksAfter(tasks, nodes, d, trace.at(n))[i];
            TaskOk(trace, n + 1, t) && t.nodeId == tasks[i].nodeId && (t.state.Live() ==> tasks[i].state.Live()) &&
            (d.Retire? && t.state.Live() ==> t.nodeId != nodes[d.nodeAt].id)
  {
    if d.Dispatch? {
      assert trace.origin(trace.at(n).draw(FIRST_SPARE_DRAW + i)) == (n, FIRST_SPARE_DRAW + i);
      LeaseKeepsOk(trace, n, tasks[i], d.nodeId, i);
    } else {
      EditKeepsOk(cfg, trace, n, tasks, nodes, d, i);
    }
  }

  lemma LeaseKeepsOk(trace: Trace, n: nat, t: Task, nodeId: string, i: nat)
    requires FreshDraws(trace) && TaskOk(trace, n, t)
    ensures var u := LeaseAt(t, nodeId, trace.at(n), i);
      TaskOk(trace, n + 1, u) && u.nodeId == t.nodeId && (u.state.Live() ==> t.state.Live())
  {
    assert trace.origin(trace.at(n).draw(FIRST_SPARE_DRAW + i)) == (n, FIRST_SPARE_DRAW + i);
  }

  lemma EditKeepsOk(cfg: Config, trace: Trace, n: nat, tasks: seq<Task>, nodes: seq<Node>, d: Delta, i: nat)
    requires FreshDraws(trace) && NodesFit(nodes, d) && i < |tasks| && TaskOk(trace, n, tasks[i]) && !d.Dispatch?
    requires TasksLegal(cfg, tasks, nodes, d, trace.at(n))
    ensures var t := TasksAfter(tasks, nodes, d, trace.at(n))[i];
            TaskOk(trace, n + 1, t) && t.nodeId == tasks[i].nodeId && (t.state.Live() ==> tasks[i].state.Live()) &&
            (d.Retire? && t.state.Live() ==> t.nodeId != nodes[d.nodeAt].id)
  {
  }

  lemma TaskKept(cfg: Config, trace: Trace, n: nat, tasks: seq<Task>, nodes: seq<Node>, d: Delta, i: nat)
    requires FreshDraws(trace) && NodesOk(nodes) && TasksOk(trace, n, tasks, nodes)
    requires NodesLegal(nodes, d, trace.at(n).now) && TasksLegal(cfg, tasks, nodes, d, trace.at(n))
    requires i < |TasksAfter(tasks, nodes, d, trace.at(n))|
    ensures var t := TasksAfter(tasks, nodes, d, trace.at(n))[i];
            TaskOk(trace, n + 1, t) && (t.state.Live() ==> Served(NodesAfter(nodes, d), t.nodeId))
  {
    if i < |tasks| {
      OldTaskKept(cfg, trace, n, tasks, nodes, d, i);
      if tasks[i].state.Live() { ServedKept(nodes, d, trace.at(n).now, tasks[i].nodeId); }
    } else {
      assert trace.origin(trace.at(n).draw(0)) == (n, 0);
      ServingIsServed(cfg, nodes, d.task.nodeId, trace.at(n).now);
      ServedKept(nodes, d, trace.at(n).now, d.task.nodeId);
    }
  }

  lemma TasksKept(cfg: Config, trace: Trace, n: nat, tasks: seq<Task>, nodes: seq<Node>, d: Delta)
    requires FreshDraws(trace) && NodesOk(nodes) && TasksOk(trace, n, tasks, nodes)
    requires NodesLegal(nodes, d, trace.at(n).now) && TasksLegal(cfg, tasks, nodes, d, trace.at(n))
    ensures TasksOk(trace, n + 1, TasksAfter(tasks, nodes, d, trace.at(n)), NodesAfter(nodes, d))
  {
    var after := TasksAfter(tasks, nodes, d, trace.at(n));
    forall i | 0 <= i < |after|
      ensures TaskOk(trace, n + 1, after[i])
      ensures after[i].state.Live() ==> Served(NodesAfter(nodes, d), after[i].nodeId)
    {
      TaskKept(cfg, trace, n, tasks, nodes, d, i);
    }
    IdentitiesKept(cfg, tasks, nodes, d, trace.at(n));
    if d.Submit? {
      assert trace.origin(d.task.id) == (n, 0);
      forall i | 0 <= i < |tasks| ensures tasks[i].id != d.task.id {
        assert TaskOk(trace, n, tasks[i]);
      }
    }
  }

  /** What no edit changes in a task that already exists: everything it was submitted with. */
  predicate SameSubmission(t: Task, u: Task) {
    t.id == u.id && t.requestId == u.requestId && t.idempotencyKey == u.idempotencyKey &&
    t.outputLimit == u.outputLimit && SameRequest(t, u)
  }

  lemma IdentitiesKept(cfg: Config, tasks: seq<Task>, nodes: seq<Node>, d: Delta, input: Input)
    requires NodesFit(nodes, d) && TasksLegal(cfg, tasks, nodes, d, input)
    ensures |TasksAfter(tasks, nodes, d, input)| == |tasks| + if d.Submit? then 1 else 0
    ensures forall i :: 0 <= i < |tasks| ==> SameSubmission(TasksAfter(tasks, nodes, d, input)[i], tasks[i])
  {
  }

  /* ---- accounting ---- */

  /** Every task or approval named in the log was drawn before, so a new task starts with no records. */
  predicate NamesKnown(trace: Trace, n: nat, log: seq<Activity>) {
    forall i :: 0 <= i < |log| && log[i].taskId.Some? ==> Known(trace, n, log[i].taskId.value)
  }

  /** One acceptance per task; one closing record exactly when the task is terminal. */
  predicate Settled(log: seq<Activity>, t: Task) {
    Tally(log, TaskAccepted, t.id) == 1 && Closings(log, t.id) == if t.state.Terminal() then 1 else 0
  }

  predicate LedgerOk(log: seq<Activity>, tasks: seq<Task>) {
    forall i :: 0 <= i < |tasks| ==> Settled(log, tasks[i])
  }

  lemma CancelledNamesKnown(trace: Trace, n: nat, tasks: seq<Task>, nodeId: string, actor: string)
    requires forall i :: 0 <= i < |tasks| ==> TaskOk(trace, n, tasks[i])
    ensures NamesKnown(trace, n + 1, CancelRecords(tasks, nodeId, actor, trace.at(n), |tasks|))
  {
    var added := CancelRecords(tasks, nodeId, actor, trace.at(n), |tasks|);
    CancelRecordsShape(tasks, nodeId, actor, trace.at(n), |tasks|);
    forall i | 0 <= i < |added| ensures Known(trace, n + 1, added[i].taskId.value) {
      assert added[i] in added;
      var j: nat :| j < |tasks| && added[i].taskId.value == tasks[j].id;
      assert TaskOk(trace, n, tasks[j]);
    }
  }

  lemma SubmittedNamesKnown(trace: Trace, n: nat, s: Store, d: Delta)
    requires FreshDraws(trace) && ApprovalsOk(trace, n, s.approvals) && Fits(s, d) && d.Submit?
    requires d.task.id == trace.at(n).draw(0)
    ensures NamesKnown(trace, n + 1, NewRecords(s, d, trace.at(n)))
  {
    assert trace.origin(trace.at(n).draw(0)) == (n, 0);
    if d.approvalAt.Some? { assert Known(trace, n, s.approvals[d.approvalAt.value].id); }
  }

  lemma OtherNamesKnown(cfg: Config, trace: Trace, n: nat, s: Store, d: Delta)
    requires FreshDraws(trace) && Fits(s, d) && ApprovalsLegal(cfg, s.approvals, d, trace.at(n))
    requires !d.Retire? && !d.Submit? && !d.Cancel? && !d.Complete?
    ensures NamesKnown(trace, n + 1, NewRecords(s, d, trace.at(n)))
  {
    assert trace.origin(trace.at(n).draw(0)) == (n, 0);
  }

  lemma NewNamesKnown(cfg: Config, trace: Trace, n: nat, s: Store, d: Delta)
    requires FreshDraws(trace) && Legal(cfg, s, d, trace.at(n)) && NamesKnown(trace, n, s.audit)
    requires TasksOk(trace, n, s.tasks, s.nodes) && ApprovalsOk(trace, n, s.approvals)
    ensures NamesKnown(trace, n + 1, NewRecords(s, d, trace.at(n)))
  {
    assert trace.origin(trace.at(n).draw(0)) == (n, 0);
    match d
    case Retire(k, actor) =>
      CancelledNamesKnown(trace, n, s.tasks, s.nodes[k].id, actor);
    case Submit(_, _) => SubmittedNamesKnown(trace, n, s, d);
    case Cancel(k, _) => assert TaskOk(trace, n, s.tasks[k]);
    case Complete(k, _) => assert TaskOk(trace, n, s.tasks[k]);
    case _ => OtherNamesKnown(cfg, trace, n, s, d);
  }

  /** The tallies of a short batch of records. */
  lemma ShortTallies(log: seq<Activity>, added: seq<Activity>, id: string)
    requires |added| <= 3
    requires forall i :: 0 <= i < |added| ==> !added[i].event.TaskCancelledByRevoke?
    ensures Tally(log + added, TaskAccepted, id) == Tally(log, TaskAccepted, id) + Tally(added, TaskAccepted, id)
    ensures Closings(log + added, id) ==
            Closings(log, id) + Tally(added, TaskCompleted, id) + Tally(added, TaskCancelled, id)
  {
    CountConcat(log, added, About(TaskAccepted, id));
    CountConcat(log, added, About(TaskCompleted, id));
    CountConcat(log, added, About(TaskCancelled, id));
    CountConcat(log, added, About(TaskCancelledByRevoke, id));
    CountNone(added, About(TaskCancelledByRevoke, id));
  }

  /** Records that name no task leave every tally alone. */
  lemma NamelessHead(log: seq<Activity>, head: seq<Activity>, rest: seq<Activity>, e: Event, id: string)
    requires forall i :: 0 <= i < |head| ==> head[i].taskId.None?
    ensures Tally(log + (head + rest), e, id) == Tally(log, e, id) + Tally(rest, e, id)
  {
    CountConcat(log, head + rest, About(e, id));
    CountConcat(head, rest, About(e, id));
    CountNone(head, About(e, id));
  }

  /** A revocation closes exactly the live tasks of its node. */
  lemma RetireTallies(log: seq<Activity>, tasks: seq<Task>, nodeId: string, actor: string, input: Input, i: nat)
    requires i < |tasks|
    requires forall i, j :: 0 <= i < j < |tasks| ==> tasks[i].id != tasks[j].id
    ensures
      var added := [Stamp(input, 1, NodeRevoked, Some(nodeId), None, actor)] +
                   CancelRecords(tasks, nodeId, actor, input, |tasks|);
      Tally(log + added, TaskAccepted, tasks[i].id) == Tally(log, TaskAccepted, tasks[i].id) &&
      Closings(log + added, tasks[i].id) ==
      Closings(log, tasks[i].id) + if CancelledWith(tasks[i], nodeId) then 1 else 0
  {
    var id, head := tasks[i].id, [Stamp(input, 1, NodeRevoked, Some(nodeId), None, actor)];
    var cancels := CancelRecords(tasks, nodeId, actor, input, |tasks|);
    CancelRecordsShape(tasks, nodeId, actor, input, |tasks|);
    CancelRecordsTally(tasks, nodeId, actor, input, |tasks|, i);
    NamelessHead(log, head, cancels, TaskAccepted, id);
    NamelessHead(log, head, cancels, TaskCompleted, id);
    NamelessHead(log, head, cancels, TaskCancelled, id);
    NamelessHead(log, head, cancels, TaskCancelledByRevoke, id);
    CountNone(cancels, About(TaskAccepted, id));
    CountNone(cancels, About(TaskCompleted, id));
    CountNone(cancels, About(TaskCancelled, id));
  }

  /** The edit records this event of the task, once. */
  predicate Notes(s: Store, d: Delta, e: Event, id: string)
    requires Fits(s, d)
  {
    match e
    case TaskAccepted => d.Submit? && d.task.id == id
    case TaskCompleted => d.Complete? && d.task.id == id
    case TaskCancelled => d.Cancel? && s.tasks[d.taskAt].id == id
    case _ => false
  }

  lemma FewRecords(s: Store, d: Delta, input: Input)
    requires Fits(s, d) && !d.Retire?
    ensures var added := NewRecords(s, d, input);
            |added| <= 3 && forall i :: 0 <= i < |added| ==> !added[i].event.TaskCancelledByRevoke?
  {
  }

  /** A submission records its acceptance, and no end. */
  lemma SubmissionTally(s: Store, d: Delta, input: Input, e: Event, id: string)
    requires Fits(s, d) && d.Submit? && (e == TaskAccepted || e == TaskCompleted || e == TaskCancelled)
    ensures Tally(NewRecords(s, d, input), e, id) == if Notes(s, d, e, id) then 1 else 0
  {
    CountShort(NewRecords(s, d, input), About(e, id));
  }

  lemma SingleTally(s: Store, d: Delta, input: Input, e: Event, id: string)
    requires Fits(s, d) && !d.Submit? && !d.Retire?
    requires e == TaskAccepted || e == TaskCompleted || e == TaskCancelled
    ensures Tally(NewRecords(s, d, input), e, id) == if Notes(s, d, e, id) then 1 else 0
  {
    CountShort(NewRecords(s, d, input), About(e, id));
  }

  /** What an edit other than a revocation records about one task. */
  lemma EditTally(s: Store, d: Delta, input: Input, e: Event, id: string)
    requires Fits(s, d) && !d.Retire? && (e == TaskAccepted || e == TaskCompleted || e == TaskCancelled)
    ensures Tally(NewRecords(s, d, input), e, id) == if Notes(s, d, e, id) then 1 else 0
  {
    if d.Submit? { SubmissionTally(s, d, input, e, id); } else { SingleTally(s, d, input, e, id); }
  }

  lemma EditTallies(s: Store, d: Delta, input: Input, id: string)
    requires Fits(s, d) && !d.Retire?
    ensures var added := NewRecords(s, d, input);
            |added| <= 3 && (forall i :: 0 <= i < |added| ==> !added[i].event.TaskCancelledByRevoke?) &&
            Tally(added, TaskAccepted, id) == (if Notes(s, d, TaskAccepted, id) then 1 else 0) &&
            Tally(added, TaskCompleted, id) == (if Notes(s, d, TaskCompleted, id) then 1 else 0) &&
            Tally(added, TaskCancelled, id) == (if Notes(s, d, TaskCancelled, id) then 1 else 0)
  {
    FewRecords(s, d, input);
    EditTally(s, d, input, TaskAccepted, id);
    EditTally(s, d, input, TaskCompleted, id);
    EditTally(s, d, input, TaskCancelled, id);
  }

  /** The task an edit leaves at a position, and whether it closed it. */
  lemma ClosedByEdit(cfg: Config, tasks: seq<Task>, nodes: seq<Node>, d: Delta, input: Input, i: nat)
    requires NodesFit(nodes, d) && TasksLegal(cfg, tasks, nodes, d, input) && i < |tasks|
    requires forall i, j :: 0 <= i < j < |tasks| ==> tasks[i].id != tasks[j].id
    ensures var t := TasksAfter(tasks, nodes, d, input)[i];
            t.id == tasks[i].id &&
            (t.state.Terminal() <==> tasks[i].state.Terminal() || Closes(d, tasks, nodes, i)) &&
            (Closes(d, tasks, nodes, i) ==> !tasks[i].state.Terminal())
  {
  }

  /** The edit ends the task at this position. */
  predicate Closes(d: Delta, tasks: seq<Task>, nodes: seq<Node>, i: nat)
    requires NodesFit(nodes, d) && TasksFit(tasks, d) && i < |tasks|
  {
    (d.Retire? && CancelledWith(tasks[i], nodes[d.nodeAt].id)) ||
    (d.Cancel? && tasks[d.taskAt].id == tasks[i].id) ||
    (d.Complete? && d.task.id == tasks[i].id)
  }

  /** The log moves on by these records: no acceptance of the task, and one end of it exactly when it is closed. */
  predicate LogFollows(log: seq<Activity>, longer: seq<Activity>, id: string, closes: bool) {
    Tally(longer, TaskAccepted, id) == Tally(log, TaskAccepted, id) &&
    Closings(longer, id) == Closings(log, id) + if closes then 1 else 0
  }

  lemma RetirementLogged(s: Store, d: Delta, input: Input, i: nat)
    requires d.Retire? && Fits(s, d) && i < |s.tasks|
    requires forall i, j :: 0 <= i < j < |s.tasks| ==> s.tasks[i].id != s.tasks[j].id
    ensures LogFollows(s.audit, s.audit + NewRecords(s, d, input), s.tasks[i].id, Closes(d, s.tasks, s.nodes, i))
  {
    RetireTallies(s.audit, s.tasks, s.nodes[d.nodeAt].id, d.actor, input, i);
  }

  lemma EditLogged(s: Store, d: Delta, input: Input, i: nat)
    requires !d.Retire? && Fits(s, d) && i < |s.tasks| && (d.Submit? ==> d.task.id != s.tasks[i].id)
    ensures LogFollows(s.audit, s.audit + NewRecords(s, d, input), s.tasks[i].id, Closes(d, s.tasks, s.nodes, i))
  {
    EditTallies(s, d, input, s.tasks[i].id);
    ShortTallies(s.audit, NewRecords(s, d, input), s.tasks[i].id);
  }

  lemma StaysSettled(log: seq<Activity>, longer: seq<Activity>, before: Task, after: Task, closes: bool)
    requires Settled(log, before) && LogFollows(log, longer, before.id, closes) && after.id == before.id
    requires (after.state.Terminal() <==> before.state.Terminal() || closes) && !(closes && before.state.Terminal())
    ensures Settled(longer, after)
  {
  }

  lemma SettledKept(cfg: Config, trace: Trace, n: nat, s: Store, d: Delta, i: nat)
    requires i < |s.tasks| && Settled(s.audit, s.tasks[i]) && Known(trace, n, s.tasks[i].id)
    requires forall i, j :: 0 <= i < j < |s.tasks| ==> s.tasks[i].id != s.tasks[j].id
    requires FreshDraws(trace) && Fits(s, d) && TasksLegal(cfg, s.tasks, s.nodes, d, trace.at(n))
    ensures Settled(s.audit + NewRecords(s, d, trace.at(n)), TasksAfter(s.tasks, s.nodes, d, trace.at(n))[i])
  {
    ClosedByEdit(cfg, s.tasks, s.nodes, d, trace.at(n), i);
    if d.Retire? {
      RetirementLogged(s, d, trace.at(n), i);
    } else {
      assert trace.origin(trace.at(n).draw(0)) == (n, 0);
      EditLogged(s, d, trace.at(n), i);
    }
    StaysSettled(s.audit, s.audit + NewRecords(s, d, trace.at(n)), s.tasks[i],
                 TasksAfter(s.tasks, s.nodes, d, trace.at(n))[i], Closes(d, s.tasks, s.nodes, i));
  }

  lemma NewTaskSettled(trace: Trace, n: nat, s: Store, d: Delta)
    requires FreshDraws(trace) && NamesKnown(trace, n, s.audit)
    requires d.Submit? && d.task.id == trace.at(n).draw(0) && d.task.state == Queued && Fits(s, d)
    ensures Settled(s.audit + NewRecords(s, d, trace.at(n)), d.task)
  {
    var id := d.task.id;
    assert trace.origin(id) == (n, 0);
    CountNone(s.audit, About(TaskAccepted, id));
    CountNone(s.audit, About(TaskCompleted, id));
    CountNone(s.audit, About(TaskCancelled, id));
    CountNone(s.audit, About(TaskCancelledByRevoke, id));
    EditTallies(s, d, trace.at(n), id);
    ShortTallies(s.audit, NewRecords(s, d, trace.at(n)), id);
  }

  /* ---- approvals ---- */

  predicate ApprovalsOk(trace: Trace, n: nat, approvals: seq<Approval>) {
    (forall i, j :: 0 <= i < j < |approvals| ==> approvals[i].id != approvals[j].id) &&
    (forall i :: 0 <= i < |approvals| ==> Known(trace, n, approvals[i].id) && approvals[i].ability == "task.exec")
  }

  function Spent(): Approval -> bool { (a: Approval) => a.used }

  /** The approvals consumed, in the order of their consumption. */
  function ConsumedIds(log: seq<Activity>): seq<string> {
    if log == [] then []
    else
      var last := log[|log| - 1];
      if last.event == ApprovalConsumed && last.taskId.Some?
      then ConsumedIds(log[..|log| - 1]) + [last.taskId.value] else ConsumedIds(log[..|log| - 1])
  }

  lemma {:induction false} ConsumedConcat(a: seq<Activity>, b: seq<Activity>)
    ensures ConsumedIds(a + b) == ConsumedIds(a) + ConsumedIds(b)
  {
    if b == [] {
      assert a + b == a;
    } else {
      assert (a + b)[..|a + b| - 1] == a + b[..|b| - 1];
      ConsumedConcat(a, b[..|b| - 1]);
    }
  }

  lemma {:induction false} ConsumedNone(log: seq<Activity>)
    requires forall i :: 0 <= i < |log| ==> !log[i].event.ApprovalConsumed?
    ensures ConsumedIds(log) == []
  {
    if log != [] { ConsumedNone(log[..|log| - 1]); }
  }

  /** The tasks whose ability needs an approval, oldest first. */
  function GatedTasks(cfg: Config, tasks: seq<Task>): seq<Task> {
    if tasks == [] then []
    else
      var last := tasks[|tasks| - 1];
      if Gated(cfg, last.ability) then GatedTasks(cfg, tasks[..|tasks| - 1]) + [last]
      else GatedTasks(cfg, tasks[..|tasks| - 1])
  }

  lemma {:induction false} GatedPointwise(cfg: Config, a: seq<Task>, b: seq<Task>)
    requires |a| == |b| && forall i :: 0 <= i < |a| ==> SameSubmission(a[i], b[i])
    ensures |GatedTasks(cfg, a)| == |GatedTasks(cfg, b)|
    ensures forall i :: 0 <= i < |GatedTasks(cfg, a)| ==> SameSubmission(GatedTasks(cfg, a)[i], GatedTasks(cfg, b)[i])
  {
    if a != [] { GatedPointwise(cfg, a[..|a| - 1], b[..|b| - 1]); }
  }

  /** A used approval of this id names exactly what the task asks for. */
  predicate Pays(approvals: seq<Approval>, id: string, t: Task) {
    exists k :: 0 <= k < |approvals| && approvals[k].id == id && approvals[k].used && Covers(approvals[k], t)
  }

  /** Used approvals, consumption records and, in record mode, gated tasks correspond one to one. */
  predicate Paired(cfg: Config, approvals: seq<Approval>, ids: seq<string>, gated: seq<Task>) {
    (forall i, j :: 0 <= i < j < |ids| ==> ids[i] != ids[j]) &&
    (forall i :: 0 <= i < |ids| ==> UsedId(approvals, ids[i])) &&
    (forall k :: 0 <= k < |approvals| && approvals[k].used ==> approvals[k].id in ids) &&
    (cfg.requireApprovalRecords ==>
       |ids| == |gated| && forall i :: 0 <= i < |ids| ==> Pays(approvals, ids[i], gated[i]))
  }

  predicate UsedId(approvals: seq<Approval>, id: string) {
    exists k :: 0 <= k < |approvals| && approvals[k].id == id && approvals[k].used
  }

  lemma ApprovalsOkKept(cfg: Config, trace: Trace, n: nat, approvals: seq<Approval>, d: Delta)
    requires FreshDraws(trace) && ApprovalsOk(trace, n, approvals)
    requires ApprovalsLegal(cfg, approvals, d, trace.at(n))
    ensures ApprovalsOk(trace, n + 1, ApprovalsAfter(approvals, d))
  {
    assert trace.origin(trace.at(n).draw(0)) == (n, 0);
  }

  lemma SpentCounted(cfg: Config, approvals: seq<Approval>, d: Delta, input: Input)
    requires ApprovalsLegal(cfg, approvals, d, input)
    ensures Count(ApprovalsAfter(approvals, d), Spent()) ==
            Count(approvals, Spent()) + if d.Submit? && d.approvalAt.Some? then 1 else 0
  {
    match d
    case Authorize(a, _) => CountOne(approvals, a, Spent());
    case Submit(_, Some(k)) => CountUpdate(approvals, k, approvals[k].(used := true), Spent());
    case _ =>
  }

  lemma ApprovalsKept(cfg: Config, trace: Trace, n: nat, approvals: seq<Approval>, d: Delta)
    requires FreshDraws(trace) && ApprovalsOk(trace, n, approvals)
    requires ApprovalsLegal(cfg, approvals, d, trace.at(n))
    ensures ApprovalsOk(trace, n + 1, ApprovalsAfter(approvals, d))
    ensures Count(ApprovalsAfter(approvals, d), Spent()) ==
            Count(approvals, Spent()) + if d.Submit? && d.approvalAt.Some? then 1 else 0
  {
    ApprovalsOkKept(cfg, trace, n, approvals, d);
    SpentCounted(cfg, approvals, d, trace.at(n));
  }

  /** Approvals only gain entries and only turn from unused to used. */
  lemma UsedIdKept(cfg: Config, approvals: seq<Approval>, d: Delta, input: Input, id: string)
    requires ApprovalsLegal(cfg, approvals, d, input) && UsedId(approvals, id)
    ensures UsedId(ApprovalsAfter(approvals, d), id)
  {
    var after := ApprovalsAfter(approvals, d);
    assert forall k :: 0 <= k < |approvals| && approvals[k].used ==> after[k] == approvals[k];
  }

  lemma PaysKept(cfg: Config, approvals: seq<Approval>, d: Delta, input: Input, id: string, t: Task, u: Task)
    requires ApprovalsLegal(cfg, approvals, d, input) && SameSubmission(t, u)
    ensures Pays(approvals, id, u) ==> Pays(ApprovalsAfter(approvals, d), id, t)
  {
    var after := ApprovalsAfter(approvals, d);
    assert forall k :: 0 <= k < |approvals| && approvals[k].used ==> after[k] == approvals[k];
  }

  lemma PairedUnlessConsumed(
    cfg: Config, approvals: seq<Approval>, d: Delta, input: Input, ids: seq<string>, gated: seq<Task>, after: seq<Task>)
    requires ApprovalsLegal(cfg, approvals, d, input) && (d.Submit? ==> d.approvalAt.None?)
    requires Paired(cfg, approvals, ids, gated)
    requires cfg.requireApprovalRecords ==>
      |gated| == |after| && forall i :: 0 <= i < |gated| ==> SameSubmission(after[i], gated[i])
    ensures Paired(cfg, ApprovalsAfter(approvals, d), ids, after)
  {
    forall i | 0 <= i < |ids|
      ensures UsedId(ApprovalsAfter(approvals, d), ids[i])
      ensures cfg.requireApprovalRecords ==> Pays(ApprovalsAfter(approvals, d), ids[i], after[i])
    {
      UsedIdKept(cfg, approvals, d, input, ids[i]);
      if cfg.requireApprovalRecords { PaysKept(cfg, approvals, d, input, ids[i], after[i], gated[i]); }
    }
  }

  lemma PairedConsumption(
    cfg: Config, trace: Trace, n: nat, approvals: seq<Approval>, d: Delta, ids: seq<string>, gated: seq<Task>)
    requires ApprovalsOk(trace, n, approvals) && ApprovalsLegal(cfg, approvals, d, trace.at(n))
    requires d.Submit? && d.approvalAt.Some? && Paired(cfg, approvals, ids, gated)
    ensures Paired(cfg, ApprovalsAfter(approvals, d), ids + [approvals[d.approvalAt.value].id], gated + [d.task])
  {
    var k := d.approvalAt.value;
    var after, spent := ApprovalsAfter(approvals, d), approvals[k].id;
    forall i | 0 <= i < |ids|
      ensures UsedId(after, ids[i]) && Pays(after, ids[i], gated[i]) && ids[i] != spent
    {
      UsedIdKept(cfg, approvals, d, trace.at(n), ids[i]);
      PaysKept(cfg, approvals, d, trace.at(n), ids[i], gated[i], gated[i]);
    }
    assert after[k].id == spent && after[k].used && Covers(after[k], d.task);
    assert UsedId(after, spent) && Pays(after, spent, d.task);
    forall j | 0 <= j < |after| && after[j].used ensures after[j].id in ids + [spent] {
      assert j != k ==> approvals[j].used;
    }
  }

  lemma SpentBySubmission(s: Store, d: Delta, input: Input)
    requires d.Submit? && d.approvalAt.Some? && Fits(s, d)
    ensures ConsumedIds(NewRecords(s, d, input)) == [s.approvals[d.approvalAt.value].id]
  {
    var added := NewRecords(s, d, input);
    ConsumedConcat(added[..1], added[1..]);
    ConsumedNone(added[1..]);
    assert added == added[..1] + added[1..];
    assert added[..1][..0] == [];
  }

  lemma GatedKept(cfg: Config, tasks: seq<Task>, nodes: seq<Node>, d: Delta, input: Input)
    requires NodesFit(nodes, d) && TasksLegal(cfg, tasks, nodes, d, input)
    ensures var before, after := GatedTasks(cfg, tasks), GatedTasks(cfg, TasksAfter(tasks, nodes, d, input));
            if d.Submit? && Gated(cfg, d.task.ability) then after == before + [d.task]
            else |after| == |before| && forall i :: 0 <= i < |before| ==> SameSubmission(after[i], before[i])
  {
    var after := TasksAfter(tasks, nodes, d, input);
    IdentitiesKept(cfg, tasks, nodes, d, input);
    if d.Submit? { assert after[..|after| - 1] == tasks; } else { GatedPointwise(cfg, after, tasks); }
  }

  lemma PairedKept(cfg: Config, trace: Trace, n: nat, s: Store, d: Delta)
    requires ApprovalsOk(trace, n, s.approvals) && Fits(s, d)
    requires ApprovalsLegal(cfg, s.approvals, d, trace.at(n)) && TasksLegal(cfg, s.tasks, s.nodes, d, trace.at(n))
    requires Paired(cfg, s.approvals, ConsumedIds(s.audit), GatedTasks(cfg, s.tasks))
    ensures Paired(cfg, ApprovalsAfter(s.approvals, d), ConsumedIds(s.audit + NewRecords(s, d, trace.at(n))),
                   GatedTasks(cfg, TasksAfter(s.tasks, s.nodes, d, trace.at(n))))
  {
    ConsumedConcat(s.audit, NewRecords(s, d, trace.at(n)));
    GatedKept(cfg, s.tasks, s.nodes, d, trace.at(n));
    if d.Submit? && d.approvalAt.Some? {
      SpentBySubmission(s, d, trace.at(n));
      PairedConsumption(cfg, trace, n, s.approvals, d, ConsumedIds(s.audit), GatedTasks(cfg, s.tasks));
    } else {
      NothingConsumed(s, d, trace.at(n));
      PairedUnlessConsumed(cfg, s.approvals, d, trace.at(n), ConsumedIds(s.audit), GatedTasks(cfg, s.tasks),
                           GatedTasks(cfg, TasksAfter(s.tasks, s.nodes, d, trace.at(n))));
    }
  }

  lemma NothingConsumed(s: Store, d: Delta, input: Input)
    requires Fits(s, d) && !(d.Submit? && d.approvalAt.Some?)
    ensures ConsumedIds(NewRecords(s, d, input)) == []
  {
    if d.Retire? { CancelRecordsShape(s.tasks, s.nodes[d.nodeAt].id, d.actor, input, |s.tasks|); }
    ConsumedNone(NewRecords(s, d, input));
  }

  /* ---- records ---- */

  predicate PlainWhenSome(o: Option<string>) {
    o.Some? ==> Plain(o.value)
  }

  /** A record as a handler writes it: plain names, an actor, a known event, and no chain hashes yet. */
  predicate RecordOk(a: Activity) {
    Plain(a.id) && PlainWhenSome(a.nodeId) && PlainWhenSome(a.taskId) && a.actor.Some? && Plain(a.actor.value) &&
    !a.event.OtherEvent? && a.prevHash == "" && a.hash == ""
  }

  predicate RecordsOk(log: seq<Activity>) {
    forall i :: 0 <= i < |log| ==> RecordOk(log[i])
  }

  /** Every authenticated caller is a subject the identity check accepts. */
  ghost predicate Authenticated(trace: Trace) {
    forall i: nat :: Caller(trace.at(i).request).Some? ==> Text.ValidActor(Caller(trace.at(i).request).value)
  }

  lemma ActorIsPlain(caller: Option<string>)
    requires caller.Some? ==> Text.ValidActor(caller.value)
    ensures Plain(AuditActor(caller))
  {
    var actor := AuditActor(caller);
    forall i | 0 <= i < |actor| ensures '!' <= actor[i] <= '~' && actor[i] != '\\' {
      assert actor[i] in actor;
    }
  }

  lemma IdIsPlain(id: string)
    requires Text.ValidId(id)
    ensures Plain(id)
  {
    forall i | 0 <= i < |id| ensures '!' <= id[i] <= '~' && id[i] != '\\' { assert id[i] in id; }
  }

  lemma KnownIsPlain(trace: Trace, n: nat, name: string)
    requires FreshDraws(trace) && Known(trace, n, name)
    ensures Plain(name)
  {
    var (i, k) := trace.origin(name);
    assert Plain(trace.at(i).draw(k));
  }

  lemma DrawsArePlain(trace: Trace, n: nat)
    requires FreshDraws(trace)
    ensures forall k: nat :: Plain(trace.at(n).draw(k))
  {
  }

  lemma SubmitRecordsOk(cfg: Config, trace: Trace, n: nat, s: Store, d: Delta)
    requires FreshDraws(trace) && NodesOk(s.nodes) && ApprovalsOk(trace, n, s.approvals)
    requires d.Submit? && Fits(s, d) && TasksLegal(cfg, s.tasks, s.nodes, d, trace.at(n))
    ensures RecordsOk(NewRecords(s, d, trace.at(n)))
  {
    DrawsArePlain(trace, n);
    ServingIsServed(cfg, s.nodes, d.task.nodeId, trace.at(n).now);
    IdIsPlain(d.task.nodeId);
    IdIsPlain(d.task.actor);
    if d.approvalAt.Some? { KnownIsPlain(trace, n, s.approvals[d.approvalAt.value].id); }
  }

  lemma TaskRecordsOk(cfg: Config, trace: Trace, n: nat, s: Store, d: Delta)
    requires FreshDraws(trace) && TasksOk(trace, n, s.tasks, s.nodes)
    requires d.Cancel? || d.Complete?
    requires d.Cancel? ==> Plain(d.actor)
    requires Fits(s, d) && TasksLegal(cfg, s.tasks, s.nodes, d, trace.at(n))
    ensures RecordsOk(NewRecords(s, d, trace.at(n)))
  {
    DrawsArePlain(trace, n);
    assert TaskOk(trace, n, s.tasks[d.taskAt]);
    KnownIsPlain(trace, n, s.tasks[d.taskAt].id);
    IdIsPlain(s.tasks[d.taskAt].nodeId);
  }

  lemma NodeRecordsOk(cfg: Config, trace: Trace, n: nat, s: Store, d: Delta)
    requires FreshDraws(trace) && NodesOk(s.nodes) && Plain(AuditActor(Caller(trace.at(n).request)))
    requires d.Enroll? || d.Rekey? || d.Beat? || d.Dispatch?
    requires Fits(s, d) && NodesLegal(s.nodes, d, trace.at(n).now) && Attributed(d, trace.at(n))
    requires TasksLegal(cfg, s.tasks, s.nodes, d, trace.at(n))
    ensures RecordsOk(NewRecords(s, d, trace.at(n)))
  {
    DrawsArePlain(trace, n);
    match d
    case Enroll(node, _) => IdIsPlain(node.id);
    case Rekey(k, _, _) => assert NodeOk(s.nodes[k]); IdIsPlain(s.nodes[k].id);
    case Beat(k, _) => assert NodeOk(s.nodes[k]); IdIsPlain(s.nodes[k].id);
    case Dispatch(id) => ServingIsServed(cfg, s.nodes, id, trace.at(n).now); IdIsPlain(id);
  }

  lemma NewRecordsOk(cfg: Config, trace: Trace, n: nat, s: Store, d: Delta)
    requires FreshDraws(trace) && Plain(AuditActor(Caller(trace.at(n).request)))
    requires NodesOk(s.nodes) && TasksOk(trace, n, s.tasks, s.nodes) && ApprovalsOk(trace, n, s.approvals)
    requires Legal(cfg, s, d, trace.at(n))
    ensures RecordsOk(NewRecords(s, d, trace.at(n)))
  {
    DrawsArePlain(trace, n);
    match d
    case Retire(k, actor) =>
      assert NodeOk(s.nodes[k]);
      IdIsPlain(s.nodes[k].id);
      CancelRecordsPlain(trace, n, s.tasks, s.nodes[k].id, actor, |s.tasks|);
    case Pledge(_, _) =>
    case Withdraw(_, _) =>
    case Authorize(a, _) => IdIsPlain(a.nodeId);
    case Submit(_, _) => SubmitRecordsOk(cfg, trace, n, s, d);
    case Cancel(_, _) => TaskRecordsOk(cfg, trace, n, s, d);
    case Complete(_, _) => TaskRecordsOk(cfg, trace, n, s, d);
    case _ => NodeRecordsOk(cfg, trace, n, s, d);
  }

  lemma {:induction false} CancelRecordsPlain(
    trace: Trace, n: nat, tasks: seq<Task>, nodeId: string, actor: string, m: nat)
    requires FreshDraws(trace) && m <= |tasks| && Plain(nodeId) && Plain(actor)
    requires forall i :: 0 <= i < |tasks| ==> TaskOk(trace, n, tasks[i])
    ensures RecordsOk(CancelRecords(tasks, nodeId, actor, trace.at(n), m))
  {
    if m > 0 {
      CancelRecordsPlain(trace, n, tasks, nodeId, actor, m - 1);
      assert TaskOk(trace, n, tasks[m - 1]);
      KnownIsPlain(trace, n, tasks[m - 1].id);
      DrawsArePlain(trace, n);
    }
  }

  /* ---- machine words ---- */

  predicate Word(n: nat) { n <= U64_MAX }

  predicate ExitCodeFits(code: Option<int>) {
    code.Some? ==> -0x8000_0000 <= code.value <= 0x7FFF_FFFF
  }

  /** Every number in the store fits the width its column has in the program. */
  predicate WordsOk(s: Store) {
    (forall i :: 0 <= i < |s.nodes| ==> Word(s.nodes[i].lastSeen)) &&
    (forall i :: 0 <= i < |s.tasks| ==> Word(s.tasks[i].leaseUntil) && ExitCodeFits(s.tasks[i].exitCode)) &&
    (forall i :: 0 <= i < |s.grants| ==> Word(s.grants[i].expiresAt)) &&
    (forall i :: 0 <= i < |s.approvals| ==> Word(s.approvals[i].expiresAt)) &&
    (forall i :: 0 <= i < |s.audit| ==> Word(s.audit[i].timestamp))
  }

  /** The clock stays far enough from the end of 64 bits, and exit codes are 32-bit as they are parsed. */
  ghost predicate WithinWords(trace: Trace) {
    forall i: nat ::
      trace.at(i).now + 305_000 <= U64_MAX &&
      (trace.at(i).request.AgentResult? ==> ExitCodeFits(trace.at(i).request.result.exitCode))
  }

  lemma TaskWordsKept(cfg: Config, trace: Trace, n: nat, tasks: seq<Task>, nodes: seq<Node>, d: Delta, i: nat)
    requires WithinWords(trace) && NodesFit(nodes, d) && TasksLegal(cfg, tasks, nodes, d, trace.at(n))
    requires i < |tasks| ==>
      TaskOk(trace, n, tasks[i]) && Word(tasks[i].leaseUntil) && ExitCodeFits(tasks[i].exitCode)
    requires i < |TasksAfter(tasks, nodes, d, trace.at(n))|
    ensures var t := TasksAfter(tasks, nodes, d, trace.at(n))[i]; Word(t.leaseUntil) && ExitCodeFits(t.exitCode)
  {
    assert trace.at(n).now + 305_000 <= U64_MAX;
  }

  /** An edit dates every record it writes with the clock it was given. */
  lemma NewRecordsDated(s: Store, d: Delta, input: Input)
    requires Fits(s, d)
    ensures forall i :: 0 <= i < |NewRecords(s, d, input)| ==> NewRecords(s, d, input)[i].timestamp == input.now
  {
    if d.Retire? {
      var cancels := CancelRecords(s.tasks, s.nodes[d.nodeAt].id, d.actor, input, |s.tasks|);
      CancelRecordsShape(s.tasks, s.nodes[d.nodeAt].id, d.actor, input, |s.tasks|);
      forall i | 0 < i < |NewRecords(s, d, input)| ensures NewRecords(s, d, input)[i].timestamp == input.now {
        assert NewRecords(s, d, input)[i] in cancels;
      }
    }
  }

  lemma NodeWordsKept(nodes: seq<Node>, d: Delta, now: nat)
    requires NodesLegal(nodes, d, now) && Word(now)
    requires forall i :: 0 <= i < |nodes| ==> Word(nodes[i].lastSeen)
    ensures forall i :: 0 <= i < |NodesAfter(nodes, d)| ==> Word(NodesAfter(nodes, d)[i].lastSeen)
  {
  }

  lemma GrantWordsKept(grants: seq<Grant>, d: Delta, input: Input)
    requires GrantsLegal(grants, d, input) && Word(input.now + GRANT_LIFETIME_MS)
    requires forall i :: 0 <= i < |grants| ==> Word(grants[i].expiresAt)
    ensures forall i :: 0 <= i < |GrantsAfter(grants, d)| ==> Word(GrantsAfter(grants, d)[i].expiresAt)
  {
  }

  lemma ApprovalWordsKept(cfg: Config, approvals: seq<Approval>, d: Delta, input: Input)
    requires ApprovalsLegal(cfg, approvals, d, input) && Word(input.now + GRANT_LIFETIME_MS)
    requires forall i :: 0 <= i < |approvals| ==> Word(approvals[i].expiresAt)
    ensures forall i :: 0 <= i < |ApprovalsAfter(approvals, d)| ==> Word(ApprovalsAfter(approvals, d)[i].expiresAt)
  {
  }

  lemma WordsKept(cfg: Config, trace: Trace, n: nat, s: Store, d: Delta)
    requires WithinWords(trace) && WordsOk(s) && Legal(cfg, s, d, trace.at(n))
    requires forall i :: 0 <= i < |s.tasks| ==> TaskOk(trace, n, s.tasks[i])
    ensures WordsOk(Apply(s, d, trace.at(n)))
  {
    assert trace.at(n).now + 305_000 <= U64_MAX;
    NewRecordsDated(s, d, trace.at(n));
    NodeWordsKept(s.nodes, d, trace.at(n).now);
    GrantWordsKept(s.grants, d, trace.at(n));
    ApprovalWordsKept(cfg, s.approvals, d, trace.at(n));
    var tasks := TasksAfter(s.tasks, s.nodes, d, trace.at(n));
    forall i | 0 <= i < |tasks| ensures Word(tasks[i].leaseUntil) && ExitCodeFits(tasks[i].exitCode) {
      TaskWordsKept(cfg, trace, n, s.tasks, s.nodes, d, i);
    }
  }

  /* ---- every reachable state ---- */

  /** What holds of memory after any number of requests, given fresh names alone. */
  predicate Inv(cfg: Config, trace: Trace, n: nat, s: Store) {
    NodesOk(s.nodes) && GrantsOk(trace, n, s.grants) && ApprovalsOk(trace, n, s.approvals) &&
    TasksOk(trace, n, s.tasks, s.nodes) && NamesKnown(trace, n, s.audit) && LedgerOk(s.audit, s.tasks) &&
    Counted(s) && Paired(cfg, s.approvals, ConsumedIds(s.audit), GatedTasks(cfg, s.tasks))
  }

  /** Nodes, used grants and used approvals are each counted by the records that announce them. */
  predicate Counted(s: Store) {
    |s.nodes| == CountOf(s.audit, NodeCreated) + CountOf(s.audit, GrantRedeemed) &&
    Count(s.grants, Used()) == CountOf(s.audit, GrantRedeemed) &&
    Count(s.approvals, Spent()) == |ConsumedIds(s.audit)| == CountOf(s.audit, ApprovalConsumed)
  }

  /** Nodes and used grants move with the records that announce them. */
  lemma EnrollmentsCounted(s: Store, d: Delta, input: Input, nodesAfter: nat, usedAfter: nat)
    requires Fits(s, d)
    requires |s.nodes| == CountOf(s.audit, NodeCreated) + CountOf(s.audit, GrantRedeemed)
    requires Count(s.grants, Used()) == CountOf(s.audit, GrantRedeemed)
    requires nodesAfter == |s.nodes| + if d.Enroll? then 1 else 0
    requires usedAfter == Count(s.grants, Used()) + if d.Enroll? && d.grantAt.Some? then 1 else 0
    ensures nodesAfter ==
            CountOf(Apply(s, d, input).audit, NodeCreated) + CountOf(Apply(s, d, input).audit, GrantRedeemed)
    ensures usedAfter == CountOf(Apply(s, d, input).audit, GrantRedeemed)
  {
    CountOfApplied(s, d, input, NodeCreated);
    CountOfApplied(s, d, input, GrantRedeemed);
  }

  lemma LedgerKept(cfg: Config, trace: Trace, n: nat, s: Store, d: Delta)
    requires FreshDraws(trace) && NamesKnown(trace, n, s.audit) && LedgerOk(s.audit, s.tasks)
    requires TasksOk(trace, n, s.tasks, s.nodes) && Fits(s, d)
    requires TasksLegal(cfg, s.tasks, s.nodes, d, trace.at(n))
    ensures LedgerOk(s.audit + NewRecords(s, d, trace.at(n)), TasksAfter(s.tasks, s.nodes, d, trace.at(n)))
  {
    IdentitiesKept(cfg, s.tasks, s.nodes, d, trace.at(n));
    var after := TasksAfter(s.tasks, s.nodes, d, trace.at(n));
    forall i | 0 <= i < |after| ensures Settled(s.audit + NewRecords(s, d, trace.at(n)), after[i]) {
      if i < |s.tasks| {
        assert Settled(s.audit, s.tasks[i]) && TaskOk(trace, n, s.tasks[i]);
        SettledKept(cfg, trace, n, s, d, i);
      } else {
        NewTaskSettled(trace, n, s, d);
      }
    }
  }

  lemma NamesStayKnown(cfg: Config, trace: Trace, n: nat, s: Store, d: Delta)
    requires FreshDraws(trace) && Legal(cfg, s, d, trace.at(n)) && NamesKnown(trace, n, s.audit)
    requires TasksOk(trace, n, s.tasks, s.nodes) && ApprovalsOk(trace, n, s.approvals)
    ensures NamesKnown(trace, n + 1, s.audit + NewRecords(s, d, trace.at(n)))
  {
    NewNamesKnown(cfg, trace, n, s, d);
  }

  lemma ConsumptionCounted(cfg: Config, s: Store, d: Delta, input: Input)
    requires Fits(s, d) && |ConsumedIds(s.audit)| == CountOf(s.audit, ApprovalConsumed)
    ensures |ConsumedIds(s.audit + NewRecords(s, d, input))| ==
            CountOf(s.audit + NewRecords(s, d, input), ApprovalConsumed)
    ensures CountOf(s.audit + NewRecords(s, d, input), ApprovalConsumed) ==
            CountOf(s.audit, ApprovalConsumed) + if d.Submit? && d.approvalAt.Some? then 1 else 0
  {
    CountOfApplied(s, d, input, ApprovalConsumed);
    ConsumedConcat(s.audit, NewRecords(s, d, input));
    if d.Submit? && d.approvalAt.Some? { SpentBySubmission(s, d, input); } else { NothingConsumed(s, d, input); }
  }

  lemma CountedKept(cfg: Config, trace: Trace, n: nat, s: Store, d: Delta)
    requires FreshDraws(trace) && Counted(s) && Legal(cfg, s, d, trace.at(n))
    requires NodesOk(s.nodes) && GrantsOk(trace, n, s.grants) && ApprovalsOk(trace, n, s.approvals)
    ensures Counted(Apply(s, d, trace.at(n)))
  {
    NodesKept(s.nodes, d, trace.at(n).now);
    GrantsKept(trace, n, s.grants, d);
    EnrollmentsCounted(s, d, trace.at(n), |NodesAfter(s.nodes, d)|, Count(GrantsAfter(s.grants, d), Used()));
    ApprovalsKept(cfg, trace, n, s.approvals, d);
    ConsumptionCounted(cfg, s, d, trace.at(n));
  }

  lemma InvKept(cfg: Config, trace: Trace, n: nat, s: Store, d: Delta)
    requires FreshDraws(trace) && Inv(cfg, trace, n, s) && Legal(cfg, s, d, trace.at(n))
    ensures Inv(cfg, trace, n + 1, Apply(s, d, trace.at(n)))
  {
    NodesKept(s.nodes, d, trace.at(n).now);
    GrantsKept(trace, n, s.grants, d);
    TasksKept(cfg, trace, n, s.tasks, s.nodes, d);
    NamesStayKnown(cfg, trace, n, s, d);
    LedgerKept(cfg, trace, n, s, d);
    ApprovalsKept(cfg, trace, n, s.approvals, d);
    CountedKept(cfg, trace, n, s, d);
    PairedKept(cfg, trace, n, s, d);
  }

  lemma TasksLater(trace: Trace, n: nat, tasks: seq<Task>, before: seq<Node>, after: seq<Node>)
    requires TasksOk(trace, n, tasks, before)
    requires forall id :: Served(before, id) ==> Served(after, id)
    ensures TasksOk(trace, n + 1, tasks, after)
  {
    forall i | 0 <= i < |tasks| ensures TaskOk(trace, n + 1, tasks[i]) {
      assert TaskOk(trace, n, tasks[i]);
    }
  }

  lemma NamesLater(trace: Trace, n: nat, s: Store)
    requires GrantsOk(trace, n, s.grants) && ApprovalsOk(trace, n, s.approvals) && NamesKnown(trace, n, s.audit)
    ensures GrantsOk(trace, n + 1, s.grants) && ApprovalsOk(trace, n + 1, s.approvals)
    ensures NamesKnown(trace, n + 1, s.audit)
  {
  }

  /** Nodes keep their ids, and whether they are revoked. */
  predicate SameNodes(a: seq<Node>, b: seq<Node>) {
    |a| == |b| && forall i :: 0 <= i < |a| ==> b[i].id == a[i].id && b[i].revoked == a[i].revoked
  }

  lemma SameNodesServe(nodes: seq<Node>, after: seq<Node>)
    requires SameNodes(nodes, after)
    ensures forall id :: Served(nodes, id) ==> Served(after, id)
  {
    forall id | Served(nodes, id) ensures Served(after, id) {
      var i :| 0 <= i < |nodes| && nodes[i].id == id;
      assert after[i].id == id;
    }
  }

  lemma InvUnedited(cfg: Config, trace: Trace, n: nat, s: Store, nodes: seq<Node>)
    requires Inv(cfg, trace, n, s) && NodesOk(nodes) && SameNodes(s.nodes, nodes)
    ensures Inv(cfg, trace, n + 1, s.(nodes := nodes))
  {
    SameNodesServe(s.nodes, nodes);
    TasksLater(trace, n, s.tasks, s.nodes, nodes);
    NamesLater(trace, n, s);
  }

  lemma EmptyInv(cfg: Config, trace: Trace)
    ensures Inv(cfg, trace, 0, EMPTY_STORE)
  {
  }

  lemma NextInv(cfg: Config, trace: Trace, h: History, n: nat)
    requires FreshDraws(trace) && Moves(cfg, trace, h, n) && Inv(cfg, trace, n, h.state(n).mem)
    requires Sound(h.state(n))
    ensures Inv(cfg, trace, n + 1, h.state(n + 1).mem)
  {
    NextSound(cfg, trace, h, n);
    match h.edit(n)
    case Some(d) => InvKept(cfg, trace, n, h.state(n).mem, d);
    case None => InvUnedited(cfg, trace, n, h.state(n).mem, h.state(n + 1).mem.nodes);
  }

  lemma {:induction false} Reachable(cfg: Config, trace: Trace, h: History, n: nat)
    requires FreshDraws(trace) && Follows(cfg, trace, h)
    ensures Inv(cfg, trace, n, h.state(n).mem)
  {
    EmptyInv(cfg, trace);
    var m := 0;
    while m < n
      invariant m <= n && Inv(cfg, trace, m, h.state(m).mem) && Sound(h.state(m))
    {
      assert Moves(cfg, trace, h, m);
      NextInv(cfg, trace, h, m);
      NextSound(cfg, trace, h, m);
      m := m + 1;
    }
  }

  lemma NextRecords(cfg: Config, trace: Trace, h: History, n: nat)
    requires FreshDraws(trace) && Moves(cfg, trace, h, n) && Plain(AuditActor(Caller(trace.at(n).request)))
    requires RecordsOk(h.state(n).mem.audit) && Inv(cfg, trace, n, h.state(n).mem)
    ensures RecordsOk(h.state(n + 1).mem.audit)
  {
    if h.edit(n).Some? { NewRecordsOk(cfg, trace, n, h.state(n).mem, h.edit(n).value); }
  }

  /** Every record of a reachable log is a plain one, its chain hashes still to be filled in. */
  lemma {:induction false} ReachableRecords(cfg: Config, trace: Trace, h: History, n: nat)
    requires FreshDraws(trace) && Authenticated(trace) && Follows(cfg, trace, h)
    ensures RecordsOk(h.state(n).mem.audit)
  {
    var m := 0;
    while m < n
      invariant m <= n && RecordsOk(h.state(m).mem.audit)
    {
      Reachable(cfg, trace, h, m);
      ActorIsPlain(Caller(trace.at(m).request));
      assert Moves(cfg, trace, h, m);
      NextRecords(cfg, trace, h, m);
      m := m + 1;
    }
  }

  /** The numbers in memory fit, and so do the times nodes were last seen at when they were last saved. */
  predicate SysWords(sys: Sys) {
    WordsOk(sys.mem) && forall i :: 0 <= i < |sys.disk.nodes| ==> Word(sys.disk.nodes[i].lastSeen)
  }

  lemma NextWords(cfg: Config, trace: Trace, h: History, n: nat)
    requires WithinWords(trace) && Moves(cfg, trace, h, n) && SysWords(h.state(n))
    requires TasksOk(trace, n, h.state(n).mem.tasks, h.state(n).mem.nodes)
    ensures SysWords(h.state(n + 1))
  {
    assert trace.at(n).now + 305_000 <= U64_MAX;
    if h.edit(n).Some? { WordsKept(cfg, trace, n, h.state(n).mem, h.edit(n).value); }
  }

  /** Every number of a reachable store fits its machine word. */
  lemma {:induction false} ReachableWords(cfg: Config, trace: Trace, h: History, n: nat)
    requires FreshDraws(trace) && WithinWords(trace) && Follows(cfg, trace, h)
    ensures WordsOk(h.state(n).mem)
  {
    var m := 0;
    while m < n
      invariant m <= n && SysWords(h.state(m))
    {
      Reachable(cfg, trace, h, m);
      assert Moves(cfg, trace, h, m);
      NextWords(cfg, trace, h, m);
      m := m + 1;
    }
  }
}
