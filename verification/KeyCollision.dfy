/** Two idempotency keys that are told apart until a restart, and not after it, in a run the server accepts. */
module KeyCollision {
  import opened Records
  import opened Text
  import opened Engine
  import opened EngineRuns
  import opened EngineOutcomes
  import opened SnapshotLines
  import opened SnapshotOfRuns
  import AuditChain
  import RequestLaws
  import Snapshot

  /** Who asks whom for what. */
  datatype Cast = Cast(node: string, request: string, actor: string, path: string)

  predicate WellNamed(c: Cast) {
    ValidId(c.node) && ValidId(c.request) && ValidId(c.actor)
  }

  /** The policy lets anyone read this file on any node. */
  predicate Permissive(cfg: Config, path: string) {
    "file.read" in cfg.allowedAbilities && "file.read" !in cfg.approvalRequired && cfg.allowsPath(path) &&
    cfg.allowedActors == [] && cfg.allowedDataClasses == [] && cfg.validLabels("")
  }

  function Enrollment(c: Cast): Request {
    CreateNode(c.node, NodeBody(None, None, None, None, None, None, None, None), None)
  }

  function Reading(c: Cast, key: string): Request {
    CreateTask(TaskBody(c.node, Some(c.request), Some(c.actor), "file.read", key, Some(c.path), "", None, false, None,
                        None), None)
  }

  /** The store has this one node, just seen, and it reads files. */
  predicate HasFresh(nodes: seq<Node>, id: string, now: nat) {
    |nodes| == 1 && nodes[0].id == id && nodes[0].online && !nodes[0].revoked && nodes[0].lastSeen == now &&
    "file.read" in Split(nodes[0].abilities, ',')
  }

  lemma FirstIsOffered(s: string, first: string)
    requires |first| < |s| && s[|first|] == ',' && forall i :: 0 <= i < |first| ==> s[i] == first[i] != ','
    ensures first in Split(s, ',')
  {
    var n := |first|;
    assert s == first + [','] + s[n + 1..];
    FirstAfterLacking(first, ',', s[n + 1..]);
    assert s[..n] == first;
    assert Split(s, ',')[0] == first;
  }

  lemma FileReadIsOffered()
    ensures "file.read" in Split("file.read,file.write,task.exec,system.inspect", ',')
  {
    FirstIsOffered("file.read,file.write,task.exec,system.inspect", "file.read");
  }

  /** What an enrollment leaves of an empty store. */
  predicate Enrolls(next: Outcome, id: string, now: nat) {
    next.reply.NodeReply? && next.reply.status == 201 && HasFresh(next.sys.mem.nodes, id, now) &&
    next.sys.mem.tasks == []
  }

  lemma NewNodeIsFresh(c: Cast, d: NodeBody, credential: string, now: nat)
    ensures HasFresh([NewNode(c.node, d, credential, now)], c.node, now)
  {
    FileReadIsOffered();
  }

  lemma EnrollmentSaved(cfg: Config, c: Cast, input: Input)
    requires WellNamed(c) && cfg.validLabels("") && input.request == Enrollment(c)
    ensures var d := DecideCreateNode(cfg, EMPTY_STORE, input);
      d.Save? && d.delta == Enroll(NewNode(c.node, input.request.description, input.draw(0), input.now), None) &&
      d.reply == NodeReply(201, d.delta.node)
  {
  }

  lemma SavedEnrollmentEnrolls(d: Decision, node: Node, input: Input)
    requires d == Save(Enroll(node, None), NodeReply(201, node)) && input.commits
    requires HasFresh([node], node.id, input.now)
    ensures Enrolls(Conclude(Sys(EMPTY_STORE, EMPTY_STORE), d, input), node.id, input.now)
  {
    assert [] + [node] == [node];
  }

  lemma Enrolled(cfg: Config, c: Cast, input: Input)
    requires WellNamed(c) && cfg.validLabels("") && input.request == Enrollment(c) && input.commits
    ensures Enrolls(Conclude(Sys(EMPTY_STORE, EMPTY_STORE), DecideCreateNode(cfg, EMPTY_STORE, input), input),
                    c.node, input.now)
  {
    EnrollmentSaved(cfg, c, input);
    NewNodeIsFresh(c, input.request.description, input.draw(0), input.now);
    var node := NewNode(c.node, input.request.description, input.draw(0), input.now);
    SavedEnrollmentEnrolls(DecideCreateNode(cfg, EMPTY_STORE, input), node, input);
  }

  lemma FreshNodeSuits(cfg: Config, nodes: seq<Node>, t: Task, now: nat)
    requires cfg.allowedDataClasses == [] && HasFresh(nodes, t.nodeId, now) && now <= U64_MAX
    requires t.ability == "file.read"
    ensures NodeAllows(cfg, nodes, t, now)
  {
    assert RequestLaws.Up(cfg, nodes[0], now) && NodeSuits(cfg, nodes[0], t.ability);
  }

  /** The request reads the file under this key, the key is free, and the backend will commit. */
  predicate Asks(sys: Sys, c: Cast, input: Input, key: string) {
    input.request == Reading(c, key) && input.commits && input.now <= U64_MAX &&
    HasFresh(sys.mem.nodes, c.node, input.now) && KeyFree(sys.mem.tasks, key)
  }

  lemma ReadingIsAllowed(cfg: Config, c: Cast, s: Store, t: Task, b: TaskBody, now: nat)
    requires Permissive(cfg, c.path) && t.ability == "file.read" && t.program == c.path
    ensures PolicyAllows(cfg, t) && ApprovalGiven(cfg, s.approvals, t, b, now)
  {
  }

  lemma AskingIsAdmissible(cfg: Config, sys: Sys, c: Cast, input: Input, key: string)
    requires Permissive(cfg, c.path) && WellNamed(c) && Asks(sys, c, input, key)
    ensures Admissible(cfg, sys.mem, input)
  {
    var b := input.request.task;
    var t := Requested(b, c.actor, input);
    AskedOnce(input, c.actor);
    FreshNodeSuits(cfg, sys.mem.nodes, t, input.now);
    ReadingIsAllowed(cfg, c, sys.mem, t, b, input.now);
  }

  /** The request was accepted as new: one more task, under this key, and no node touched. */
  predicate Queues(sys: Sys, next: Outcome, key: string) {
    var before, after := sys.mem.tasks, next.sys.mem.tasks;
    next.reply.TaskReply? && next.reply.status == 202 && next.sys.mem.nodes == sys.mem.nodes &&
    |after| == |before| + 1 && after[..|before|] == before && after[|before|].idempotencyKey == key
  }

  lemma SavedSubmissionQueues(cfg: Config, sys: Sys, input: Input)
    requires input.request.CreateTask? && input.commits && DecideCreateTask(cfg, sys.mem, input).Save?
    ensures Queues(sys, Conclude(sys, DecideCreateTask(cfg, sys.mem, input), input), input.request.task.idempotencyKey)
  {
  }

  lemma AdmissibleIsSaved(cfg: Config, s: Store, input: Input)
    requires input.request.CreateTask? && UniqueNodes(s.nodes) && Admissible(cfg, s, input)
    ensures DecideCreateTask(cfg, s, input).Save?
  {
    QueuedExactlyWhenAllowed(cfg, s, input);
  }

  lemma StepOfSubmission(cfg: Config, sys: Sys, input: Input)
    requires input.request.CreateTask?
    ensures Step(cfg, sys, input) == Conclude(sys, DecideCreateTask(cfg, sys.mem, input), input)
  {
  }

  lemma AskingQueues(cfg: Config, sys: Sys, c: Cast, input: Input, key: string)
    requires Permissive(cfg, c.path) && WellNamed(c) && Asks(sys, c, input, key)
    ensures Queues(sys, Step(cfg, sys, input), key)
  {
    AskingIsAdmissible(cfg, sys, c, input, key);
    AdmissibleIsSaved(cfg, sys.mem, input);
    SavedSubmissionQueues(cfg, sys, input);
    StepOfSubmission(cfg, sys, input);
  }

  lemma TwoKeysMeet(tasks: seq<Task>)
    requires |tasks| == 2 && tasks[0].idempotencyKey == "a\tb" && tasks[1].idempotencyKey == "a b"
    ensures KeysApart(tasks) && !KeysApart(Snapshot.Map(ReloadTask, tasks))
  {
    assert "a\tb"[1] != "a b"[1];
    assert BlankAlike(tasks[0].idempotencyKey, tasks[1].idempotencyKey);
    KeysStayApartExactlyWhen(tasks);
  }

  /** Two requests one after the other, each accepted as new, under the two keys. */
  lemma BothQueued(sys: Sys, one: Outcome, two: Outcome, link: AuditChain.Link)
    requires sys.mem.tasks == [] && Queues(sys, one, "a\tb") && Queues(one.sys, two, "a b")
    ensures KeysApart(two.sys.mem.tasks) && !KeysApart(Snapshot.Reload(link, two.sys.mem).tasks)
  {
    assert two.sys.mem.tasks[0] == two.sys.mem.tasks[..1][0];
    TwoKeysMeet(two.sys.mem.tasks);
  }

  /** The first turns of the run: an enrollment, and two submissions under keys that differ in a tab and a space. */
  predicate MeetsBothKeys(trace: Trace, c: Cast) {
    trace.at(0).request == Enrollment(c) && trace.at(1).request == Reading(c, "a\tb") &&
    trace.at(2).request == Reading(c, "a b") && trace.at(0).commits && trace.at(1).commits && trace.at(2).commits &&
    trace.at(0).now == trace.at(1).now == trace.at(2).now <= U64_MAX
  }

  /** A turn of the engine, as a relation. */
  ghost predicate Turn(cfg: Config, trace: Trace, n: nat, next: Outcome) {
    next == Step(cfg, After(cfg, trace, n), trace.at(n)) && next.sys == After(cfg, trace, n + 1)
  }

  lemma FirstTurn(cfg: Config, trace: Trace, c: Cast) returns (next: Outcome)
    requires Permissive(cfg, c.path) && WellNamed(c) && MeetsBothKeys(trace, c)
    ensures Turn(cfg, trace, 0, next) && Enrolls(next, c.node, trace.at(0).now)
  {
    next := Step(cfg, After(cfg, trace, 0), trace.at(0));
    Enrolled(cfg, c, trace.at(0));
  }

  lemma NextTurn(cfg: Config, trace: Trace, c: Cast, n: nat, key: string) returns (next: Outcome)
    requires Permissive(cfg, c.path) && WellNamed(c) && Asks(After(cfg, trace, n), c, trace.at(n), key)
    ensures Turn(cfg, trace, n, next) && Queues(After(cfg, trace, n), next, key)
  {
    next := Step(cfg, After(cfg, trace, n), trace.at(n));
    AskingQueues(cfg, After(cfg, trace, n), c, trace.at(n), key);
  }

  lemma KeyStaysFree(sys: Sys, one: Outcome)
    requires sys.mem.tasks == [] && Queues(sys, one, "a\tb")
    ensures KeyFree(one.sys.mem.tasks, "a b")
  {
    assert "a\tb"[1] != "a b"[1];
  }

  /**
   * In a run that enrolls a node and then meets two submissions under keys that
   * differ only in a tab and a space, both are accepted as new; and one restart
   * later their two tasks share a key.
   */
  lemma UntidyKeysCanMeet(cfg: Config, trace: Trace, c: Cast, link: AuditChain.Link)
    returns (one: Outcome, two: Outcome)
    requires Permissive(cfg, c.path) && WellNamed(c) && MeetsBothKeys(trace, c)
    ensures Turn(cfg, trace, 1, one) && Queues(After(cfg, trace, 1), one, "a\tb")
    ensures Turn(cfg, trace, 2, two) && Queues(After(cfg, trace, 2), two, "a b")
    ensures KeysApart(two.sys.mem.tasks) && !KeysApart(Snapshot.Reload(link, two.sys.mem).tasks)
  {
    var enrolled := FirstTurn(cfg, trace, c);
    one := NextTurn(cfg, trace, c, 1, "a\tb");
    KeyStaysFree(enrolled.sys, one);
    two := NextTurn(cfg, trace, c, 2, "a b");
    BothQueued(enrolled.sys, one, two, link);
  }
}
