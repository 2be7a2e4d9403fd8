/**
 * Runs in which the server is also stopped and started again, at any turns and
 * any number of times. A start reads back the snapshot that was last saved. The
 * engine never reads the chain hashes, so apart from them such a run is one of
 * the histories the theorems are about.
 */
module Restarts {
  import opened Records
  import opened Text
  import opened Engine
  import opened EngineRuns
  import opened EngineInvariants
  import opened AuditChain
  import opened SnapshotLines
  import opened Snapshot
  import EngineOutcomes
  import EngineTheorems

  /** At some turns, instead of meeting a request, the server is started again. */
  datatype Life = Life(trace: Trace, restarts: nat -> bool)

  /** What a start makes of the saved store: memory, and the store the snapshot file stands for. */
  type Boot = (Store, nat) -> Sys

  /** A start from the snapshot file as it was last written. */
  function FromSnapshot(link: Link): Boot {
    (saved: Store, now: nat) =>
      match Parse(link, LineReader(now), Print(link, saved))
      case Some(s) => Sys(s, s)
      case None => Sys(EMPTY_STORE, EMPTY_STORE)
  }

  function After(cfg: Config, life: Life, boot: Boot, n: nat): Sys {
    if n == 0 then Sys(EMPTY_STORE, EMPTY_STORE)
    else
      var sys := After(cfg, life, boot, n - 1);
      if life.restarts(n - 1) then boot(sys.disk, life.trace.at(n - 1).now)
      else Step(cfg, sys, life.trace.at(n - 1)).sys
  }

  /* ---- the store without its chain hashes ---- */

  function Bare(s: Store): Store {
    s.(audit := Map(Unlinked, s.audit))
  }

  function BareSys(sys: Sys): Sys {
    Sys(Bare(sys.mem), Bare(sys.disk))
  }

  /** The run, as a history of edits of the bare store. */
  function Story(cfg: Config, life: Life, boot: Boot): History {
    History((n: nat) => BareSys(After(cfg, life, boot, n)), (n: nat) => Saved(cfg, life, boot, n))
  }

  function Saved(cfg: Config, life: Life, boot: Boot, n: nat): Option<Delta> {
    if life.restarts(n) then None else Committed(cfg, After(cfg, life, boot, n), life.trace.at(n))
  }

  lemma NewRecordsAreBare(s: Store, d: Delta, input: Input)
    requires Fits(s, d)
    ensures Fits(Bare(s), d) && NewRecords(Bare(s), d, input) == NewRecords(s, d, input)
    ensures Map(Unlinked, NewRecords(s, d, input)) == NewRecords(s, d, input)
  {
    var added := NewRecords(s, d, input);
    if d.Retire? {
      CancelRecordsShape(s.tasks, s.nodes[d.nodeAt].id, d.actor, input, |s.tasks|);
      forall i | 0 <= i < |added| ensures Unlinked(added[i]) == added[i] {
        assert i > 0 ==> added[i] in CancelRecords(s.tasks, s.nodes[d.nodeAt].id, d.actor, input, |s.tasks|);
      }
    }
    assert forall i :: 0 <= i < |added| ==> Unlinked(added[i]) == added[i];
  }

  lemma BareApplied(s: Store, d: Delta, input: Input)
    requires Fits(s, d)
    ensures Fits(Bare(s), d) && Bare(Apply(s, d, input)) == Apply(Bare(s), d, input)
  {
    NewRecordsAreBare(s, d, input);
    var added := NewRecords(s, d, input);
    assert Map(Unlinked, s.audit + added) == Map(Unlinked, s.audit) + Map(Unlinked, added);
  }

  /** A turn that meets a request moves the bare store as the request moves the store. */
  lemma RequestMoves(cfg: Config, sys: Sys, input: Input)
    ensures var bare, next := BareSys(sys), BareSys(Step(cfg, sys, input).sys);
      match Committed(cfg, sys, input)
      case Some(d) =>
        input.commits && Legal(cfg, bare.mem, d, input) &&
        next.mem == Apply(bare.mem, d, input) && next.disk == next.mem
      case None =>
        next.disk == bare.disk && next.mem == bare.mem.(nodes := next.mem.nodes) &&
        Seen(bare.mem.nodes, next.mem.nodes, input)
  {
    StepMoves(cfg, sys, input);
    var d := Committed(cfg, sys, input);
    if d.Some? { BareApplied(sys.mem, d.value, input); }
  }

  /* ---- columns that a restart leaves alone ---- */

  predicate TidyNode(n: Node) {
    Tidy(n.id) && Tidy(n.name) && Tidy(n.credential) && Tidy(n.abilities)
  }

  predicate TidyTask(t: Task) {
    Tidy(t.id) && Tidy(t.nodeId) && Tidy(t.ability) && Tidy(t.idempotencyKey) && Tidy(t.outputSha256)
  }

  predicate TidyGrant(g: Grant) {
    Tidy(g.code) && Tidy(g.signature)
  }

  predicate TidyApproval(a: Approval) {
    Tidy(a.id) && Tidy(a.nodeId) && Tidy(a.ability) && Tidy(a.actor)
  }

  /** Every cleaned column is free of tabs and line breaks. */
  predicate TidyStore(s: Store) {
    (forall i :: 0 <= i < |s.nodes| ==> TidyNode(s.nodes[i])) &&
    (forall i :: 0 <= i < |s.tasks| ==> TidyTask(s.tasks[i])) &&
    (forall i :: 0 <= i < |s.grants| ==> TidyGrant(s.grants[i])) &&
    (forall i :: 0 <= i < |s.approvals| ==> TidyApproval(s.approvals[i]))
  }

  /** What the edit writes into cleaned columns is free of tabs and line breaks. */
  predicate TidyDelta(d: Delta) {
    match d
    case Enroll(node, _) => TidyNode(node)
    case Rekey(_, credential, _) => Tidy(credential)
    case Pledge(grant, _) => TidyGrant(grant)
    case Authorize(approval, _) => TidyApproval(approval)
    case Submit(t, _) => TidyTask(t)
    case Beat(_, node) => Tidy(node.abilities)
    case Complete(_, t) => Tidy(t.outputSha256)
    case _ => true
  }

  lemma TidyNodesKept(nodes: seq<Node>, d: Delta, now: nat)
    requires NodesLegal(nodes, d, now) && TidyDelta(d) && forall i :: 0 <= i < |nodes| ==> TidyNode(nodes[i])
    ensures forall i :: 0 <= i < |NodesAfter(nodes, d)| ==> TidyNode(NodesAfter(nodes, d)[i])
  {
  }

  lemma TidyTasksKept(cfg: Config, tasks: seq<Task>, nodes: seq<Node>, d: Delta, input: Input)
    requires NodesFit(nodes, d) && TasksLegal(cfg, tasks, nodes, d, input) && TidyDelta(d)
    requires forall i :: 0 <= i < |tasks| ==> TidyTask(tasks[i])
    ensures var after := TasksAfter(tasks, nodes, d, input); forall i :: 0 <= i < |after| ==> TidyTask(after[i])
  {
  }

  lemma TidyKept(cfg: Config, s: Store, d: Delta, input: Input)
    requires Legal(cfg, s, d, input) && TidyStore(s) && TidyDelta(d)
    ensures TidyStore(Apply(s, d, input))
  {
    TidyNodesKept(s.nodes, d, input.now);
    TidyTasksKept(cfg, s.tasks, s.nodes, d, input);
  }

  /** The foreign functions put no tab and no line break into a column. */
  ghost predicate TidyConfig(cfg: Config) {
    (forall code: string, expires: nat :: Tidy(cfg.sign(code, expires))) &&
    (forall text: string :: Tidy(cfg.sha256(text))) &&
    (forall text: string :: cfg.negotiate(text).Some? ==> Tidy(cfg.negotiate(text).value))
  }

  /** Node names and idempotency keys are free of tabs and line breaks. */
  predicate TidyRequest(r: Request) {
    (r.CreateNode? || r.RedeemGrant? ==> Tidy(r.description.name.GetOr(""))) &&
    (r.CreateTask? ==> Tidy(r.task.idempotencyKey))
  }

  lemma ValidIsTidy(id: string)
    requires ValidId(id)
    ensures Tidy(id)
  {
    IdIsPlain(id);
  }

  lemma DrawsAreTidy(trace: Trace, n: nat)
    requires FreshDraws(trace)
    ensures forall k: nat :: Tidy(trace.at(n).draw(k))
  {
    forall k: nat ensures Tidy(trace.at(n).draw(k)) { assert Plain(trace.at(n).draw(k)); }
  }

  lemma AbilitiesAreTidy()
    ensures Tidy("file.read,file.write,task.exec,system.inspect")
  {
    var first, last := "file.read,file.write,", "task.exec,system.inspect";
    assert Tidy(first) && Tidy(last);
    TidyConcat(first, last);
    assert first + last == "file.read,file.write,task.exec,system.inspect";
  }

  lemma NewNodeIsTidy(id: string, d: NodeBody, credential: string, now: nat)
    requires ValidId(id) && Tidy(d.name.GetOr("")) && Tidy(credential)
    ensures TidyNode(NewNode(id, d, credential, now))
  {
    ValidIsTidy(id);
    AbilitiesAreTidy();
  }

  lemma ActorIsTidy(actor: string)
    requires ValidActor(actor)
    ensures Tidy(actor)
  {
    forall i | 0 <= i < |actor| ensures actor[i] != '\t' && actor[i] != '\n' && actor[i] != '\r' {
      assert actor[i] in actor;
    }
  }

  lemma EnrollmentIsTidy(cfg: Config, s: Store, input: Input)
    requires TidyRequest(input.request) && forall k: nat :: Tidy(input.draw(k))
    ensures input.request.CreateNode? ==>
      var d := DecideCreateNode(cfg, s, input); d.Save? ==> TidyDelta(d.delta)
    ensures input.request.RedeemGrant? ==>
      var d := DecideRedeemGrant(cfg, s, input); d.Save? ==> TidyDelta(d.delta)
  {
    var r := input.request;
    assert Tidy(input.draw(0));
    if (r.CreateNode? || r.RedeemGrant?) && ValidId(r.nodeId) {
      NewNodeIsTidy(r.nodeId, r.description, input.draw(0), input.now);
    }
  }

  lemma GrantIsTidy(cfg: Config, s: Store, input: Input)
    requires TidyConfig(cfg) && forall k: nat :: Tidy(input.draw(k))
    ensures input.request.CreateGrant? ==> TidyDelta(DecideCreateGrant(cfg, s, input).delta)
    ensures input.request.RotateNode? ==>
      var d := DecideRotateNode(cfg, s, input); d.Save? ==> TidyDelta(d.delta)
  {
    assert Tidy(input.draw(0));
    assert Tidy(cfg.sign(input.draw(0), input.now + GRANT_LIFETIME_MS));
  }

  lemma ApprovalIsTidy(cfg: Config, s: Store, input: Input)
    requires input.request.CreateApproval? && forall k: nat :: Tidy(input.draw(k))
    ensures var d := DecideCreateApproval(cfg, s, input); d.Save? ==> TidyDelta(d.delta)
  {
    var r := input.request;
    var actor := ResolveActor(r.claimedActor, r.caller);
    assert Tidy(input.draw(0)) && Tidy("task.exec");
    if actor.Some? && ValidId(r.nodeId) && ValidActor(actor.value) {
      ValidIsTidy(r.nodeId);
      ActorIsTidy(actor.value);
    }
  }

  lemma KnownAbilityIsTidy(ability: string)
    requires ability in ["file.read", "file.write", "task.exec", "system.inspect"]
    ensures Tidy(ability)
  {
  }

  lemma AbilityIsTidy(cfg: Config, s: Store, t: Task, now: nat)
    requires PolicyRefusal(cfg, s, t, now).None?
    ensures Tidy(t.ability)
  {
    EngineOutcomes.GatesRead(cfg, s, t, now);
    KnownAbilityIsTidy(t.ability);
  }

  lemma RequestedIsTidy(cfg: Config, s: Store, t: Task, now: nat)
    requires NodesOk(s.nodes) && PolicyRefusal(cfg, s, t, now).None?
    requires Tidy(t.id) && Tidy(t.idempotencyKey) && t.outputSha256 == ""
    ensures TidyTask(t)
  {
    AbilityIsTidy(cfg, s, t, now);
    ServingIsServed(cfg, s.nodes, t.nodeId, now);
    ValidIsTidy(t.nodeId);
  }

  /** A queued submission is the task that was requested, and no policy gate refused it. */
  predicate QueuedAsRequested(cfg: Config, s: Store, t: Task, input: Input)
    requires input.request.CreateTask?
  {
    var actor := ResolveActor(input.request.task.actor, input.request.caller);
    actor.Some? && t == Requested(input.request.task, actor.value, input) && PolicyRefusal(cfg, s, t, input.now).None?
  }

  lemma SavedAsRequested(cfg: Config, s: Store, input: Input)
    requires input.request.CreateTask?
    ensures var d := DecideCreateTask(cfg, s, input);
      d.Save? ==> QueuedAsRequested(cfg, s, d.delta.task, input)
  {
  }

  lemma QueuedIsTidy(cfg: Config, s: Store, t: Task, input: Input)
    requires input.request.CreateTask? && TidyRequest(input.request) && NodesOk(s.nodes) && Tidy(input.draw(0))
    requires QueuedAsRequested(cfg, s, t, input)
    ensures TidyTask(t)
  {
    RequestedIsTidy(cfg, s, t, input.now);
  }

  lemma SubmissionIsTidy(cfg: Config, s: Store, input: Input)
    requires input.request.CreateTask? && TidyRequest(input.request) && NodesOk(s.nodes)
    requires forall k: nat :: Tidy(input.draw(k))
    ensures var d := DecideCreateTask(cfg, s, input); d.Save? ==> TidyDelta(d.delta)
  {
    var d := DecideCreateTask(cfg, s, input);
    assert Tidy(input.draw(0));
    if d.Save? {
      SavedAsRequested(cfg, s, input);
      QueuedIsTidy(cfg, s, d.delta.task, input);
    }
  }

  lemma HeartbeatIsTidy(cfg: Config, s: Store, input: Input)
    requires input.request.Heartbeat? && TidyConfig(cfg) && forall i :: 0 <= i < |s.nodes| ==> TidyNode(s.nodes[i])
    ensures var d := DecideHeartbeat(cfg, s, input); d.Save? ==> TidyDelta(d.delta)
  {
  }

  lemma ResultIsTidy(cfg: Config, s: Store, input: Input)
    requires input.request.AgentResult? && TidyConfig(cfg)
    ensures var d := DecideAgentResult(cfg, s, input); d.Save? ==> TidyDelta(d.delta)
  {
  }

  /** Some requests write into no cleaned column. */
  lemma OthersAreTidy(cfg: Config, s: Store, input: Input)
    requires var r := input.request; r.RevokeNode? || r.RevokeGrant? || r.CancelTask? || r.AgentTasks?
    ensures var d := Decide(cfg, s, input); d.Save? ==> TidyDelta(d.delta)
  {
  }

  /** What any request saves is tidy, when its names and keys are. */
  lemma DecisionsAreTidy(cfg: Config, s: Store, input: Input)
    requires TidyConfig(cfg) && TidyRequest(input.request) && TidyStore(s) && NodesOk(s.nodes)
    requires forall k: nat :: Tidy(input.draw(k))
    ensures var d := Decide(cfg, s, input); d.Save? ==> TidyDelta(d.delta)
  {
    match input.request
    case CreateNode(_, _, _) => EnrollmentIsTidy(cfg, s, input);
    case RedeemGrant(_, _, _, _) => EnrollmentIsTidy(cfg, s, input);
    case RotateNode(_, _) => GrantIsTidy(cfg, s, input);
    case CreateGrant(_) => GrantIsTidy(cfg, s, input);
    case CreateApproval(_, _, _, _, _, _) => ApprovalIsTidy(cfg, s, input);
    case CreateTask(_, _) => SubmissionIsTidy(cfg, s, input);
    case Heartbeat(_) => HeartbeatIsTidy(cfg, s, input);
    case AgentResult(_, _) => ResultIsTidy(cfg, s, input);
    case _ => OthersAreTidy(cfg, s, input);
  }

  /* ---- what a restart does ---- */

  /** A start reloads the store that was saved. */
  ghost predicate Reboots(link: Link, boot: Boot) {
    forall s: Store, now: nat {:trigger boot(s, now)} ::
      Storable(s) ==> boot(s, now) == Sys(Reload(link, s), Reload(link, s))
  }

  lemma SnapshotReboots(link: Link)
    requires ReadsBodyOnly(link)
    ensures Reboots(link, FromSnapshot(link))
  {
    forall s: Store, now: nat | Storable(s)
      ensures FromSnapshot(link)(s, now) == Sys(Reload(link, s), Reload(link, s))
    {
      RoundTrip(link, s, now);
    }
  }

  lemma TidyTaskReloads(trace: Trace, n: nat, t: Task)
    requires TidyTask(t) && TaskOk(trace, n, t)
    ensures ReloadTask(t) == t
  {
    StateOfKnown(t.state);
  }

  lemma StateOfKnown(s: TaskState)
    requires !s.OtherState?
    ensures StateNamed(Clean(StateName(s))) == s
  {
    assert Tidy("queued") && Tidy("dispatched") && Tidy("succeeded") && Tidy("failed") && Tidy("cancelled");
    assert Tidy("timed_out");
  }

  lemma SealIsBare(link: Link, log: seq<Activity>)
    ensures Map(Unlinked, Seal(link, log)) == Map(Unlinked, log)
  {
    forall i | 0 <= i < |log| ensures Unlinked(Seal(link, log)[i]) == Unlinked(log[i]) {
      assert Seal(link, log)[i] == Sealed(link, log, i);
    }
  }

  /** Apart from chain hashes, a restart leaves a tidy store alone. */
  lemma TidyStoreReloads(link: Link, trace: Trace, n: nat, s: Store)
    requires TidyStore(s) && NodesOk(s.nodes) && forall i :: 0 <= i < |s.tasks| ==> TaskOk(trace, n, s.tasks[i])
    ensures Bare(Reload(link, s)) == Bare(s)
  {
    forall i | 0 <= i < |s.nodes| ensures ReloadNode(s.nodes[i]) == s.nodes[i] {
      assert TidyNode(s.nodes[i]) && NodeOk(s.nodes[i]);
    }
    forall i | 0 <= i < |s.tasks| ensures ReloadTask(s.tasks[i]) == s.tasks[i] {
      assert TidyTask(s.tasks[i]);
      TidyTaskReloads(trace, n, s.tasks[i]);
    }
    forall i | 0 <= i < |s.grants| ensures ReloadGrant(s.grants[i]) == s.grants[i] {
      assert TidyGrant(s.grants[i]);
    }
    forall i | 0 <= i < |s.approvals| ensures ReloadApproval(s.approvals[i]) == s.approvals[i] {
      assert TidyApproval(s.approvals[i]);
    }
    SealIsBare(link, s.audit);
    assert Map(ReloadNode, s.nodes) == s.nodes && Map(ReloadTask, s.tasks) == s.tasks;
    assert Map(ReloadGrant, s.grants) == s.grants && Map(ReloadApproval, s.approvals) == s.approvals;
  }

  /* ---- turn by turn ---- */

  /** What holds before every turn. */
  ghost predicate Healthy(cfg: Config, life: Life, h: History, n: nat) {
    var sys := h.state(n);
    Inv(cfg, life.trace, n, sys.mem) && Sound(sys) && RecordsOk(sys.mem.audit) && SysWords(sys) && TidyStore(sys.mem)
  }

  /** What the run as a whole is assumed to be like. */
  ghost predicate Orderly(cfg: Config, life: Life) {
    FreshDraws(life.trace) && Authenticated(life.trace) && WithinWords(life.trace) && TidyConfig(cfg) &&
    forall i: nat :: TidyRequest(life.trace.at(i).request)
  }

  lemma NextHealthy(cfg: Config, life: Life, h: History, n: nat)
    requires Orderly(cfg, life) && Healthy(cfg, life, h, n) && Moves(cfg, life.trace, h, n)
    requires h.edit(n).Some? ==> TidyDelta(h.edit(n).value)
    ensures Healthy(cfg, life, h, n + 1)
  {
    NextInv(cfg, life.trace, h, n);
    NextSound(cfg, life.trace, h, n);
    ActorIsPlain(Caller(life.trace.at(n).request));
    NextRecords(cfg, life.trace, h, n);
    NextWords(cfg, life.trace, h, n);
    NextTidy(cfg, life.trace, h, n);
  }

  lemma NextTidy(cfg: Config, trace: Trace, h: History, n: nat)
    requires Moves(cfg, trace, h, n) && Sound(h.state(n)) && TidyStore(h.state(n).mem)
    requires h.edit(n).Some? ==> TidyDelta(h.edit(n).value)
    ensures TidyStore(h.state(n + 1).mem)
  {
    if h.edit(n).Some? {
      TidyKept(cfg, h.state(n).mem, h.edit(n).value, trace.at(n));
    } else {
      var nodes, after := h.state(n).mem.nodes, h.state(n + 1).mem.nodes;
      forall i | 0 <= i < |after| ensures TidyNode(after[i]) { assert TidyNode(nodes[i]); }
    }
  }

  /** The saved store can be stored, whatever its chain hashes. */
  lemma DiskIsStorable(cfg: Config, trace: Trace, n: nat, sys: Sys)
    requires Inv(cfg, trace, n, BareSys(sys).mem) && Sound(BareSys(sys)) && RecordsOk(Bare(sys.mem).audit)
    requires SysWords(BareSys(sys))
    ensures Storable(sys.disk)
  {
    var bare := BareSys(sys);
    assert bare.mem.audit == bare.disk.audit && bare.mem.tasks == bare.disk.tasks;
    forall i | 0 <= i < |sys.disk.audit|
      ensures sys.disk.audit[i].timestamp <= U64_MAX && Named(sys.disk.audit[i].event)
    {
      assert bare.mem.audit[i] == Unlinked(sys.disk.audit[i]);
      assert RecordOk(bare.mem.audit[i]) && Word(bare.mem.audit[i].timestamp);
      KnownEventsAreNamed(sys.disk.audit[i].event);
    }
    forall i | 0 <= i < |sys.disk.tasks| ensures TaskWords(sys.disk.tasks[i]) {
      assert TaskOk(trace, n, bare.mem.tasks[i]);
    }
  }

  /** A restart of an orderly run brings back the saved store, chain hashes apart. */
  lemma RestartMoves(cfg: Config, link: Link, boot: Boot, trace: Trace, n: nat, sys: Sys, now: nat)
    requires Reboots(link, boot) && Inv(cfg, trace, n, BareSys(sys).mem) && Sound(BareSys(sys))
    requires RecordsOk(Bare(sys.mem).audit) && SysWords(BareSys(sys)) && TidyStore(Bare(sys.mem))
    ensures BareSys(boot(sys.disk, now)) == Sys(Bare(sys.disk), Bare(sys.disk))
  {
    DiskIsStorable(cfg, trace, n, sys);
    var bare := BareSys(sys);
    forall i | 0 <= i < |sys.disk.nodes| ensures TidyNode(sys.disk.nodes[i]) { assert TidyNode(bare.mem.nodes[i]); }
    forall i | 0 <= i < |sys.disk.tasks| ensures TaskOk(trace, n, sys.disk.tasks[i]) {
      assert TaskOk(trace, n, bare.mem.tasks[i]);
    }
    assert bare.mem.tasks == sys.disk.tasks && bare.mem.grants == sys.disk.grants;
    assert bare.mem.approvals == sys.disk.approvals;
    TidyStoreReloads(link, trace, n, sys.disk);
  }

  lemma RequestTurn(cfg: Config, trace: Trace, h: History, n: nat, sys: Sys)
    requires h.state(n) == BareSys(sys) && h.state(n + 1) == BareSys(Step(cfg, sys, trace.at(n)).sys)
    requires h.edit(n) == Committed(cfg, sys, trace.at(n))
    ensures Moves(cfg, trace, h, n)
  {
    RequestMoves(cfg, sys, trace.at(n));
  }

  lemma RestartTurn(cfg: Config, trace: Trace, h: History, n: nat)
    requires Sound(h.state(n)) && h.edit(n) == None
    requires h.state(n + 1) == Sys(h.state(n).disk, h.state(n).disk)
    ensures Moves(cfg, trace, h, n)
  {
  }

  lemma RequestIsTidy(cfg: Config, life: Life, n: nat, sys: Sys)
    requires Orderly(cfg, life) && TidyStore(Bare(sys.mem)) && NodesOk(sys.mem.nodes)
    ensures Committed(cfg, sys, life.trace.at(n)).Some? ==> TidyDelta(Committed(cfg, sys, life.trace.at(n)).value)
  {
    DrawsAreTidy(life.trace, n);
    var bare := Bare(sys.mem);
    assert bare.nodes == sys.mem.nodes && bare.tasks == sys.mem.tasks;
    assert bare.grants == sys.mem.grants && bare.approvals == sys.mem.approvals;
    DecisionsAreTidy(cfg, sys.mem, life.trace.at(n));
  }

  /** Turn `n` of the history meets the request, in a system that is `sys` but for chain hashes. */
  ghost predicate Meets(cfg: Config, trace: Trace, h: History, n: nat, sys: Sys) {
    h.state(n) == BareSys(sys) && h.state(n + 1) == BareSys(Step(cfg, sys, trace.at(n)).sys) &&
    h.edit(n) == Committed(cfg, sys, trace.at(n))
  }

  /** Turn `n` of the history starts the server again. */
  ghost predicate Starts(boot: Boot, h: History, n: nat, sys: Sys, now: nat) {
    h.state(n) == BareSys(sys) && h.state(n + 1) == BareSys(boot(sys.disk, now)) && h.edit(n) == None
  }

  lemma MeetingMoves(cfg: Config, life: Life, h: History, n: nat, sys: Sys)
    requires Orderly(cfg, life) && Healthy(cfg, life, h, n) && Meets(cfg, life.trace, h, n, sys)
    ensures Moves(cfg, life.trace, h, n) && (h.edit(n).Some? ==> TidyDelta(h.edit(n).value))
  {
    RequestTurn(cfg, life.trace, h, n, sys);
    RequestIsTidy(cfg, life, n, sys);
  }

  lemma StartingMoves(cfg: Config, life: Life, link: Link, boot: Boot, h: History, n: nat, sys: Sys, now: nat)
    requires Reboots(link, boot) && Healthy(cfg, life, h, n) && Starts(boot, h, n, sys, now)
    ensures Moves(cfg, life.trace, h, n) && h.edit(n) == None
  {
    RestartMoves(cfg, link, boot, life.trace, n, sys, now);
    RestartTurn(cfg, life.trace, h, n);
  }

  lemma Restarted(cfg: Config, life: Life, boot: Boot, n: nat)
    requires life.restarts(n)
    ensures After(cfg, life, boot, n + 1) == boot(After(cfg, life, boot, n).disk, life.trace.at(n).now)
  {
  }

  lemma StepTaken(cfg: Config, life: Life, boot: Boot, n: nat)
    requires !life.restarts(n)
    ensures After(cfg, life, boot, n + 1) == Step(cfg, After(cfg, life, boot, n), life.trace.at(n)).sys
  {
  }

  lemma StoryAt(cfg: Config, life: Life, boot: Boot, n: nat)
    ensures Story(cfg, life, boot).state(n) == BareSys(After(cfg, life, boot, n))
    ensures Story(cfg, life, boot).edit(n) ==
      if life.restarts(n) then None else Committed(cfg, After(cfg, life, boot, n), life.trace.at(n))
  {
  }

  lemma StoryStarts(cfg: Config, life: Life, boot: Boot, n: nat)
    requires life.restarts(n)
    ensures Starts(boot, Story(cfg, life, boot), n, After(cfg, life, boot, n), life.trace.at(n).now)
  {
    StoryAt(cfg, life, boot, n);
    StoryAt(cfg, life, boot, n + 1);
    Restarted(cfg, life, boot, n);
  }

  lemma StoryMeets(cfg: Config, life: Life, boot: Boot, n: nat)
    requires !life.restarts(n)
    ensures Meets(cfg, life.trace, Story(cfg, life, boot), n, After(cfg, life, boot, n))
  {
    StoryAt(cfg, life, boot, n);
    StoryAt(cfg, life, boot, n + 1);
    StepTaken(cfg, life, boot, n);
  }

  lemma NextMoves(cfg: Config, life: Life, link: Link, boot: Boot, h: History, n: nat)
    requires Orderly(cfg, life) && Reboots(link, boot) && h == Story(cfg, life, boot) && Healthy(cfg, life, h, n)
    ensures Moves(cfg, life.trace, h, n) && (h.edit(n).Some? ==> TidyDelta(h.edit(n).value))
  {
    var sys := After(cfg, life, boot, n);
    if life.restarts(n) {
      StoryStarts(cfg, life, boot, n);
      StartingMoves(cfg, life, link, boot, h, n, sys, life.trace.at(n).now);
    } else {
      StoryMeets(cfg, life, boot, n);
      MeetingMoves(cfg, life, h, n, sys);
    }
  }

  lemma StartsHealthy(cfg: Config, life: Life, boot: Boot)
    ensures Healthy(cfg, life, Story(cfg, life, boot), 0)
  {
    EmptyInv(cfg, life.trace);
  }

  lemma {:induction false} AlwaysHealthy(cfg: Config, life: Life, link: Link, boot: Boot, n: nat)
    requires Orderly(cfg, life) && Reboots(link, boot)
    ensures Healthy(cfg, life, Story(cfg, life, boot), n) && Moves(cfg, life.trace, Story(cfg, life, boot), n)
  {
    var h := Story(cfg, life, boot);
    StartsHealthy(cfg, life, boot);
    var m := 0;
    while m < n
      invariant m <= n && Healthy(cfg, life, h, m)
    {
      NextMoves(cfg, life, link, boot, h, m);
      NextHealthy(cfg, life, h, m);
      m := m + 1;
    }
    NextMoves(cfg, life, link, boot, h, n);
  }

  /**
   * Every orderly run, however often it is stopped and started again from its
   * snapshot, is chain hashes apart a history of legal edits: what holds of all
   * such histories holds across restarts.
   */
  lemma RunsWithRestartsFollow(cfg: Config, life: Life, hash: Hash)
    requires Orderly(cfg, life)
    ensures Follows(cfg, life.trace, Story(cfg, life, FromSnapshot(ActivityHash(hash))))
  {
    var boot := FromSnapshot(ActivityHash(hash));
    ActivityHashReadsBodyOnly(hash);
    SnapshotReboots(ActivityHash(hash));
    forall n: nat ensures Moves(cfg, life.trace, Story(cfg, life, boot), n) {
      AlwaysHealthy(cfg, life, ActivityHash(hash), boot, n);
    }
  }

  /** Whatever tidy requests are met, and whenever the server is started again, there is an orderly run of it. */
  lemma OrderlyRunsExist(cfg: Config, at: nat -> Input, restarts: nat -> bool)
    requires TidyConfig(cfg)
    requires forall i: nat :: TidyRequest(at(i).request)
    requires forall i: nat :: Caller(at(i).request).Some? ==> ValidActor(Caller(at(i).request).value)
    requires forall i: nat :: at(i).now + 305_000 <= U64_MAX
    requires forall i: nat :: at(i).request.AgentResult? ==> ExitCodeFits(at(i).request.result.exitCode)
    ensures exists origin :: Orderly(cfg, Life(Trace(WithNames(at), origin), restarts))
  {
    FreshRunsExist(at);
    var origin :| FreshDraws(Trace(WithNames(at), origin));
    var life := Life(Trace(WithNames(at), origin), restarts);
    forall i: nat
      ensures TidyRequest(life.trace.at(i).request) && life.trace.at(i).now + 305_000 <= U64_MAX
      ensures Caller(life.trace.at(i).request).Some? ==> ValidActor(Caller(life.trace.at(i).request).value)
      ensures life.trace.at(i).request.AgentResult? ==> ExitCodeFits(life.trace.at(i).request.result.exitCode)
    {
      assert life.trace.at(i).request == at(i).request && life.trace.at(i).now == at(i).now;
    }
    assert Orderly(cfg, life);
  }

  /* ---- across restarts ---- */

  /**
   * However often the server is started again in between, each task accepts at
   * most one result, under the token of its latest saved lease.
   */
  lemma FencingAcrossRestarts(cfg: Config, life: Life, hash: Hash, h: History, j: nat, k: nat)
    requires Orderly(cfg, life) && h == Story(cfg, life, FromSnapshot(ActivityHash(hash)))
    requires EngineTheorems.AcceptsAt(h, j, k)
    ensures EngineTheorems.Fenced(life.trace, h, j, k)
  {
    RunsWithRestartsFollow(cfg, life, hash);
    EngineTheorems.Fencing(cfg, life.trace, h, j, k);
  }

  lemma {:induction false} TallyOfBare(log: seq<Activity>, e: Event, id: string)
    ensures Tally(Map(Unlinked, log), e, id) == Tally(log, e, id)
  {
    if log != [] {
      var n := |log| - 1;
      TallyOfBare(log[..n], e, id);
      assert Map(Unlinked, log)[..n] == Map(Unlinked, log[..n]);
    }
  }

  lemma ClosingsOfBare(log: seq<Activity>, id: string)
    ensures Tally(Map(Unlinked, log), TaskAccepted, id) == Tally(log, TaskAccepted, id)
    ensures Closings(Map(Unlinked, log), id) == Closings(log, id)
  {
    TallyOfBare(log, TaskAccepted, id);
    TallyOfBare(log, TaskCompleted, id);
    TallyOfBare(log, TaskCancelled, id);
    TallyOfBare(log, TaskCancelledByRevoke, id);
  }

  /** The ledger holds at every turn of a run with restarts, over the sealed log as it then stands in memory. */
  lemma LedgerAcrossRestarts(cfg: Config, life: Life, hash: Hash, n: nat, sys: Sys, k: nat)
    requires Orderly(cfg, life) && sys == After(cfg, life, FromSnapshot(ActivityHash(hash)), n) && k < |sys.mem.tasks|
    ensures var t, log := sys.mem.tasks[k], sys.mem.audit;
      Tally(log, TaskAccepted, t.id) == 1 && (t.state.Terminal() <==> Closings(log, t.id) == 1) &&
      (t.state.Live() <==> Closings(log, t.id) == 0)
  {
    var boot := FromSnapshot(ActivityHash(hash));
    RunsWithRestartsFollow(cfg, life, hash);
    StoryAt(cfg, life, boot, n);
    EngineTheorems.TaskLedger(cfg, life.trace, Story(cfg, life, boot), n, k);
    ClosingsOfBare(sys.mem.audit, sys.mem.tasks[k].id);
  }

  /** A submission by this actor under the key of this task. */
  predicate Repeats(input: Input, actor: string, t: Task) {
    input.request.CreateTask? && ResolveActor(input.request.task.actor, input.request.caller) == Some(actor) &&
    TaskBodyRefusal(Requested(input.request.task, actor, input)).None? &&
    input.request.task.idempotencyKey == t.idempotencyKey != ""
  }

  /**
   * A submission under a key taken before any number of restarts still returns
   * the task that has it, or is refused as a conflict, and changes nothing.
   */
  lemma ReplayAcrossRestarts(
    cfg: Config, life: Life, hash: Hash, n: nat, m: nat, was: Sys, sys: Sys, k: nat, actor: string)
    requires Orderly(cfg, life) && n <= m
    requires was == After(cfg, life, FromSnapshot(ActivityHash(hash)), n)
    requires sys == After(cfg, life, FromSnapshot(ActivityHash(hash)), m)
    requires k < |was.mem.tasks| && Repeats(life.trace.at(m), actor, was.mem.tasks[k])
    ensures k < |sys.mem.tasks| && sys.mem.tasks[k].id == was.mem.tasks[k].id
    ensures Step(cfg, sys, life.trace.at(m)) ==
      Outcome(sys, if SameRequest(was.mem.tasks[k], Requested(life.trace.at(m).request.task, actor, life.trace.at(m)))
                   then TaskReply(200, sys.mem.tasks[k]) else Refused(409, "idempotency_conflict"))
  {
    var boot := FromSnapshot(ActivityHash(hash));
    var h := Story(cfg, life, boot);
    RunsWithRestartsFollow(cfg, life, hash);
    StoryAt(cfg, life, boot, n);
    StoryAt(cfg, life, boot, m);
    KeptPlace(cfg, life.trace, h, n, m, k);
    EngineTheorems.KeyTakenDecides(cfg, sys, life.trace.at(m), k, actor);
  }

  /** The task that has a key keeps its place, and no other before it has that key. */
  lemma KeptPlace(cfg: Config, trace: Trace, h: History, n: nat, m: nat, k: nat)
    requires FreshDraws(trace) && Follows(cfg, trace, h) && n <= m && k < |h.state(n).mem.tasks|
    requires h.state(n).mem.tasks[k].idempotencyKey != ""
    ensures k < |h.state(m).mem.tasks| && SameSubmission(h.state(m).mem.tasks[k], h.state(n).mem.tasks[k])
    ensures k == FirstIndex(h.state(m).mem.tasks, TaskKeyed(h.state(n).mem.tasks[k].idempotencyKey))
  {
    EngineTheorems.NothingGoesBack(cfg, trace, h, n, m);
    var tasks, key := h.state(m).mem.tasks, h.state(n).mem.tasks[k].idempotencyKey;
    assert TaskKeyed(key)(tasks[k]);
    EngineTheorems.OneTaskPerKey(cfg, trace, h, n, m, k, FirstIndex(tasks, TaskKeyed(key)));
  }
}
