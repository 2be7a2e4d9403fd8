/** Every store a run of the Control Plane reaches, saved and loaded again. */
module SnapshotOfRuns {
  import opened Records
  import opened Text
  import opened Engine
  import opened EngineRuns
  import opened EngineInvariants
  import opened AuditChain
  import opened SnapshotLines
  import opened Snapshot

  lemma PlainIsTidy(s: string)
    requires Plain(s)
    ensures Clean(s) == s
  {
    assert Tidy(s);
  }

  lemma ReachableIsStorable(cfg: Config, trace: Trace, h: History, n: nat)
    requires FreshDraws(trace) && Authenticated(trace) && WithinWords(trace) && Follows(cfg, trace, h)
    ensures Storable(h.state(n).mem) && WithinLimits(h.state(n).mem)
  {
    Reachable(cfg, trace, h, n);
    ReachableWords(cfg, trace, h, n);
    ReachableRecords(cfg, trace, h, n);
    var s := h.state(n).mem;
    forall i | 0 <= i < |s.tasks| ensures TaskWords(s.tasks[i]) && TaskOk(trace, n, s.tasks[i]) {
      assert TaskOk(trace, n, s.tasks[i]);
    }
    forall i | 0 <= i < |s.audit| ensures Named(s.audit[i].event) {
      assert RecordOk(s.audit[i]);
      KnownEventsAreNamed(s.audit[i].event);
    }
  }

  /**
   * At any point of any run, the saved snapshot loads, as the store it was
   * saved from with its blanked columns and sealed log, and saving that again
   * writes the same bytes.
   */
  lemma RunsSurviveRestart(cfg: Config, trace: Trace, h: History, n: nat, hash: Hash, now: nat)
    requires FreshDraws(trace) && Authenticated(trace) && WithinWords(trace) && Follows(cfg, trace, h)
    ensures var s, link := h.state(n).mem, ActivityHash(hash);
      Parse(link, LineReader(now), Print(link, s)) == Some(Reload(link, s)) &&
      Print(link, Reload(link, s)) == Print(link, s)
  {
    ReachableIsStorable(cfg, trace, h, n);
    ActivityHashReadsBodyOnly(hash);
    RoundTrip(ActivityHash(hash), h.state(n).mem, now);
    SavedAgain(ActivityHash(hash), h.state(n).mem);
  }

  lemma StateSurvives(s: TaskState)
    requires !s.OtherState?
    ensures StateNamed(Clean(StateName(s))) == s
  {
    assert Tidy("queued") && Tidy("dispatched") && Tidy("succeeded") && Tidy("failed") && Tidy("cancelled");
    assert Tidy("timed_out");
  }

  lemma TaskSurvives(trace: Trace, n: nat, t: Task)
    requires FreshDraws(trace) && TaskOk(trace, n, t)
    ensures ReloadTask(t) == t.(ability := Clean(t.ability), idempotencyKey := Clean(t.idempotencyKey),
                                outputSha256 := Clean(t.outputSha256))
  {
    KnownIsPlain(trace, n, t.id);
    PlainIsTidy(t.id);
    IdIsPlain(t.nodeId);
    PlainIsTidy(t.nodeId);
    StateSurvives(t.state);
  }

  lemma NodeSurvives(n: Node)
    requires NodeOk(n)
    ensures ReloadNode(n) ==
            n.(name := Clean(n.name), credential := Clean(n.credential), abilities := Clean(n.abilities))
  {
    IdIsPlain(n.id);
    PlainIsTidy(n.id);
  }

  /**
   * A restart touches nothing the lease protocol rests on: tasks keep their
   * id, node, actor, state, lease and token, nodes their id, presence and
   * revocation, grants their code, expiry and use.
   */
  lemma ProtocolSurvivesRestart(cfg: Config, trace: Trace, h: History, n: nat, link: Link)
    requires FreshDraws(trace) && Follows(cfg, trace, h)
    ensures var s := h.state(n).mem; var r := Reload(link, s);
      (forall i :: 0 <= i < |s.tasks| ==>
         r.tasks[i] == s.tasks[i].(ability := r.tasks[i].ability, idempotencyKey := r.tasks[i].idempotencyKey,
                                   outputSha256 := r.tasks[i].outputSha256)) &&
      (forall i :: 0 <= i < |s.nodes| ==>
         r.nodes[i] == s.nodes[i].(name := r.nodes[i].name, credential := r.nodes[i].credential,
                                   abilities := r.nodes[i].abilities)) &&
      (forall i :: 0 <= i < |s.grants| ==> r.grants[i] == s.grants[i].(signature := r.grants[i].signature))
  {
    Reachable(cfg, trace, h, n);
    var s, r := h.state(n).mem, Reload(link, h.state(n).mem);
    forall i | 0 <= i < |s.tasks|
      ensures r.tasks[i] == s.tasks[i].(ability := r.tasks[i].ability, idempotencyKey := r.tasks[i].idempotencyKey,
                                        outputSha256 := r.tasks[i].outputSha256)
    {
      assert TaskOk(trace, n, s.tasks[i]);
      TaskSurvives(trace, n, s.tasks[i]);
    }
    forall i | 0 <= i < |s.nodes|
      ensures r.nodes[i] == s.nodes[i].(name := r.nodes[i].name, credential := r.nodes[i].credential,
                                        abilities := r.nodes[i].abilities)
    {
      assert NodeOk(s.nodes[i]);
      NodeSurvives(s.nodes[i]);
    }
    forall i | 0 <= i < |s.grants| ensures r.grants[i] == s.grants[i].(signature := r.grants[i].signature) {
      assert Known(trace, n, s.grants[i].code);
      KnownIsPlain(trace, n, s.grants[i].code);
      PlainIsTidy(s.grants[i].code);
    }
  }

  /** At most one task has a given non-empty idempotency key. */
  predicate KeysApart(tasks: seq<Task>) {
    forall i, j :: 0 <= i < j < |tasks| && tasks[i].idempotencyKey != "" ==>
      tasks[i].idempotencyKey != tasks[j].idempotencyKey
  }

  predicate Blank(c: char) {
    c == ' ' || c == '\t' || c == '\n' || c == '\r'
  }

  /** The keys differ in nothing but the kind of their blanks. */
  predicate BlankAlike(a: string, b: string) {
    |a| == |b| && forall p :: 0 <= p < |a| ==> a[p] == b[p] || (Blank(a[p]) && Blank(b[p]))
  }

  lemma BlankAlikeIsCleanAlike(a: string, b: string)
    ensures Clean(a) == Clean(b) <==> BlankAlike(a, b)
  {
    if Clean(a) == Clean(b) {
      forall p | 0 <= p < |a| ensures a[p] == b[p] || (Blank(a[p]) && Blank(b[p])) {
        assert Clean(a)[p] == Clean(b)[p];
      }
    }
    if BlankAlike(a, b) {
      assert forall p :: 0 <= p < |a| ==> Clean(a)[p] == Clean(b)[p];
    }
  }

  /** Keys stay apart across a restart exactly when no two of them differ only in the kind of their blanks. */
  lemma KeysStayApartExactlyWhen(tasks: seq<Task>)
    ensures KeysApart(Map(ReloadTask, tasks)) <==>
      forall i, j :: 0 <= i < j < |tasks| && tasks[i].idempotencyKey != "" ==>
        !BlankAlike(tasks[i].idempotencyKey, tasks[j].idempotencyKey)
  {
    var after := Map(ReloadTask, tasks);
    forall i, j | 0 <= i < j < |tasks|
      ensures after[i].idempotencyKey == after[j].idempotencyKey <==>
              BlankAlike(tasks[i].idempotencyKey, tasks[j].idempotencyKey)
    {
      BlankAlikeIsCleanAlike(tasks[i].idempotencyKey, tasks[j].idempotencyKey);
    }
  }

  /** In a run, keys free of tabs and line breaks stay apart across a restart. */
  lemma TidyKeysStayApart(cfg: Config, trace: Trace, h: History, n: nat, link: Link)
    requires FreshDraws(trace) && Follows(cfg, trace, h)
    requires forall i :: 0 <= i < |h.state(n).mem.tasks| ==> Tidy(h.state(n).mem.tasks[i].idempotencyKey)
    ensures KeysApart(Reload(link, h.state(n).mem).tasks)
  {
    Reachable(cfg, trace, h, n);
    var s, r := h.state(n).mem, Reload(link, h.state(n).mem);
    assert forall i :: 0 <= i < |s.tasks| ==> r.tasks[i].idempotencyKey == s.tasks[i].idempotencyKey;
  }
}
