/** Runs of the engine from an empty store, and the counts kept over its audit log. */
module EngineRuns {
  import opened Records
  import opened Engine
  import opened Counting
  import Text

  /**
   * Every request a run meets, in the order the store mutex admits them.
   * `origin` tells of a name which request drew it and when within the request;
   * such a map exists exactly when no name is ever drawn twice.
   */
  datatype Trace = Trace(at: nat -> Input, origin: string -> (nat, nat))

  /** The system after the first `n` requests. */
  function After(cfg: Config, trace: Trace, n: nat): Sys {
    if n == 0 then Sys(EMPTY_STORE, EMPTY_STORE) else Step(cfg, After(cfg, trace, n - 1), trace.at(n - 1)).sys
  }

  /**
   * The generators hand out plain names and never repeat one. Real names are
   * moreover short; no bound is assumed here, so that a run may be of any
   * length.
   */
  ghost predicate FreshDraws(trace: Trace) {
    forall i: nat, k: nat ::
      Text.Plain(trace.at(i).draw(k)) && trace.origin(trace.at(i).draw(k)) == (i, k)
  }

  /** The name was drawn by one of the first `n` requests. */
  predicate Known(trace: Trace, n: nat, name: string) {
    var (i, k) := trace.origin(name);
    i < n && trace.at(i).draw(k) == name
  }

  /** A name no other request draws, and no other draw of the same request. */
  function Name(i: nat, k: nat): string {
    Text.Dec(i) + ['_'] + Text.Dec(k)
  }

  lemma NameIsPlain(i: nat, k: nat)
    ensures Text.Plain(Name(i, k))
  {
    Text.DecIsPlain(i);
    Text.DecIsPlain(k);
  }

  lemma DecLacksUnderscore(n: nat)
    ensures Text.Lacks(Text.Dec(n), '_')
  {
    forall p | 0 <= p < |Text.Dec(n)| ensures Text.Dec(n)[p] != '_' { assert Text.Dec(n)[p] in Text.Dec(n); }
  }

  lemma NamesDiffer(i: nat, k: nat, j: nat, l: nat)
    requires Name(i, k) == Name(j, l)
    ensures i == j && k == l
  {
    DecLacksUnderscore(k);
    DecLacksUnderscore(l);
    Text.LastPiece(Text.Dec(i), Text.Dec(k), Text.Dec(j), Text.Dec(l), '_');
    Text.DecRoundTrip(i);
    Text.DecRoundTrip(j);
    Text.DecRoundTrip(k);
    Text.DecRoundTrip(l);
  }

  /** The same requests, clock and commits, with names that never repeat. */
  function WithNames(at: nat -> Input): nat -> Input {
    (i: nat) => at(i).(draw := (k: nat) => Name(i, k))
  }

  predicate Drawn(origin: string -> (nat, nat), i: nat, k: nat) {
    origin(Name(i, k)) == (i, k)
  }

  ghost predicate Origin(origin: string -> (nat, nat)) {
    forall i: nat, k: nat :: Drawn(origin, i, k)
  }

  /** A map from each name back to where it was drawn. */
  lemma OriginExists()
    ensures exists origin :: Origin(origin)
  {
    ghost var origin: string -> (nat, nat) := (name: string) =>
      if exists i: nat, k: nat :: Name(i, k) == name then var i: nat, k: nat :| Name(i, k) == name; (i, k) else (0, 0);
    forall i: nat, k: nat ensures Drawn(origin, i, k) {
      var (j, l) := origin(Name(i, k));
      assert Name(j, l) == Name(i, k);
      NamesDiffer(i, k, j, l);
    }
    assert Origin(origin);
  }

  /** Whatever the requests, the clock and the commits, there is a run of them whose names never repeat. */
  lemma FreshRunsExist(at: nat -> Input)
    ensures exists origin :: FreshDraws(Trace(WithNames(at), origin))
  {
    OriginExists();
    var origin :| Origin(origin);
    var trace := Trace(WithNames(at), origin);
    forall i: nat, k: nat ensures Text.Plain(trace.at(i).draw(k)) && trace.origin(trace.at(i).draw(k)) == (i, k) {
      NameIsPlain(i, k);
      assert Drawn(origin, i, k);
    }
    assert FreshDraws(trace);
  }

  /* ---- runs as histories of edits ---- */

  /** A run seen from outside the handlers: the states it passes, and the edit each request saved, if any. */
  datatype History = History(state: nat -> Sys, edit: nat -> Option<Delta>)

  /** Nodes differ only in that the one a heartbeat names, if not revoked, was marked seen. */
  predicate Seen(a: seq<Node>, b: seq<Node>, input: Input) {
    |a| == |b| && forall i :: 0 <= i < |a| ==>
      b[i] == a[i] ||
      (input.request.Heartbeat? && a[i].id == input.request.beat.nodeId && !a[i].revoked &&
       b[i] == a[i].(online := true, lastSeen := input.now))
  }

  /** The nodes agree on everything but their presence: `online` and `last_seen`. */
  predicate SameButPresence(a: seq<Node>, b: seq<Node>) {
    |a| == |b| && forall i :: 0 <= i < |a| ==>
      a[i] == b[i].(online := a[i].online, lastSeen := a[i].lastSeen)
  }

  /**
   * Turn number `n` either saved a legal edit in memory and on disk, or left
   * the disk and all but presence alone: a request that saved nothing, or a
   * restart, after which memory is what was last saved.
   */
  predicate Moves(cfg: Config, trace: Trace, h: History, n: nat) {
    var sys, next := h.state(n), h.state(n + 1);
    match h.edit(n)
    case Some(d) =>
      trace.at(n).commits && Legal(cfg, sys.mem, d, trace.at(n)) &&
      next.mem == Apply(sys.mem, d, trace.at(n)) && next.disk == next.mem
    case None =>
      next.disk == sys.disk && next.mem == sys.mem.(nodes := next.mem.nodes) &&
      (Seen(sys.mem.nodes, next.mem.nodes, trace.at(n)) || next.mem.nodes == sys.disk.nodes)
  }

  ghost predicate Follows(cfg: Config, trace: Trace, h: History) {
    h.state(0) == Sys(EMPTY_STORE, EMPTY_STORE) && forall n: nat :: Moves(cfg, trace, h, n)
  }

  /** The edit the handler saves when the backend commits. */
  function Committed(cfg: Config, sys: Sys, input: Input): Option<Delta> {
    var d := Decide(cfg, sys.mem, input);
    if d.Save? && input.commits then Some(d.delta) else None
  }

  /** The engine's own run. */
  function Run(cfg: Config, trace: Trace): History {
    History((n: nat) => After(cfg, trace, n), (n: nat) => Committed(cfg, After(cfg, trace, n), trace.at(n)))
  }

  lemma StepMoves(cfg: Config, sys: Sys, input: Input)
    ensures var next := Step(cfg, sys, input).sys;
      match Committed(cfg, sys, input)
      case Some(d) =>
        input.commits && Legal(cfg, sys.mem, d, input) && next.mem == Apply(sys.mem, d, input) && next.disk == next.mem
      case None =>
        next.disk == sys.disk && next.mem == sys.mem.(nodes := next.mem.nodes) &&
        Seen(sys.mem.nodes, next.mem.nodes, input)
  {
    DecisionsAreLegal(cfg, sys.mem, input);
  }

  lemma RunAt(cfg: Config, trace: Trace, n: nat)
    ensures Run(cfg, trace).state(n) == After(cfg, trace, n)
    ensures Run(cfg, trace).edit(n) == Committed(cfg, After(cfg, trace, n), trace.at(n))
  {
  }

  lemma AfterNext(cfg: Config, trace: Trace, n: nat)
    ensures After(cfg, trace, n + 1) == Step(cfg, After(cfg, trace, n), trace.at(n)).sys
  {
  }

  lemma TurnMoves(cfg: Config, trace: Trace, h: History, n: nat, sys: Sys)
    requires h.state(n) == sys && h.state(n + 1) == Step(cfg, sys, trace.at(n)).sys
    requires h.edit(n) == Committed(cfg, sys, trace.at(n))
    ensures Moves(cfg, trace, h, n)
  {
    StepMoves(cfg, sys, trace.at(n));
  }

  /** Every run of the engine is a history of legal edits, so what holds of all such histories holds of it. */
  lemma RunFollows(cfg: Config, trace: Trace)
    ensures Follows(cfg, trace, Run(cfg, trace))
  {
    var h := Run(cfg, trace);
    forall n: nat ensures Moves(cfg, trace, h, n) {
      RunAt(cfg, trace, n);
      RunAt(cfg, trace, n + 1);
      AfterNext(cfg, trace, n);
      TurnMoves(cfg, trace, h, n, After(cfg, trace, n));
    }
    RunAt(cfg, trace, 0);
  }

  /* ---- counts over the audit log ---- */

  function Is(e: Event): Activity -> bool {
    (a: Activity) => a.event == e
  }

  function About(e: Event, id: string): Activity -> bool {
    (a: Activity) => a.event == e && a.taskId == Some(id)
  }

  function CountOf(log: seq<Activity>, e: Event): nat {
    Count(log, Is(e))
  }

  function Tally(log: seq<Activity>, e: Event, id: string): nat {
    Count(log, About(e, id))
  }

  /** How often the log records that the task came to an end. */
  function Closings(log: seq<Activity>, id: string): nat {
    Tally(log, TaskCompleted, id) + Tally(log, TaskCancelled, id) + Tally(log, TaskCancelledByRevoke, id)
  }

  /** Counts in a log of at most three records. */
  lemma CountShort(log: seq<Activity>, p: Activity -> bool)
    requires |log| <= 3
    ensures Count(log, p) ==
            (if |log| > 0 && p(log[0]) then 1 else 0) +
            (if |log| > 1 && p(log[1]) then 1 else 0) +
            (if |log| > 2 && p(log[2]) then 1 else 0)
  {
    assert |log| > 0 ==> Count(log, p) == Count(log[..|log| - 1], p) + if p(log[|log| - 1]) then 1 else 0;
    if |log| > 1 {
      assert log[..|log| - 1][..|log| - 2] == log[..|log| - 2];
      if |log| > 2 {
        assert log[..1][..0] == [];
      }
    }
  }

  /** Cancellation records tell only of tasks cancelled by the revocation, once each. */
  lemma {:induction false} CancelRecordsShape(
    tasks: seq<Task>, nodeId: string, actor: string, input: Input, n: nat)
    requires n <= |tasks|
    ensures forall a <- CancelRecords(tasks, nodeId, actor, input, n) ::
      a.event == TaskCancelledByRevoke && a.nodeId == Some(nodeId) && a.actor == Some(actor) &&
      a.timestamp == input.now && a.prevHash == "" && a.hash == "" && a.taskId.Some? &&
      (exists i: nat :: i < n && a.taskId.value == tasks[i].id) &&
      (exists k: nat :: a.id == input.draw(k))
  {
    if n > 0 { CancelRecordsShape(tasks, nodeId, actor, input, n - 1); }
  }

  lemma {:induction false} CancelRecordsTally(
    tasks: seq<Task>, nodeId: string, actor: string, input: Input, n: nat, k: nat)
    requires n <= |tasks| && k < |tasks|
    requires forall i, j :: 0 <= i < j < |tasks| ==> tasks[i].id != tasks[j].id
    ensures Tally(CancelRecords(tasks, nodeId, actor, input, n), TaskCancelledByRevoke, tasks[k].id) ==
            if k < n && CancelledWith(tasks[k], nodeId) then 1 else 0
  {
    if n > 0 {
      CancelRecordsTally(tasks, nodeId, actor, input, n - 1, k);
      var before := CancelRecords(tasks, nodeId, actor, input, n - 1);
      if CancelledWith(tasks[n - 1], nodeId) {
        CountOne(before,
          Stamp(input, FIRST_SPARE_DRAW + n - 1, TaskCancelledByRevoke, Some(nodeId), Some(tasks[n - 1].id), actor),
          About(TaskCancelledByRevoke, tasks[k].id));
      }
    }
  }

  /** The edit appends a record of this event; an edit never appends two, except when it revokes a node. */
  predicate Announces(d: Delta, e: Event) {
    match d
    case Enroll(_, g) => e == if g.None? then NodeCreated else GrantRedeemed
    case Retire(_, _) => e == NodeRevoked
    case Rekey(_, _, _) => e == CredentialRotated
    case Pledge(_, _) => e == GrantCreated
    case Withdraw(_, _) => e == GrantRevoked
    case Authorize(_, _) => e == ApprovalCreated
    case Submit(_, a) => e == TaskAccepted || e == PolicyAllowed || (a.Some? && e == ApprovalConsumed)
    case Cancel(_, _) => e == TaskCancelled
    case Beat(_, _) => e == NodeHeartbeat
    case Dispatch(_) => e == TaskDispatched
    case Complete(_, _) => e == TaskCompleted
  }

  lemma RetireCount(s: Store, d: Delta, input: Input, e: Event)
    requires d.Retire? && Fits(s, d) && e != TaskCancelledByRevoke
    ensures CountOf(NewRecords(s, d, input), e) == if Announces(d, e) then 1 else 0
  {
    var id := s.nodes[d.nodeAt].id;
    var cancels := CancelRecords(s.tasks, id, d.actor, input, |s.tasks|);
    var head := [Stamp(input, 1, NodeRevoked, Some(id), None, d.actor)];
    CancelRecordsShape(s.tasks, id, d.actor, input, |s.tasks|);
    CountNone(cancels, Is(e));
    CountShort(head, Is(e));
    CountConcat(head, cancels, Is(e));
  }

  lemma SubmitCount(s: Store, d: Delta, input: Input, e: Event)
    requires d.Submit? && Fits(s, d)
    ensures CountOf(NewRecords(s, d, input), e) == if Announces(d, e) then 1 else 0
  {
    CountShort(NewRecords(s, d, input), Is(e));
  }

  /** How the edit changes the number of records of one event. */
  lemma CountOfApplied(s: Store, d: Delta, input: Input, e: Event)
    requires Fits(s, d) && e != TaskCancelledByRevoke
    ensures CountOf(Apply(s, d, input).audit, e) == CountOf(s.audit, e) + if Announces(d, e) then 1 else 0
  {
    var added := NewRecords(s, d, input);
    CountConcat(s.audit, added, Is(e));
    if d.Retire? {
      RetireCount(s, d, input, e);
    } else if d.Submit? {
      SubmitCount(s, d, input, e);
    } else {
      CountShort(added, Is(e));
    }
  }
}
