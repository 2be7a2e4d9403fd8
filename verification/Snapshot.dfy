/** The whole snapshot: five sections of lines, written in one piece and read back line by line. */
module Snapshot {
  import opened Records
  import opened Text
  import opened AuditChain
  import opened SnapshotLines
  import Json

  const MAGIC: string := "NODEWE-SNAPSHOT-V1"

  /** The lines of a snapshot, by section. */
  datatype Sections = Sections(
    nodes: seq<string>,
    tasks: seq<string>,
    grants: seq<string>,
    approvals: seq<string>,
    audit: seq<string>)

  function Map<T, U>(f: T -> U, s: seq<T>): (r: seq<U>)
    ensures |r| == |s| && forall i :: 0 <= i < |s| ==> r[i] == f(s[i])
  {
    seq(|s|, i requires 0 <= i < |s| => f(s[i]))
  }

  /** Each audit record is sealed on its own as it is written; see `AuditChain.SealedRecord`. */
  function Written(link: Link, s: Store): Sections {
    Sections(Map(NodeLine, s.nodes), Map(TaskLine, s.tasks), Map(GrantLine, s.grants), Map(ApprovalLine, s.approvals),
             Map(ActivityLine, Seal(link, s.audit)))
  }

  function Section(header: string, lines: seq<string>): seq<string> {
    [header] + lines
  }

  function Assembled(p: Sections): seq<string> {
    Section("[NODES]", p.nodes) + Section("[TASKS]", p.tasks) + Section("[GRANTS]", p.grants) +
    Section("[APPROVALS]", p.approvals) + Section("[AUDIT]", p.audit)
  }

  /** `snapshot_text`. */
  function Print(link: Link, s: Store): string {
    Unlines([MAGIC] + Assembled(Written(link, s)))
  }

  /* ---- reading ---- */

  /** What each section makes of one line. */
  datatype Reader = Reader(
    node: string -> Option<Node>,
    task: string -> Option<Task>,
    grant: string -> Option<Grant>,
    approval: string -> Option<Approval>,
    activity: string -> Option<Activity>)

  function LineReader(now: nat): Reader {
    Reader((line: string) => ParseNode(line, now), ParseTask, ParseGrant, ParseApproval, ParseActivity)
  }

  /** What data lines are under a header. */
  datatype Part = NodesPart | TasksPart | GrantsPart | ApprovalsPart | AuditPart | NoPart

  function PartOf(header: string): Part {
    if header == "[NODES]" then NodesPart
    else if header == "[TASKS]" then TasksPart
    else if header == "[GRANTS]" then GrantsPart
    else if header == "[APPROVALS]" then ApprovalsPart
    else if header == "[AUDIT]" then AuditPart
    else NoPart
  }

  datatype Loading = Loading(part: Part, store: Store)

  predicate IsHeader(line: string) {
    line != "" && line[0] == '[' && line[|line| - 1] == ']'
  }

  function Push<T>(s: seq<T>, item: Option<T>): seq<T> {
    if item.Some? then s + [item.value] else s
  }

  /** One turn of the loop of `parse_snapshot`. */
  function Take(r: Reader, at: Loading, line: string): Loading {
    var s := at.store;
    if IsHeader(line) then at.(part := PartOf(line))
    else
      match at.part
      case NodesPart => at.(store := s.(nodes := Push(s.nodes, r.node(line))))
      case TasksPart => at.(store := s.(tasks := Push(s.tasks, r.task(line))))
      case GrantsPart => at.(store := s.(grants := Push(s.grants, r.grant(line))))
      case ApprovalsPart => at.(store := s.(approvals := Push(s.approvals, r.approval(line))))
      case AuditPart => at.(store := s.(audit := Push(s.audit, r.activity(line))))
      case NoPart => at
  }

  function Turn(r: Reader): (Loading, string) -> Loading {
    (at: Loading, line: string) => Take(r, at, line)
  }

  /** The state after every item has had its turn. */
  function Folded<S, T>(step: (S, T) -> S, at: S, items: seq<T>): S {
    if items == [] then at else step(Folded(step, at, items[..|items| - 1]), items[|items| - 1])
  }

  predicate Begins(contents: string) {
    MAGIC + "\n" <= contents
  }

  /** What `parse_snapshot` returns. */
  function Parse(link: Link, r: Reader, contents: string): Option<Store> {
    if !Begins(contents) then None
    else
      var loaded := Folded(Turn(r), Loading(NoPart, EMPTY_STORE), Lines(contents)[1..]);
      if ChainValid(link, loaded.store.audit) then Some(loaded.store) else None
  }

  /** `parse_snapshot`: one pass over the lines, then the chain check. */
  method ParseSnapshot(link: Link, r: Reader, contents: string) returns (store: Option<Store>)
    ensures store == Parse(link, r, contents)
    ensures store.Some? ==> Intact(link, store.value.audit) && "NODEWE-SNAPSHOT-V1\n" <= contents
  {
    if !Begins(contents) { return None; }
    var lines, at, i := Lines(contents)[1..], Loading(NoPart, EMPTY_STORE), 0;
    while i < |lines|
      invariant i <= |lines| && at == Folded(Turn(r), Loading(NoPart, EMPTY_STORE), lines[..i])
    {
      at := Take(r, at, lines[i]);
      assert lines[..i + 1][..i] == lines[..i];
      i := i + 1;
    }
    assert lines[..i] == lines;
    var valid := AuditChainValid(link, at.store.audit);
    if !valid { return None; }
    ValidIsIntact(link, at.store.audit);
    store := Some(at.store);
  }

  /** Every record that carries a hash names the hash before it, in one pass from GENESIS, and carries its own. */
  ghost predicate Intact(link: Link, log: seq<Activity>) {
    forall i :: 0 <= i < |log| && log[i].hash != "" ==>
      log[i].prevHash == Tip(link, log[..i]) && log[i].hash == link(log[i], log[i].prevHash)
  }

  lemma ValidIsIntact(link: Link, log: seq<Activity>)
    ensures ChainValid(link, log) <==> Intact(link, log)
  {
    forall i | 0 <= i < |log|
      ensures log[i] == Sealed(link, log, i) <==>
              log[i].prevHash == Tip(link, log[..i]) && log[i].hash == link(log[i], log[i].prevHash)
    {
      TipStep(link, log, i);
    }
  }

  lemma {:induction false} FoldedConcat<S, T>(step: (S, T) -> S, at: S, a: seq<T>, b: seq<T>)
    ensures Folded(step, at, a + b) == Folded(step, Folded(step, at, a), b)
  {
    if b == [] {
      assert a + b == a;
    } else {
      assert (a + b)[..|a + b| - 1] == a + b[..|b| - 1];
      FoldedConcat(step, at, a, b[..|b| - 1]);
    }
  }

  function Just<T>(o: Option<T>): seq<T> {
    if o.Some? then [o.value] else []
  }

  /** What the lines say that say something, in their order. */
  function Said<T>(read: string -> Option<T>, lines: seq<string>): seq<T> {
    if lines == [] then [] else Said(read, lines[..|lines| - 1]) + Just(read(lines[|lines| - 1]))
  }

  /** The lines are data, and these are the records they say; a line that says none is passed over. */
  ghost predicate Yields<T(!new)>(read: string -> Option<T>, lines: seq<string>, records: seq<T>) {
    Said(read, lines) == records && forall i :: 0 <= i < |lines| ==> !IsHeader(lines[i])
  }

  /** Every line says the record at its place. */
  ghost predicate YieldsEach<T(!new)>(read: string -> Option<T>, lines: seq<string>, records: seq<T>) {
    |lines| == |records| && forall i :: 0 <= i < |lines| ==> !IsHeader(lines[i]) && read(lines[i]) == Some(records[i])
  }

  lemma {:induction false} EachIsSaid<T(!new)>(read: string -> Option<T>, lines: seq<string>, records: seq<T>)
    requires YieldsEach(read, lines, records)
    ensures Yields(read, lines, records)
  {
    if lines != [] {
      var n := |lines| - 1;
      EachIsSaid(read, lines[..n], records[..n]);
      assert records == records[..n] + [records[n]];
    }
  }

  /** How a section's records are added to the store. */
  type Adder<!T> = (Store, seq<T>) -> Store

  function AddNodes(): Adder<Node> { (s: Store, more: seq<Node>) => s.(nodes := s.nodes + more) }

  function AddTasks(): Adder<Task> { (s: Store, more: seq<Task>) => s.(tasks := s.tasks + more) }

  function AddGrants(): Adder<Grant> { (s: Store, more: seq<Grant>) => s.(grants := s.grants + more) }

  function AddApprovals(): Adder<Approval> { (s: Store, more: seq<Approval>) => s.(approvals := s.approvals + more) }

  function AddActivities(): Adder<Activity> { (s: Store, more: seq<Activity>) => s.(audit := s.audit + more) }

  /** Adding records one after another adds them all. */
  ghost predicate Adds<T(!new)>(add: Adder<T>) {
    (forall s: Store :: add(s, []) == s) &&
    forall s: Store, a: seq<T>, b: seq<T> {:trigger add(add(s, a), b)} :: add(add(s, a), b) == add(s, a + b)
  }

  /** The header starts its section, and a turn in it adds what this reader makes of the line. */
  ghost predicate Collects<T(!new)>(
    step: (Loading, string) -> Loading, header: string, part: Part, read: string -> Option<T>, add: Adder<T>) {
    (forall at: Loading :: step(at, header) == Loading(part, at.store)) &&
    forall s: Store, line: string {:trigger step(Loading(part, s), line)} ::
      !IsHeader(line) ==> step(Loading(part, s), line) == Loading(part, add(s, Just(read(line))))
  }

  /** A section whose lines yield records adds exactly those records. */
  lemma {:induction false} TakeSection<T(!new)>(
    step: (Loading, string) -> Loading, header: string, part: Part, read: string -> Option<T>, add: Adder<T>,
    at: Loading, lines: seq<string>, records: seq<T>)
    requires Collects(step, header, part, read, add) && Adds(add) && Yields(read, lines, records)
    ensures Folded(step, at, Section(header, lines)) == Loading(part, add(at.store, records))
  {
    var n, section := |lines|, Section(header, lines);
    if n == 0 {
      assert section[..0] == [] && records == [];
    } else {
      var first := Said(read, lines[..n - 1]);
      TakeSection(step, header, part, read, add, at, lines[..n - 1], first);
      assert section[..n] == Section(header, lines[..n - 1]);
      var before := add(at.store, first);
      assert step(Loading(part, before), lines[n - 1]) == Loading(part, add(before, Just(read(lines[n - 1]))));
    }
  }

  lemma HeadersDiffer()
    ensures "[NODES]" != "[TASKS]" && "[NODES]" != "[GRANTS]" && "[NODES]" != "[APPROVALS]" && "[NODES]" != "[AUDIT]"
    ensures "[TASKS]" != "[GRANTS]" && "[TASKS]" != "[APPROVALS]" && "[TASKS]" != "[AUDIT]"
    ensures "[GRANTS]" != "[APPROVALS]" && "[GRANTS]" != "[AUDIT]" && "[APPROVALS]" != "[AUDIT]"
  {
    assert "[NODES]"[1] != "[TASKS]"[1] && "[NODES]"[1] != "[AUDIT]"[1] && "[TASKS]"[1] != "[AUDIT]"[1];
  }

  /** The line starts this section. */
  predicate Opens(header: string, part: Part) {
    IsHeader(header) && PartOf(header) == part
  }

  lemma HeadersStart()
    ensures Opens("[NODES]", NodesPart) && Opens("[TASKS]", TasksPart) && Opens("[GRANTS]", GrantsPart)
    ensures Opens("[APPROVALS]", ApprovalsPart) && Opens("[AUDIT]", AuditPart)
  {
    HeadersDiffer();
  }

  lemma NodesAreAdded()
    ensures Adds(AddNodes())
  {
    forall s: Store, a: seq<Node>, b: seq<Node> ensures AddNodes()(AddNodes()(s, a), b) == AddNodes()(s, a + b) {
      assert s.nodes + a + b == s.nodes + (a + b);
    }
  }

  lemma NodesAreCollected(r: Reader, header: string)
    requires Opens(header, NodesPart)
    ensures Collects(Turn(r), header, NodesPart, r.node, AddNodes())
  {
  }

  lemma TasksAreAdded()
    ensures Adds(AddTasks())
  {
    forall s: Store, a: seq<Task>, b: seq<Task> ensures AddTasks()(AddTasks()(s, a), b) == AddTasks()(s, a + b) {
      assert s.tasks + a + b == s.tasks + (a + b);
    }
  }

  lemma TasksAreCollected(r: Reader, header: string)
    requires Opens(header, TasksPart)
    ensures Collects(Turn(r), header, TasksPart, r.task, AddTasks())
  {
  }

  lemma GrantsAreAdded()
    ensures Adds(AddGrants())
  {
    forall s: Store, a: seq<Grant>, b: seq<Grant> ensures AddGrants()(AddGrants()(s, a), b) == AddGrants()(s, a + b) {
      assert s.grants + a + b == s.grants + (a + b);
    }
  }

  lemma GrantsAreCollected(r: Reader, header: string)
    requires Opens(header, GrantsPart)
    ensures Collects(Turn(r), header, GrantsPart, r.grant, AddGrants())
  {
  }

  lemma ApprovalsAreAdded()
    ensures Adds(AddApprovals())
  {
    forall s: Store, a: seq<Approval>, b: seq<Approval>
      ensures AddApprovals()(AddApprovals()(s, a), b) == AddApprovals()(s, a + b)
    {
      assert s.approvals + a + b == s.approvals + (a + b);
    }
  }

  lemma ApprovalsAreCollected(r: Reader, header: string)
    requires Opens(header, ApprovalsPart)
    ensures Collects(Turn(r), header, ApprovalsPart, r.approval, AddApprovals())
  {
  }

  lemma RecordsAreAdded()
    ensures Adds(AddActivities())
  {
    forall s: Store, a: seq<Activity>, b: seq<Activity>
      ensures AddActivities()(AddActivities()(s, a), b) == AddActivities()(s, a + b)
    {
      assert s.audit + a + b == s.audit + (a + b);
    }
  }

  lemma RecordsAreCollected(r: Reader, header: string)
    requires Opens(header, AuditPart)
    ensures Collects(Turn(r), header, AuditPart, r.activity, AddActivities())
  {
  }

  /** Every section's lines yield the store's records. */
  ghost predicate AllYield(r: Reader, p: Sections, s: Store) {
    Yields(r.node, p.nodes, s.nodes) && Yields(r.task, p.tasks, s.tasks) && Yields(r.grant, p.grants, s.grants) &&
    Yields(r.approval, p.approvals, s.approvals) && Yields(r.activity, p.audit, s.audit)
  }

  /** Five parts in a row are folded one after another. */
  lemma FoldedFive<S, T>(
    step: (S, T) -> S, at: S, a: seq<T>, b: seq<T>, c: seq<T>, d: seq<T>, e: seq<T>)
    ensures Folded(step, at, a + b + c + d + e)
      == Folded(step, Folded(step, Folded(step, Folded(step, Folded(step, at, a), b), c), d), e)
  {
    FoldedConcat(step, at, a + b + c + d, e);
    FoldedConcat(step, at, a + b + c, d);
    FoldedConcat(step, at, a + b, c);
    FoldedConcat(step, at, a, b);
  }

  /** A loop body that collects all five sections. */
  ghost predicate CollectsAll(step: (Loading, string) -> Loading, r: Reader) {
    Collects(step, "[NODES]", NodesPart, r.node, AddNodes()) &&
    Collects(step, "[TASKS]", TasksPart, r.task, AddTasks()) &&
    Collects(step, "[GRANTS]", GrantsPart, r.grant, AddGrants()) &&
    Collects(step, "[APPROVALS]", ApprovalsPart, r.approval, AddApprovals()) &&
    Collects(step, "[AUDIT]", AuditPart, r.activity, AddActivities())
  }

  /** The empty store with a store's records added, section after section. */
  function Refilled(s: Store): Store {
    AddActivities()(AddApprovals()(AddGrants()(AddTasks()(AddNodes()(EMPTY_STORE, s.nodes), s.tasks), s.grants),
                                   s.approvals), s.audit)
  }

  lemma RefilledIsWhole(s: Store)
    ensures Refilled(s) == s
  {
  }

  lemma CollectedAssembled(step: (Loading, string) -> Loading, r: Reader, p: Sections, s: Store)
    requires CollectsAll(step, r) && AllYield(r, p, s)
    requires Adds(AddNodes()) && Adds(AddTasks()) && Adds(AddGrants()) && Adds(AddApprovals()) && Adds(AddActivities())
    ensures Folded(step, Loading(NoPart, EMPTY_STORE), Assembled(p)) == Loading(AuditPart, Refilled(s))
  {
    var start := Loading(NoPart, EMPTY_STORE);
    FoldedFive(step, start, Section("[NODES]", p.nodes), Section("[TASKS]", p.tasks), Section("[GRANTS]", p.grants),
               Section("[APPROVALS]", p.approvals), Section("[AUDIT]", p.audit));
    TakeSection(step, "[NODES]", NodesPart, r.node, AddNodes(), start, p.nodes, s.nodes);
    var first := Loading(NodesPart, AddNodes()(EMPTY_STORE, s.nodes));
    TakeSection(step, "[TASKS]", TasksPart, r.task, AddTasks(), first, p.tasks, s.tasks);
    var second := Loading(TasksPart, AddTasks()(first.store, s.tasks));
    TakeSection(step, "[GRANTS]", GrantsPart, r.grant, AddGrants(), second, p.grants, s.grants);
    var third := Loading(GrantsPart, AddGrants()(second.store, s.grants));
    TakeSection(step, "[APPROVALS]", ApprovalsPart, r.approval, AddApprovals(), third, p.approvals, s.approvals);
    var fourth := Loading(ApprovalsPart, AddApprovals()(third.store, s.approvals));
    TakeSection(step, "[AUDIT]", AuditPart, r.activity, AddActivities(), fourth, p.audit, s.audit);
  }

  lemma TakeAssembled(r: Reader, p: Sections, s: Store)
    requires AllYield(r, p, s)
    ensures Folded(Turn(r), Loading(NoPart, EMPTY_STORE), Assembled(p)) == Loading(AuditPart, s)
  {
    NodesAreAdded(); TasksAreAdded(); GrantsAreAdded(); ApprovalsAreAdded(); RecordsAreAdded();
    HeadersStart();
    NodesAreCollected(r, "[NODES]");
    TasksAreCollected(r, "[TASKS]");
    GrantsAreCollected(r, "[GRANTS]");
    ApprovalsAreCollected(r, "[APPROVALS]");
    RecordsAreCollected(r, "[AUDIT]");
    CollectedAssembled(Turn(r), r, p, s);
    RefilledIsWhole(s);
  }

  /* ---- the lines a store is written as ---- */

  predicate WholeLine(line: string) {
    Lacks(line, '\n') && Lacks(line, '\r')
  }

  /** A line that is one line, and not a section header. */
  predicate DataLine(line: string) {
    WholeLine(line) && !IsHeader(line)
  }

  lemma ColumnsAreData(fields: seq<string>)
    requires Columns(fields) && fields[|fields| - 1] != ""
    requires var last := fields[|fields| - 1]; last[|last| - 1] != ']'
    ensures DataLine(Join(fields, '\t'))
  {
    JoinLacks(fields, '\t', '\n');
    JoinLacks(fields, '\t', '\r');
    JoinEnds(fields, '\t');
  }

  lemma DecEndsInDigit(n: nat)
    ensures Dec(n) != "" && Dec(n)[|Dec(n)| - 1] != ']'
  {
    assert Dec(n)[|Dec(n)| - 1] in Dec(n);
  }

  lemma NodeLineIsData(n: Node)
    ensures DataLine(NodeLine(n))
  {
    NodeColumnsAreTidy(n);
    DecEndsInDigit(n.lastSeen);
    assert NodeColumns(n)[12] == Dec(n.lastSeen);
    ColumnsAreData(NodeColumns(n));
  }

  lemma TaskLineIsData(t: Task)
    ensures DataLine(TaskLine(t))
  {
    TaskColumnsAreTidy(t);
    DecEndsInDigit(t.outputLimit);
    assert TaskColumns(t)[16] == Dec(t.outputLimit);
    ColumnsAreData(TaskColumns(t));
  }

  lemma GrantLineIsData(g: Grant)
    ensures DataLine(GrantLine(g))
  {
    GrantColumnsAreTidy(g);
    ColumnsAreData(GrantColumns(g));
  }

  lemma ApprovalLineIsData(a: Approval)
    ensures DataLine(ApprovalLine(a))
  {
    ApprovalColumnsAreTidy(a);
    ColumnsAreData(ApprovalColumns(a));
  }

  lemma BracedIsData(text: string)
    requires Tidy(text)
    ensures DataLine("{" + text + "}")
  {
  }

  lemma ActivityLineIsData(a: Activity)
    ensures DataLine(ActivityLine(a))
  {
    Json.MembersAreTidy(ActivityMembers(a));
    BracedIsData(Json.PrintMembers(ActivityMembers(a)));
  }

  /** Every line is data: none is ever taken for a section header. */
  predicate AllData(p: Sections) {
    (forall i :: 0 <= i < |p.nodes| ==> DataLine(p.nodes[i])) &&
    (forall i :: 0 <= i < |p.tasks| ==> DataLine(p.tasks[i])) &&
    (forall i :: 0 <= i < |p.grants| ==> DataLine(p.grants[i])) &&
    (forall i :: 0 <= i < |p.approvals| ==> DataLine(p.approvals[i])) &&
    (forall i :: 0 <= i < |p.audit| ==> DataLine(p.audit[i]))
  }

  lemma WrittenLinesAreData(link: Link, s: Store)
    ensures AllData(Written(link, s))
  {
    var p := Written(link, s);
    forall i | 0 <= i < |p.nodes| ensures DataLine(p.nodes[i]) { NodeLineIsData(s.nodes[i]); }
    forall i | 0 <= i < |p.tasks| ensures DataLine(p.tasks[i]) { TaskLineIsData(s.tasks[i]); }
    forall i | 0 <= i < |p.grants| ensures DataLine(p.grants[i]) { GrantLineIsData(s.grants[i]); }
    forall i | 0 <= i < |p.approvals| ensures DataLine(p.approvals[i]) { ApprovalLineIsData(s.approvals[i]); }
    forall i | 0 <= i < |p.audit| ensures DataLine(p.audit[i]) { ActivityLineIsData(Seal(link, s.audit)[i]); }
  }

  lemma AssembledLacksBreaks(p: Sections)
    requires AllData(p)
    ensures forall i :: 0 <= i < |Assembled(p)| ==> WholeLine(Assembled(p)[i])
  {
  }

  /* ---- the round trip ---- */

  /** Every number fits its machine word, and every event is named by its own constructor. */
  predicate Storable(s: Store) {
    (forall i :: 0 <= i < |s.nodes| ==> s.nodes[i].lastSeen <= U64_MAX) &&
    (forall i :: 0 <= i < |s.tasks| ==> TaskWords(s.tasks[i])) &&
    (forall i :: 0 <= i < |s.grants| ==> s.grants[i].expiresAt <= U64_MAX) &&
    (forall i :: 0 <= i < |s.approvals| ==> s.approvals[i].expiresAt <= U64_MAX) &&
    (forall i :: 0 <= i < |s.audit| ==> s.audit[i].timestamp <= U64_MAX && Named(s.audit[i].event))
  }

  /** What a store is after a restart: some columns blanked, and the audit log sealed. */
  function Reload(link: Link, s: Store): Store {
    Store(Map(ReloadNode, s.nodes), Map(ReloadTask, s.tasks), Seal(link, s.audit), Map(ReloadGrant, s.grants),
          Map(ReloadApproval, s.approvals))
  }

  lemma NodesYield(nodes: seq<Node>, now: nat)
    requires forall i :: 0 <= i < |nodes| ==> nodes[i].lastSeen <= U64_MAX
    ensures YieldsEach(LineReader(now).node, Map(NodeLine, nodes), Map(ReloadNode, nodes))
  {
    forall i | 0 <= i < |nodes|
      ensures !IsHeader(NodeLine(nodes[i])) && LineReader(now).node(NodeLine(nodes[i])) == Some(ReloadNode(nodes[i]))
    {
      NodeLineIsData(nodes[i]);
      NodeRoundTrip(nodes[i], now);
    }
  }

  lemma TasksYield(tasks: seq<Task>)
    requires forall i :: 0 <= i < |tasks| ==> TaskWords(tasks[i])
    ensures YieldsEach(ParseTask, Map(TaskLine, tasks), Map(ReloadTask, tasks))
  {
    forall i | 0 <= i < |tasks|
      ensures !IsHeader(TaskLine(tasks[i])) && ParseTask(TaskLine(tasks[i])) == Some(ReloadTask(tasks[i]))
    {
      TaskLineIsData(tasks[i]);
      TaskRoundTrip(tasks[i]);
    }
  }

  lemma GrantsYield(grants: seq<Grant>)
    requires forall i :: 0 <= i < |grants| ==> grants[i].expiresAt <= U64_MAX
    ensures YieldsEach(ParseGrant, Map(GrantLine, grants), Map(ReloadGrant, grants))
  {
    forall i | 0 <= i < |grants|
      ensures !IsHeader(GrantLine(grants[i])) && ParseGrant(GrantLine(grants[i])) == Some(ReloadGrant(grants[i]))
    {
      GrantLineIsData(grants[i]);
      GrantRoundTrip(grants[i]);
    }
  }

  lemma ApprovalsYield(approvals: seq<Approval>)
    requires forall i :: 0 <= i < |approvals| ==> approvals[i].expiresAt <= U64_MAX
    ensures YieldsEach(ParseApproval, Map(ApprovalLine, approvals), Map(ReloadApproval, approvals))
  {
    forall i | 0 <= i < |approvals|
      ensures !IsHeader(ApprovalLine(approvals[i]))
      ensures ParseApproval(ApprovalLine(approvals[i])) == Some(ReloadApproval(approvals[i]))
    {
      ApprovalLineIsData(approvals[i]);
      ApprovalRoundTrip(approvals[i]);
    }
  }

  lemma AuditYields(log: seq<Activity>)
    requires forall i :: 0 <= i < |log| ==> log[i].timestamp <= U64_MAX && Named(log[i].event)
    ensures YieldsEach(ParseActivity, Map(ActivityLine, log), log)
  {
    forall i | 0 <= i < |log|
      ensures !IsHeader(ActivityLine(log[i])) && ParseActivity(ActivityLine(log[i])) == Some(log[i])
    {
      ActivityLineIsData(log[i]);
      ActivityRoundTrip(log[i]);
    }
  }

  lemma SealKeepsBodies(link: Link, log: seq<Activity>)
    ensures forall i :: 0 <= i < |log| ==>
      Seal(link, log)[i].timestamp == log[i].timestamp && Seal(link, log)[i].event == log[i].event
  {
    forall i | 0 <= i < |log|
      ensures Seal(link, log)[i].timestamp == log[i].timestamp && Seal(link, log)[i].event == log[i].event
    {
      assert Seal(link, log)[i] == Sealed(link, log, i);
    }
  }

  lemma WrittenYields(link: Link, s: Store, now: nat)
    requires Storable(s)
    ensures AllYieldEach(LineReader(now), Written(link, s), Reload(link, s))
  {
    NodesYield(s.nodes, now);
    TasksYield(s.tasks);
    GrantsYield(s.grants);
    ApprovalsYield(s.approvals);
    SealKeepsBodies(link, s.audit);
    AuditYields(Seal(link, s.audit));
  }

  ghost predicate AllYieldEach(r: Reader, p: Sections, s: Store) {
    YieldsEach(r.node, p.nodes, s.nodes) && YieldsEach(r.task, p.tasks, s.tasks) &&
    YieldsEach(r.grant, p.grants, s.grants) && YieldsEach(r.approval, p.approvals, s.approvals) &&
    YieldsEach(r.activity, p.audit, s.audit)
  }

  lemma BeginsExactlyWhen(head: string, rest: string)
    requires Lacks(head, '\n')
    ensures Begins(head + "\n" + rest) <==> head == "NODEWE-SNAPSHOT-V1"
  {
    var text := head + "\n" + rest;
    if Begins(text) {
      assert text[|MAGIC|] == '\n' && text[..|MAGIC|] == MAGIC;
      assert text[|head|] == '\n';
      assert forall i :: 0 <= i < |MAGIC| ==> text[i] == MAGIC[i] != '\n';
      assert |head| == |MAGIC|;
      assert head == text[..|head|];
    }
  }

  /** A first line and more: each of the others has its turn, when the first is the magic. */
  lemma LinesParsed(link: Link, r: Reader, head: string, lines: seq<string>)
    requires WholeLine(head) && forall i :: 0 <= i < |lines| ==> WholeLine(lines[i])
    ensures Parse(link, r, Unlines([head] + lines)) ==
      if head != "NODEWE-SNAPSHOT-V1" then None
      else
        var loaded := Folded(Turn(r), Loading(NoPart, EMPTY_STORE), lines);
        if ChainValid(link, loaded.store.audit) then Some(loaded.store) else None
  {
    var text := [head] + lines;
    LinesUnlines(text);
    assert text[1..] == lines;
    BeginsExactlyWhen(head, Unlines(lines));
  }

  /**
   * What becomes of a text made of a first line and five sections of data
   * lines: when the first line is the magic and every hash in the audit log is
   * right, it is read as the store its lines say, lines that say nothing passed
   * over; otherwise it is refused.
   */
  lemma LoadsExactlyWhenIntact(link: Link, r: Reader, head: string, p: Sections, s: Store)
    requires AllYield(r, p, s) && AllData(p) && WholeLine(head)
    ensures Parse(link, r, Unlines([head] + Assembled(p))) ==
            if head == "NODEWE-SNAPSHOT-V1" && Intact(link, s.audit) then Some(s) else None
  {
    AssembledLacksBreaks(p);
    LinesParsed(link, r, head, Assembled(p));
    TakeAssembled(r, p, s);
    ValidIsIntact(link, s.audit);
  }

  /** Lines under no header say nothing. */
  lemma {:induction false} StrayLinesIgnored(r: Reader, s: Store, lines: seq<string>)
    requires forall i :: 0 <= i < |lines| ==> !IsHeader(lines[i])
    ensures Folded(Turn(r), Loading(NoPart, s), lines) == Loading(NoPart, s)
  {
    if lines != [] { StrayLinesIgnored(r, s, lines[..|lines| - 1]); }
  }

  /** Nor do those under a header that is none of the five. */
  lemma UnknownSectionIgnored(r: Reader, at: Loading, header: string, lines: seq<string>)
    requires IsHeader(header) && header != "[NODES]" && header != "[TASKS]" && header != "[GRANTS]"
    requires header != "[APPROVALS]" && header != "[AUDIT]"
    requires forall i :: 0 <= i < |lines| ==> !IsHeader(lines[i])
    ensures Folded(Turn(r), at, Section(header, lines)) == Loading(NoPart, at.store)
  {
    FoldedConcat(Turn(r), at, [header], lines);
    assert [header][..0] == [];
    StrayLinesIgnored(r, at.store, lines);
  }

  lemma AfterStrayLines(link: Link, r: Reader, head: string, stray: seq<string>, data: seq<string>)
    requires WholeLine(head) && head == "NODEWE-SNAPSHOT-V1"
    requires forall i :: 0 <= i < |stray| ==> DataLine(stray[i])
    requires forall i :: 0 <= i < |data| ==> WholeLine(data[i])
    ensures Parse(link, r, Unlines([head] + (stray + data))) == Parse(link, r, Unlines([head] + data))
  {
    LinesParsed(link, r, head, stray + data);
    LinesParsed(link, r, head, data);
    FoldedConcat(Turn(r), Loading(NoPart, EMPTY_STORE), stray, data);
    StrayLinesIgnored(r, EMPTY_STORE, stray);
  }

  /** Lines between the magic and the first header change nothing. */
  lemma LeadingLinesIgnored(link: Link, r: Reader, head: string, stray: seq<string>, p: Sections, s: Store)
    requires AllYield(r, p, s) && AllData(p) && head == "NODEWE-SNAPSHOT-V1" && WholeLine(head)
    requires forall i :: 0 <= i < |stray| ==> DataLine(stray[i])
    ensures Parse(link, r, Unlines([head] + (stray + Assembled(p)))) ==
            if Intact(link, s.audit) then Some(s) else None
  {
    AssembledLacksBreaks(p);
    AfterStrayLines(link, r, head, stray, Assembled(p));
    LoadsExactlyWhenIntact(link, r, head, p, s);
  }

  lemma EachLoadsExactlyWhenIntact(link: Link, r: Reader, p: Sections, s: Store)
    requires AllYieldEach(r, p, s) && AllData(p)
    ensures Parse(link, r, Unlines([MAGIC] + Assembled(p))) == if Intact(link, s.audit) then Some(s) else None
  {
    EachIsSaid(r.node, p.nodes, s.nodes);
    EachIsSaid(r.task, p.tasks, s.tasks);
    EachIsSaid(r.grant, p.grants, s.grants);
    EachIsSaid(r.approval, p.approvals, s.approvals);
    EachIsSaid(r.activity, p.audit, s.audit);
    assert WholeLine(MAGIC);
    LoadsExactlyWhenIntact(link, r, MAGIC, p, s);
  }

  lemma SealedIsIntact(link: Link, log: seq<Activity>)
    requires ReadsBodyOnly(link)
    ensures Intact(link, Seal(link, log))
  {
    SealedLogIsValid(link, log);
    ValidIsIntact(link, Seal(link, log));
  }

  /**
   * Reading a snapshot back succeeds and returns the store it was written
   * from, with tabs and line breaks of the cleaned columns blanked, a revoked
   * node offline, limits within bounds, and the audit hashes filled in.
   */
  lemma RoundTrip(link: Link, s: Store, now: nat)
    requires ReadsBodyOnly(link) && Storable(s)
    ensures Parse(link, LineReader(now), Print(link, s)) == Some(Reload(link, s))
  {
    WrittenYields(link, s, now);
    WrittenLinesAreData(link, s);
    SealedIsIntact(link, s.audit);
    EachLoadsExactlyWhenIntact(link, LineReader(now), Written(link, s), Reload(link, s));
  }

  /** Every task is within the limits submissions are held to. */
  predicate WithinLimits(s: Store) {
    forall i :: 0 <= i < |s.tasks| ==>
      0 < s.tasks[i].timeoutMs <= MAX_TASK_TIMEOUT_MS && 0 < s.tasks[i].outputLimit <= MAX_TASK_OUTPUT_LIMIT
  }

  lemma StateNameOfName(name: string)
    ensures StateName(StateNamed(name)) == name
  {
  }

  lemma NodeWrittenAgain(n: Node)
    ensures NodeLine(ReloadNode(n)) == NodeLine(n)
  {
    assert NodeColumns(ReloadNode(n)) == NodeColumns(n);
  }

  lemma TaskWrittenAgain(t: Task)
    requires 0 < t.timeoutMs <= MAX_TASK_TIMEOUT_MS && 0 < t.outputLimit <= MAX_TASK_OUTPUT_LIMIT
    ensures TaskLine(ReloadTask(t)) == TaskLine(t)
  {
    StateNameOfName(Clean(StateName(t.state)));
    assert TaskColumns(ReloadTask(t)) == TaskColumns(t);
  }

  lemma GrantWrittenAgain(g: Grant)
    ensures GrantLine(ReloadGrant(g)) == GrantLine(g)
  {
    assert GrantColumns(ReloadGrant(g)) == GrantColumns(g);
  }

  lemma ApprovalWrittenAgain(a: Approval)
    ensures ApprovalLine(ReloadApproval(a)) == ApprovalLine(a)
  {
    assert ApprovalColumns(ReloadApproval(a)) == ApprovalColumns(a);
  }

  /** Saving a reloaded store again writes the same text, byte for byte. */
  lemma SavedAgain(link: Link, s: Store)
    requires ReadsBodyOnly(link) && WithinLimits(s)
    ensures Print(link, Reload(link, s)) == Print(link, s)
  {
    var p, q := Written(link, s), Written(link, Reload(link, s));
    SealedLogIsValid(link, s.audit);
    forall i | 0 <= i < |s.nodes| ensures p.nodes[i] == q.nodes[i] { NodeWrittenAgain(s.nodes[i]); }
    forall i | 0 <= i < |s.tasks| ensures p.tasks[i] == q.tasks[i] { TaskWrittenAgain(s.tasks[i]); }
    forall i | 0 <= i < |s.grants| ensures p.grants[i] == q.grants[i] { GrantWrittenAgain(s.grants[i]); }
    forall i | 0 <= i < |s.approvals| ensures p.approvals[i] == q.approvals[i] { ApprovalWrittenAgain(s.approvals[i]); }
    assert p.nodes == q.nodes && p.tasks == q.tasks && p.grants == q.grants && p.approvals == q.approvals;
  }
}
