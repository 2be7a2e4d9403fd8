/** One record, one line of a snapshot: how each is written, and how it is read back. */
module SnapshotLines {
  import opened Records
  import opened Text
  import opened AuditChain
  import Json
  import Utf8

  /** `clean`: tabs and line breaks become spaces. */
  function Clean(s: string): (r: string)
    ensures |r| == |s| && Tidy(r) && (Tidy(s) ==> r == s)
  {
    seq(|s|, i requires 0 <= i < |s| => if s[i] == '\t' || s[i] == '\n' || s[i] == '\r' then ' ' else s[i])
  }

  function Column(fields: seq<string>, i: nat): Option<string> {
    if i < |fields| then Some(fields[i]) else None
  }

  /** A hex column, or the default when it is missing or malformed. */
  function HexOr(fields: seq<string>, i: nat, default: string): string {
    if i < |fields| then Utf8.HexDecode(fields[i]).GetOr(default) else default
  }

  function NumberAt(fields: seq<string>, i: nat): Option<nat> {
    if i < |fields| then ParseU64(fields[i]) else None
  }

  /** Columns that come back from a tab-separated line. */
  predicate Columns(fields: seq<string>) {
    fields != [] && forall i :: 0 <= i < |fields| ==> Tidy(fields[i])
  }

  lemma ColumnsSplit(fields: seq<string>)
    requires Columns(fields)
    ensures Split(Join(fields, '\t'), '\t') == fields && SplitN(Join(fields, '\t'), '\t', |fields|) == fields
  {
    SplitJoin(fields, '\t');
    SplitNJoin(fields, '\t', |fields|);
  }

  lemma HexIsTidy(s: string)
    ensures Tidy(Utf8.HexEncode(s))
  {
    Utf8.HexIsHex(Utf8.Encode(s));
  }

  /* ---- nodes ---- */

  function NodeStatus(n: Node): string {
    if n.revoked then "revoked" else if n.online then "online" else "offline"
  }

  function FaceColumns(n: Node): seq<string> {
    [Clean(n.id), Clean(n.name), NodeStatus(n), Clean(n.credential), Clean(n.abilities)]
  }

  function MachineColumns(n: Node): seq<string> {
    [Utf8.HexEncode(n.platform), Utf8.HexEncode(n.architecture), Utf8.HexEncode(n.version), Utf8.HexEncode(n.labels),
     Utf8.HexEncode(n.region), Utf8.HexEncode(n.dataClass), Utf8.HexEncode(n.capacity), Dec(n.lastSeen)]
  }

  function NodeColumns(n: Node): (f: seq<string>)
    ensures |f| == 13
  {
    FaceColumns(n) + MachineColumns(n)
  }

  function NodeLine(n: Node): string {
    Join(NodeColumns(n), '\t')
  }

  function NodeOf(f: seq<string>, now: nat): Option<Node> {
    if |f| < 3 then None
    else
      Some(Node(f[0], f[1], f[2] == "online", f[2] == "revoked", Column(f, 3).GetOr(""),
                Column(f, 4).GetOr("file.read,file.write,task.exec,system.inspect"),
                HexOr(f, 5, "unknown"), HexOr(f, 6, "unknown"), HexOr(f, 7, "unknown"), HexOr(f, 8, ""),
                HexOr(f, 9, "unknown"), HexOr(f, 10, "unclassified"), HexOr(f, 11, ""), NumberAt(f, 12).GetOr(now)))
  }

  /** `parse_node_line`; `now` stands in for a missing or malformed time. */
  function ParseNode(line: string, now: nat): Option<Node> {
    NodeOf(SplitN(line, '\t', 13), now)
  }

  /** What a node is after a restart. */
  function ReloadNode(n: Node): Node {
    n.(id := Clean(n.id), name := Clean(n.name), credential := Clean(n.credential), abilities := Clean(n.abilities),
       online := n.online && !n.revoked)
  }

  lemma ColumnsConcat(a: seq<string>, b: seq<string>)
    requires Columns(a) && Columns(b)
    ensures Columns(a + b)
  {
  }

  lemma FaceIsTidy(n: Node)
    ensures Columns(FaceColumns(n))
  {
    assert Tidy("revoked") && Tidy("online") && Tidy("offline");
  }

  lemma MachineIsTidy(n: Node)
    ensures Columns(MachineColumns(n))
  {
    HexIsTidy(n.platform);
    HexIsTidy(n.architecture);
    HexIsTidy(n.version);
    HexIsTidy(n.labels);
    HexIsTidy(n.region);
    HexIsTidy(n.dataClass);
    HexIsTidy(n.capacity);
    DecIsTidy(n.lastSeen);
  }

  lemma NodeColumnsAreTidy(n: Node)
    ensures Columns(NodeColumns(n))
  {
    FaceIsTidy(n);
    MachineIsTidy(n);
    ColumnsConcat(FaceColumns(n), MachineColumns(n));
  }

  lemma HexOrOfHex(fields: seq<string>, i: nat, default: string, text: string)
    requires i < |fields| && fields[i] == Utf8.HexEncode(text)
    ensures HexOr(fields, i, default) == text
  {
    Utf8.HexRoundTrip(text);
  }

  lemma NumberAtOfDec(fields: seq<string>, i: nat, n: nat)
    requires i < |fields| && fields[i] == Dec(n) && n <= U64_MAX
    ensures NumberAt(fields, i) == Some(n)
  {
    ParseU64OfDec(n);
  }

  lemma StatusRead(n: Node)
    ensures NodeStatus(n) == "online" <==> n.online && !n.revoked
    ensures NodeStatus(n) == "revoked" <==> n.revoked
  {
  }

  lemma FaceRead(n: Node, now: nat)
    ensures var r := NodeOf(NodeColumns(n), now); r.Some? && r.value == ReloadNode(n).(
      platform := r.value.platform, architecture := r.value.architecture, version := r.value.version,
      labels := r.value.labels, region := r.value.region, dataClass := r.value.dataClass,
      capacity := r.value.capacity, lastSeen := r.value.lastSeen)
  {
    StatusRead(n);
  }

  lemma MachineRead(n: Node, now: nat)
    requires n.lastSeen <= U64_MAX
    ensures var r := NodeOf(NodeColumns(n), now); r.Some? && n == n.(
      platform := r.value.platform, architecture := r.value.architecture, version := r.value.version,
      labels := r.value.labels, region := r.value.region, dataClass := r.value.dataClass,
      capacity := r.value.capacity, lastSeen := r.value.lastSeen)
  {
    var f := NodeColumns(n);
    HexOrOfHex(f, 5, "unknown", n.platform);
    HexOrOfHex(f, 6, "unknown", n.architecture);
    HexOrOfHex(f, 7, "unknown", n.version);
    HexOrOfHex(f, 8, "", n.labels);
    HexOrOfHex(f, 9, "unknown", n.region);
    HexOrOfHex(f, 10, "unclassified", n.dataClass);
    HexOrOfHex(f, 11, "", n.capacity);
    NumberAtOfDec(f, 12, n.lastSeen);
  }

  lemma NodeRoundTrip(n: Node, now: nat)
    requires n.lastSeen <= U64_MAX
    ensures ParseNode(NodeLine(n), now) == Some(ReloadNode(n))
  {
    assert SplitN(NodeLine(n), '\t', 13) == NodeColumns(n) by {
      NodeColumnsAreTidy(n);
      ColumnsSplit(NodeColumns(n));
    }
    FaceRead(n, now);
    MachineRead(n, now);
  }

  /* ---- tasks ---- */

  function StateName(s: TaskState): string {
    match s
    case Queued => "queued"
    case Dispatched => "dispatched"
    case Succeeded => "succeeded"
    case Failed => "failed"
    case Cancelled => "cancelled"
    case TimedOut => "timed_out"
    case OtherState(name) => name
  }

  function StateNamed(s: string): TaskState {
    if s == "queued" then Queued
    else if s == "dispatched" then Dispatched
    else if s == "succeeded" then Succeeded
    else if s == "failed" then Failed
    else if s == "cancelled" then Cancelled
    else if s == "timed_out" then TimedOut
    else OtherState(s)
  }

  /** What a task is and what it asks for. */
  function IdentityColumns(t: Task): seq<string> {
    [Clean(t.id), Clean(t.nodeId), Clean(t.ability), Clean(StateName(t.state)), Clean(t.idempotencyKey),
     Dec(t.leaseUntil), Utf8.HexEncode(t.program), Utf8.HexEncode(t.argument)]
  }

  /** What came of it. */
  function OutcomeColumns(t: Task): seq<string> {
    [Utf8.HexEncode(t.output), Clean(t.outputSha256), if t.outputTruncated then "truncated" else "complete",
     if t.exitCode.Some? then SignedDec(t.exitCode.value) else ""]
  }

  /** Who asked, under which lease and limits. */
  function OriginColumns(t: Task): seq<string> {
    [Utf8.HexEncode(t.requestId), Utf8.HexEncode(t.leaseToken), Utf8.HexEncode(t.actor), Dec(t.timeoutMs),
     Dec(t.outputLimit)]
  }

  function TaskColumns(t: Task): (f: seq<string>)
    ensures |f| == 17
  {
    IdentityColumns(t) + OutcomeColumns(t) + OriginColumns(t)
  }

  function TaskLine(t: Task): string {
    Join(TaskColumns(t), '\t')
  }

  /** Lines written before outputs carried a digest lack two columns; a marker column tells the layouts apart. */
  predicate HasOutputMetadata(f: seq<string>) {
    |f| >= 16 && (f[10] == "truncated" || f[10] == "complete")
  }

  function Within(n: Option<nat>, max: nat, default: nat): nat {
    if n.Some? && 0 < n.value <= max then n.value else default
  }

  function TaskOf(f: seq<string>): Option<Task> {
    if |f| < 14 then None
    else
      var modern := HasOutputMetadata(f);
      var exit := if modern then 11 else 9;
      Some(Task(f[0], HexOr(f, exit + 1, f[0]), HexOr(f, exit + 3, "admin"), f[1], f[2], StateNamed(f[3]), f[4],
                HexOr(f, 6, "echo"), HexOr(f, 7, ""), HexOr(f, 8, ""), if modern then f[9] else "",
                 modern && f[10] == "truncated",
                 Within(NumberAt(f, exit + 5), MAX_TASK_OUTPUT_LIMIT, MAX_TASK_OUTPUT_LIMIT),
                if f[exit] == "" then None else ParseI32(f[exit]), ParseU64(f[5]).GetOr(0), HexOr(f, exit + 2, ""),
                Within(NumberAt(f, exit + 4), MAX_TASK_TIMEOUT_MS, DEFAULT_TASK_TIMEOUT_MS)))
  }

  /** `parse_task_line`. */
  function ParseTask(line: string): Option<Task> {
    TaskOf(Split(line, '\t'))
  }

  /** What a task is after a restart. */
  function ReloadTask(t: Task): Task {
    t.(id := Clean(t.id), nodeId := Clean(t.nodeId), ability := Clean(t.ability),
       state := StateNamed(Clean(StateName(t.state))), idempotencyKey := Clean(t.idempotencyKey),
       outputSha256 := Clean(t.outputSha256),
       timeoutMs := Within(Some(t.timeoutMs), MAX_TASK_TIMEOUT_MS, DEFAULT_TASK_TIMEOUT_MS),
       outputLimit := Within(Some(t.outputLimit), MAX_TASK_OUTPUT_LIMIT, MAX_TASK_OUTPUT_LIMIT))
  }

  predicate TaskWords(t: Task) {
    t.leaseUntil <= U64_MAX && t.timeoutMs <= U64_MAX && t.outputLimit <= U64_MAX &&
    (t.exitCode.Some? ==> -0x8000_0000 <= t.exitCode.value <= 0x7FFF_FFFF)
  }

  lemma SignedIsTidy(n: int)
    ensures Tidy(SignedDec(n))
  {
    DecIsTidy(if n < 0 then -n else n);
  }

  lemma IdentityIsTidy(t: Task)
    ensures Columns(IdentityColumns(t))
  {
    DecIsTidy(t.leaseUntil);
    HexIsTidy(t.program);
    HexIsTidy(t.argument);
  }

  lemma OutcomeIsTidy(t: Task)
    ensures Columns(OutcomeColumns(t))
  {
    HexIsTidy(t.output);
    if t.exitCode.Some? { SignedIsTidy(t.exitCode.value); }
    assert Tidy("truncated") && Tidy("complete");
  }

  lemma OriginIsTidy(t: Task)
    ensures Columns(OriginColumns(t))
  {
    HexIsTidy(t.requestId);
    HexIsTidy(t.leaseToken);
    HexIsTidy(t.actor);
    DecIsTidy(t.timeoutMs);
    DecIsTidy(t.outputLimit);
  }

  lemma TaskColumnsAreTidy(t: Task)
    ensures Columns(TaskColumns(t))
  {
    IdentityIsTidy(t);
    OutcomeIsTidy(t);
    OriginIsTidy(t);
    ColumnsConcat(IdentityColumns(t), OutcomeColumns(t));
    ColumnsConcat(IdentityColumns(t) + OutcomeColumns(t), OriginColumns(t));
  }

  lemma TaskColumnsAreModern(t: Task)
    ensures HasOutputMetadata(TaskColumns(t))
  {
    assert TaskColumns(t)[10] == if t.outputTruncated then "truncated" else "complete";
  }

  /** A task line of 17 columns is never read in the older layout. */
  lemma TaskLineIsModern(t: Task)
    ensures Split(TaskLine(t), '\t') == TaskColumns(t) && HasOutputMetadata(Split(TaskLine(t), '\t'))
  {
    assert Split(TaskLine(t), '\t') == TaskColumns(t) by {
      TaskColumnsAreTidy(t);
      ColumnsSplit(TaskColumns(t));
    }
    TaskColumnsAreModern(t);
  }

  lemma TaskNumbers(t: Task)
    requires TaskWords(t)
    ensures ParseU64(TaskColumns(t)[5]) == Some(t.leaseUntil)
    ensures NumberAt(TaskColumns(t), 15) == Some(t.timeoutMs) && NumberAt(TaskColumns(t), 16) == Some(t.outputLimit)
    ensures (if TaskColumns(t)[11] == "" then None else ParseI32(TaskColumns(t)[11])) == t.exitCode
  {
    ParseU64OfDec(t.leaseUntil);
    ParseU64OfDec(t.timeoutMs);
    ParseU64OfDec(t.outputLimit);
    if t.exitCode.Some? { ParseI32OfSigned(t.exitCode.value); }
  }

  lemma TaskRoundTrip(t: Task)
    requires TaskWords(t)
    ensures ParseTask(TaskLine(t)) == Some(ReloadTask(t))
  {
    var f := TaskColumns(t);
    TaskLineIsModern(t);
    TaskNumbers(t);
    HexOrOfHex(f, 6, "echo", t.program);
    HexOrOfHex(f, 7, "", t.argument);
    HexOrOfHex(f, 8, "", t.output);
    HexOrOfHex(f, 12, f[0], t.requestId);
    HexOrOfHex(f, 13, "", t.leaseToken);
    HexOrOfHex(f, 14, "admin", t.actor);
  }

  /* ---- lines of older versions ---- */

  /** A task as it was written before outputs carried a digest and a marker; the last column came later still. */
  function OlderTaskColumns(t: Task): (f: seq<string>)
    ensures |f| == 15
  {
    IdentityColumns(t) + [Utf8.HexEncode(t.output), if t.exitCode.Some? then SignedDec(t.exitCode.value) else ""] +
    OriginColumns(t)
  }

  lemma OlderColumnsAreTidy(t: Task)
    ensures Columns(OlderTaskColumns(t)) && Columns(OlderTaskColumns(t)[..14])
  {
    IdentityIsTidy(t);
    OriginIsTidy(t);
    HexIsTidy(t.output);
    if t.exitCode.Some? { SignedIsTidy(t.exitCode.value); }
    var middle := [Utf8.HexEncode(t.output), if t.exitCode.Some? then SignedDec(t.exitCode.value) else ""];
    assert Columns(middle);
    ColumnsConcat(IdentityColumns(t), middle);
    ColumnsConcat(IdentityColumns(t) + middle, OriginColumns(t));
  }

  lemma OlderNumbers(t: Task)
    requires TaskWords(t)
    ensures var f := OlderTaskColumns(t);
      ParseU64(f[5]) == Some(t.leaseUntil) && NumberAt(f, 13) == Some(t.timeoutMs) &&
      NumberAt(f, 14) == Some(t.outputLimit) && (if f[9] == "" then None else ParseI32(f[9])) == t.exitCode
  {
    ParseU64OfDec(t.leaseUntil);
    ParseU64OfDec(t.timeoutMs);
    ParseU64OfDec(t.outputLimit);
    if t.exitCode.Some? { ParseI32OfSigned(t.exitCode.value); }
  }

  /** The columns before the limit, as an older line has them. */
  predicate OlderSays(t: Task, f: seq<string>) {
    14 <= |f| <= 15 && f[0] == Clean(t.id) && f[1] == Clean(t.nodeId) && f[2] == Clean(t.ability) &&
    f[3] == Clean(StateName(t.state)) && f[4] == Clean(t.idempotencyKey) && ParseU64(f[5]) == Some(t.leaseUntil) &&
    HexOr(f, 6, "echo") == t.program && HexOr(f, 7, "") == t.argument && HexOr(f, 8, "") == t.output &&
    (if f[9] == "" then None else ParseI32(f[9])) == t.exitCode && HexOr(f, 10, f[0]) == t.requestId &&
    HexOr(f, 11, "") == t.leaseToken && HexOr(f, 12, "admin") == t.actor && NumberAt(f, 13) == Some(t.timeoutMs)
  }

  lemma OlderColumnsSay(t: Task, f: seq<string>)
    requires TaskWords(t) && (f == OlderTaskColumns(t) || f == OlderTaskColumns(t)[..14])
    ensures OlderSays(t, f)
  {
    OlderNumbers(t);
    HexOrOfHex(f, 6, "echo", t.program);
    HexOrOfHex(f, 7, "", t.argument);
    HexOrOfHex(f, 8, "", t.output);
    HexOrOfHex(f, 10, f[0], t.requestId);
    HexOrOfHex(f, 11, "", t.leaseToken);
    HexOrOfHex(f, 12, "admin", t.actor);
  }

  /** What an older line says of a task; with 14 columns, nothing of its output limit. */
  lemma OlderFieldsRead(t: Task, f: seq<string>)
    requires OlderSays(t, f) && (|f| == 15 ==> NumberAt(f, 14) == Some(t.outputLimit))
    ensures TaskOf(f) == Some(ReloadTask(t).(
      outputSha256 := "", outputTruncated := false,
      outputLimit := if |f| == 15 then ReloadTask(t).outputLimit else 1_048_576))
  {
    assert !HasOutputMetadata(f);
  }

  lemma OlderLineRead(t: Task, f: seq<string>)
    requires TaskWords(t) && Columns(f) && (f == OlderTaskColumns(t) || f == OlderTaskColumns(t)[..14])
    ensures ParseTask(Join(f, '\t')) == Some(ReloadTask(t).(
      outputSha256 := "", outputTruncated := false,
      outputLimit := if |f| == 15 then ReloadTask(t).outputLimit else 1_048_576))
  {
    ColumnsSplit(f);
    OlderColumnsSay(t, f);
    OlderNumbers(t);
    OlderFieldsRead(t, f);
  }

  /** Task lines of both older layouts are read as what they say, without digest and marker. */
  lemma OlderTaskRoundTrip(t: Task)
    requires TaskWords(t)
    ensures ParseTask(Join(OlderTaskColumns(t), '\t')) ==
            Some(ReloadTask(t).(outputSha256 := "", outputTruncated := false))
    ensures ParseTask(Join(OlderTaskColumns(t)[..14], '\t')) ==
            Some(ReloadTask(t).(outputSha256 := "", outputTruncated := false, outputLimit := 1_048_576))
  {
    OlderColumnsAreTidy(t);
    OlderLineRead(t, OlderTaskColumns(t));
    OlderLineRead(t, OlderTaskColumns(t)[..14]);
  }

  /** Whatever a task line says of its limits, they are read within those of a submission, and kept when they are. */
  lemma LimitsAreRestored(t: Task, line: string)
    ensures ParseTask(line).Some? ==>
      0 < ParseTask(line).value.timeoutMs <= 300_000 && 0 < ParseTask(line).value.outputLimit <= 1_048_576
    ensures ReloadTask(t).timeoutMs == if 0 < t.timeoutMs <= 300_000 then t.timeoutMs else 30_000
    ensures ReloadTask(t).outputLimit == if 0 < t.outputLimit <= 1_048_576 then t.outputLimit else 1_048_576
  {
  }

  /** A node line that breaks off after its status leaves the rest to the defaults. */
  lemma ShortNodeLineRead(id: string, name: string, status: string, now: nat)
    requires Tidy(id) && Tidy(name) && Tidy(status)
    ensures ParseNode(Join([id, name, status], '\t'), now) ==
      Some(Node(id, name, status == "online", status == "revoked", "",
                "file.read,file.write,task.exec,system.inspect", "unknown", "unknown", "unknown", "", "unknown",
                "unclassified", "", now))
  {
    SplitNJoin([id, name, status], '\t', 13);
  }

  /** The column is no hex text. */
  predicate NoHex(f: seq<string>, i: nat) {
    i < |f| && Utf8.HexDecode(f[i]) == None
  }

  /** A node line whose hex and time columns make no sense is read with the same defaults. */
  lemma MalformedNodeRead(f: seq<string>, now: nat)
    requires Columns(f) && |f| == 13 && (forall i :: 5 <= i < 12 ==> NoHex(f, i)) && ParseU64(f[12]) == None
    ensures ParseNode(Join(f, '\t'), now) ==
      Some(Node(f[0], f[1], f[2] == "online", f[2] == "revoked", f[3], f[4], "unknown", "unknown", "unknown", "",
                "unknown", "unclassified", "", now))
  {
    SplitNJoin(f, '\t', 13);
    assert NoHex(f, 5) && NoHex(f, 6) && NoHex(f, 7) && NoHex(f, 8) && NoHex(f, 9) && NoHex(f, 10) && NoHex(f, 11);
  }

  /** Likewise a task line: it runs `echo`, belongs to `admin`, holds no lease or token, and has the usual limits. */
  lemma MalformedTaskRead(f: seq<string>)
    requires Columns(f) && |f| == 17 && (f[10] == "truncated" || f[10] == "complete")
    requires NoHex(f, 6) && NoHex(f, 7) && NoHex(f, 8) && NoHex(f, 12) && NoHex(f, 13) && NoHex(f, 14)
    requires ParseU64(f[5]) == None && ParseU64(f[15]) == None && ParseU64(f[16]) == None && ParseI32(f[11]) == None
    ensures ParseTask(Join(f, '\t')) ==
      Some(Task(f[0], f[0], "admin", f[1], f[2], StateNamed(f[3]), f[4], "echo", "", "", f[9], f[10] == "truncated",
                1_048_576, None, 0, "", 30_000))
  {
    SplitJoin(f, '\t');
  }

  /** But an approval line, or a grant's time, that makes no sense is dropped. */
  lemma MalformedIsDropped(f: seq<string>)
    requires Columns(f)
    ensures |f| == 8 && (NoHex(f, 3) || NoHex(f, 4) || ParseU64(f[6]) == None) ==> ParseApproval(Join(f, '\t')) == None
    ensures 4 <= |f| <= 5 && ParseU64(f[2]) == None ==> ParseGrant(Join(f, '\t')) == None
  {
    if |f| == 8 { SplitNJoin(f, '\t', 8); }
    if |f| <= 5 { SplitNJoin(f, '\t', 5); }
  }

  /** A grant line from before grants could be revoked says one that is not. */
  lemma OlderGrantRead(g: Grant)
    requires g.expiresAt <= U64_MAX
    ensures ParseGrant(Join(GrantColumns(g)[..4], '\t')) == Some(ReloadGrant(g).(revoked := false))
  {
    GrantColumnsAreTidy(g);
    SplitNJoin(GrantColumns(g)[..4], '\t', 5);
    ParseU64OfDec(g.expiresAt);
  }

  /** A line with too few columns says nothing. */
  lemma TooFewColumns(f: seq<string>, now: nat)
    requires Columns(f)
    ensures |f| < 3 ==> ParseNode(Join(f, '\t'), now) == None
    ensures |f| < 14 ==> ParseTask(Join(f, '\t')) == None
    ensures |f| < 4 ==> ParseGrant(Join(f, '\t')) == None
    ensures |f| < 8 ==> ParseApproval(Join(f, '\t')) == None
  {
    SplitJoin(f, '\t');
    if |f| <= 13 { SplitNJoin(f, '\t', 13); }
    if |f| <= 5 { SplitNJoin(f, '\t', 5); }
    if |f| <= 8 { SplitNJoin(f, '\t', 8); }
  }

  /* ---- grants ---- */

  function GrantColumns(g: Grant): seq<string> {
    [Clean(g.code), Clean(g.signature), Dec(g.expiresAt), if g.used then "used" else "unused",
     if g.revoked then "revoked" else "active"]
  }

  function GrantLine(g: Grant): string {
    Join(GrantColumns(g), '\t')
  }

  function GrantOf(f: seq<string>): Option<Grant> {
    if |f| < 4 then None
    else
      match ParseU64(f[2])
      case None => None
      case Some(expires) => Some(Grant(f[0], f[1], expires, f[3] == "used", Column(f, 4) == Some("revoked")))
  }

  /** `parse_grant_line`. */
  function ParseGrant(line: string): Option<Grant> {
    GrantOf(SplitN(line, '\t', 5))
  }

  function ReloadGrant(g: Grant): Grant {
    g.(code := Clean(g.code), signature := Clean(g.signature))
  }

  lemma GrantColumnsAreTidy(g: Grant)
    ensures Columns(GrantColumns(g))
  {
    DecIsTidy(g.expiresAt);
  }

  lemma GrantRead(g: Grant)
    requires g.expiresAt <= U64_MAX
    ensures GrantOf(GrantColumns(g)) == Some(ReloadGrant(g))
  {
    ParseU64OfDec(g.expiresAt);
  }

  lemma GrantRoundTrip(g: Grant)
    requires g.expiresAt <= U64_MAX
    ensures ParseGrant(GrantLine(g)) == Some(ReloadGrant(g))
  {
    assert SplitN(GrantLine(g), '\t', 5) == GrantColumns(g) by {
      GrantColumnsAreTidy(g);
      ColumnsSplit(GrantColumns(g));
    }
    GrantRead(g);
  }

  /* ---- approvals ---- */

  function ApprovalColumns(a: Approval): seq<string> {
    [Clean(a.id), Clean(a.nodeId), Clean(a.ability), Utf8.HexEncode(a.program), Utf8.HexEncode(a.argument),
     Clean(a.actor), Dec(a.expiresAt), if a.used then "used" else "unused"]
  }

  function ApprovalLine(a: Approval): string {
    Join(ApprovalColumns(a), '\t')
  }

  function ApprovalOf(f: seq<string>): Option<Approval> {
    if |f| < 8 then None
    else
      match (Utf8.HexDecode(f[3]), Utf8.HexDecode(f[4]), ParseU64(f[6]))
      case (Some(program), Some(argument), Some(expires)) =>
        Some(Approval(f[0], f[1], f[2], program, argument, f[5], expires, f[7] == "used"))
      case _ => None
  }

  /** `parse_approval_line`: unlike the others, it drops the record when a hex column is malformed. */
  function ParseApproval(line: string): Option<Approval> {
    ApprovalOf(SplitN(line, '\t', 8))
  }

  function ReloadApproval(a: Approval): Approval {
    a.(id := Clean(a.id), nodeId := Clean(a.nodeId), ability := Clean(a.ability), actor := Clean(a.actor))
  }

  lemma ApprovalColumnsAreTidy(a: Approval)
    ensures Columns(ApprovalColumns(a))
  {
    HexIsTidy(a.program);
    HexIsTidy(a.argument);
    DecIsTidy(a.expiresAt);
  }

  lemma ApprovalRead(a: Approval)
    requires a.expiresAt <= U64_MAX
    ensures ApprovalOf(ApprovalColumns(a)) == Some(ReloadApproval(a))
  {
    Utf8.HexRoundTrip(a.program);
    Utf8.HexRoundTrip(a.argument);
    ParseU64OfDec(a.expiresAt);
  }

  lemma ApprovalRoundTrip(a: Approval)
    requires a.expiresAt <= U64_MAX
    ensures ParseApproval(ApprovalLine(a)) == Some(ReloadApproval(a))
  {
    assert SplitN(ApprovalLine(a), '\t', 8) == ApprovalColumns(a) by {
      ApprovalColumnsAreTidy(a);
      ColumnsSplit(ApprovalColumns(a));
    }
    ApprovalRead(a);
  }

  /* ---- audit records ---- */

  function EventNamed(s: string): Event {
    if s == "node.created" then NodeCreated
    else if s == "node.revoked" then NodeRevoked
    else if s == "node.heartbeat" then NodeHeartbeat
    else if s == "node.credential_rotated" then CredentialRotated
    else if s == "grant.created" then GrantCreated
    else if s == "grant.revoked" then GrantRevoked
    else if s == "grant.redeemed" then GrantRedeemed
    else if s == "approval.created" then ApprovalCreated
    else if s == "approval.consumed" then ApprovalConsumed
    else if s == "task.accepted" then TaskAccepted
    else if s == "policy.allowed" then PolicyAllowed
    else if s == "task.dispatched" then TaskDispatched
    else if s == "task.completed" then TaskCompleted
    else if s == "task.cancelled" then TaskCancelled
    else if s == "task.cancelled_by_node_revoke" then TaskCancelledByRevoke
    else OtherEvent(s)
  }

  function Nullable(o: Option<string>): Json.Value {
    if o.Some? then Json.Str(o.value) else Json.Null
  }

  function ActivityMembers(a: Activity): Json.Members {
    [("activity_id", Json.Str(a.id)), ("event", Json.Str(EventName(a.event))), ("node_id", Nullable(a.nodeId)),
     ("task_id", Nullable(a.taskId)), ("actor", Nullable(a.actor)), ("timestamp", Json.Num(a.timestamp)),
     ("prev_hash", Json.Str(a.prevHash)), ("hash", Json.Str(a.hash))]
  }

  /** `activity_json_with_chain`, of a record whose links are filled in. */
  function ActivityLine(a: Activity): string {
    Json.PrintObject(ActivityMembers(a))
  }

  function FieldOf(members: Json.Members, key: string): Option<string> {
    match Json.Get(members, key)
    case Some(Str(text)) => Some(text)
    case _ => None
  }

  function NumberOf(members: Json.Members, key: string): Option<nat> {
    match Json.Get(members, key)
    case Some(Num(n)) => if n <= U64_MAX then Some(n) else None
    case _ => None
  }

  function ActivityOf(m: Json.Members): Option<Activity> {
    match (FieldOf(m, "activity_id"), FieldOf(m, "event"), NumberOf(m, "timestamp"))
    case (Some(id), Some(event), Some(timestamp)) =>
      Some(Activity(id, EventNamed(event), FieldOf(m, "node_id"), FieldOf(m, "task_id"), FieldOf(m, "actor"),
                    timestamp, FieldOf(m, "prev_hash").GetOr(""), FieldOf(m, "hash").GetOr("")))
    case _ => None
  }

  /** `parse_activity_line`. */
  function ParseActivity(line: string): Option<Activity> {
    match Json.ReadObject(line)
    case None => None
    case Some(members) => ActivityOf(members)
  }

  /** The event is named by its own constructor, so that its text determines it. */
  predicate Named(e: Event) {
    EventNamed(EventName(e)) == e
  }

  lemma NodeEventsAreNamed(e: Event)
    requires e.NodeCreated? || e.NodeRevoked? || e.NodeHeartbeat? || e.CredentialRotated?
    ensures Named(e)
  {
  }

  lemma GrantEventsAreNamed(e: Event)
    requires e.GrantCreated? || e.GrantRevoked? || e.GrantRedeemed? || e.ApprovalCreated? || e.ApprovalConsumed?
    ensures Named(e)
  {
  }

  lemma TaskEventsAreNamed(e: Event)
    requires e.TaskAccepted? || e.PolicyAllowed? || e.TaskDispatched? || e.TaskCompleted? || e.TaskCancelled? ||
             e.TaskCancelledByRevoke?
    ensures Named(e)
  {
  }

  /** The name of an event a handler writes determines it. */
  lemma KnownEventsAreNamed(e: Event)
    requires !e.OtherEvent?
    ensures Named(e)
  {
    match e
    case NodeCreated | NodeRevoked | NodeHeartbeat | CredentialRotated => NodeEventsAreNamed(e);
    case GrantCreated | GrantRevoked | GrantRedeemed | ApprovalCreated | ApprovalConsumed => GrantEventsAreNamed(e);
    case _ => TaskEventsAreNamed(e);
  }

  lemma GetMember(members: Json.Members, k: nat)
    requires k < |members| && forall i :: k < i < |members| ==> members[i].0 != members[k].0
    ensures Json.Get(members, members[k].0) == Some(members[k].1)
  {
    if k < |members| - 1 { GetMember(members[..|members| - 1], k); }
  }

  /** No two members of a record have one name. */
  lemma NamesDiffer(a: Activity, i: nat, j: nat)
    requires i < j < 8
    ensures ActivityMembers(a)[i].0 != ActivityMembers(a)[j].0
  {
    var m := ActivityMembers(a);
    assert |m[0].0| == 11 && |m[1].0| == |m[4].0| == 5 && |m[2].0| == |m[3].0| == 7 && |m[5].0| == |m[6].0| == 9;
    assert m[1].0[0] == 'e' && m[4].0[0] == 'a' && m[2].0[0] == 'n' && m[3].0[0] == 't' && m[5].0[0] == 't';
    assert m[6].0[0] == 'p' && |m[7].0| == 4;
  }

  lemma MemberGot(a: Activity, k: nat)
    requires k < 8
    ensures var m := ActivityMembers(a); Json.Get(m, m[k].0) == Some(m[k].1)
  {
    var m := ActivityMembers(a);
    forall i | k < i < |m| ensures m[i].0 != m[k].0 { NamesDiffer(a, k, i); }
    GetMember(m, k);
  }

  lemma FieldsSay(m: Json.Members, a: Activity)
    requires FieldOf(m, "activity_id") == Some(a.id) && FieldOf(m, "event") == Some(EventName(a.event))
    requires FieldOf(m, "node_id") == a.nodeId && FieldOf(m, "task_id") == a.taskId && FieldOf(m, "actor") == a.actor
    requires NumberOf(m, "timestamp") == Some(a.timestamp)
    requires FieldOf(m, "prev_hash") == Some(a.prevHash) && FieldOf(m, "hash") == Some(a.hash) && Named(a.event)
    ensures ActivityOf(m) == Some(a)
  {
  }

  lemma ActivityFields(a: Activity)
    requires a.timestamp <= U64_MAX && Named(a.event)
    ensures ActivityOf(ActivityMembers(a)) == Some(a)
  {
    var m := ActivityMembers(a);
    assert FieldOf(m, "activity_id") == Some(a.id) by { MemberGot(a, 0); }
    assert FieldOf(m, "event") == Some(EventName(a.event)) by { MemberGot(a, 1); }
    assert FieldOf(m, "node_id") == a.nodeId by { MemberGot(a, 2); }
    assert FieldOf(m, "task_id") == a.taskId by { MemberGot(a, 3); }
    assert FieldOf(m, "actor") == a.actor by { MemberGot(a, 4); }
    assert NumberOf(m, "timestamp") == Some(a.timestamp) by { MemberGot(a, 5); }
    assert FieldOf(m, "prev_hash") == Some(a.prevHash) by { MemberGot(a, 6); }
    assert FieldOf(m, "hash") == Some(a.hash) by { MemberGot(a, 7); }
    FieldsSay(m, a);
  }

  lemma ActivityRoundTrip(a: Activity)
    requires a.timestamp <= U64_MAX && Named(a.event)
    ensures ParseActivity(ActivityLine(a)) == Some(a)
  {
    Json.ObjectRoundTrip(ActivityMembers(a));
    ActivityFields(a);
  }
}
