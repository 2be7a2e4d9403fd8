/**
 * The paged audit export: the server's page endpoint, and the shell exporter
 * that walks it while the log may be growing, reads each record back through
 * tab-separated columns and checks every link again.
 */
module AuditExport {
  import opened Records
  import opened AuditChain
  import opened Text
  import Utf8

  const MAX_PAGE: nat := 10_000
  const NULL_MARK: string := "__NODEWE_NULL__"

  /** A page of sealed records. */
  datatype Page = Page(from: nat, next: Option<nat>, records: seq<Activity>)

  datatype PageReply = Served(page: Page) | Rejected(status: nat, code: string)

  /** `export_audit`: each record of the page is sealed separately, from GENESIS. */
  method ServePage(link: Link, log: seq<Activity>, from: nat, limit: nat) returns (r: PageReply)
    requires |log| <= U64_MAX
    ensures limit == 0 || limit > 10_000 ==> r == Rejected(400, "invalid_audit_limit")
    ensures 0 < limit <= 10_000 && from > |log| ==> r == Rejected(416, "invalid_audit_offset")
    ensures 0 < limit <= 10_000 && from <= |log| ==>
      var end := Min(from + limit, |log|);
      r == Served(Page(from, if end < |log| then Some(end) else None, Seal(link, log)[from..end]))
  {
    if limit == 0 || limit > MAX_PAGE { return Rejected(400, "invalid_audit_limit"); }
    if from > |log| { return Rejected(416, "invalid_audit_offset"); }
    var end := Min(Min(from + limit, U64_MAX), |log|);
    var records: seq<Activity> := [];
    var i := from;
    while i < end
      invariant from <= i <= end && records == Seal(link, log)[from..i]
    {
      var record := SealedRecord(link, log, i);
      records := records + [record.value];
      i := i + 1;
    }
    r := Served(Page(from, if end < |log| then Some(end) else None, records));
  }

  /* ---- how the exporter reads a record ---- */

  /** The columns `jq` selects, with a marker in place of null. */
  function Columns(a: Activity): seq<string> {
    [a.id, EventName(a.event), a.nodeId.GetOr(NULL_MARK), a.taskId.GetOr(NULL_MARK), a.actor.GetOr(NULL_MARK),
     Dec(a.timestamp), a.prevHash, a.hash]
  }

  /** `@tsv` spells backslash, tab and line breaks with a backslash. */
  function TsvEscape(s: string): string {
    if s == "" then ""
    else
      (match s[0]
       case '\\' => "\\\\"
       case '\t' => "\\t"
       case '\n' => "\\n"
       case '\r' => "\\r"
       case c => [c]) + TsvEscape(s[1..])
  }

  function TsvEscapeAll(columns: seq<string>): seq<string> {
    seq(|columns|, i requires 0 <= i < |columns| => TsvEscape(columns[i]))
  }

  function NonEmpty(words: seq<string>): seq<string> {
    if words == [] then []
    else (if words[0] == "" then [] else [words[0]]) + NonEmpty(words[1..])
  }

  /**
   * `IFS=tab read` into eight names: a run of tabs separates only once, so
   * empty columns vanish; missing words leave names empty, and surplus words
   * go to the last name.
   */
  function ReadWords(line: string): (words: seq<string>)
    ensures |words| == 8
  {
    var words := NonEmpty(Split(line, '\t'));
    if |words| <= 8 then words + seq(8 - |words|, i => "") else words[..7] + [Join(words[7..], '\t')]
  }

  /** The words the loop body works on. */
  function WordsOf(a: Activity): (words: seq<string>)
    ensures |words| == 8
  {
    ReadWords(Join(TsvEscapeAll(Columns(a)), '\t'))
  }

  function Unmark(word: string): string {
    if word == NULL_MARK then "" else word
  }

  /** The text the exporter hashes: seven lines when it sees an actor, six when it does not. */
  function ShellText(words: seq<string>, previous: string): string
    requires |words| == 8
  {
    var actor := Unmark(words[4]);
    Join([words[0], words[1], Unmark(words[2]), Unmark(words[3])] + (if actor != "" then [actor] else []) +
         [words[5], previous], '\n')
  }

  datatype Verdict = Linked | Discontinuity | HashMismatch

  function CheckRecord(h: Hash, a: Activity, previous: string): Verdict {
    var words := WordsOf(a);
    if words[6] != previous then Discontinuity
    else if words[7] != h(ShellText(words, previous)) then HashMismatch
    else Linked
  }

  /** A record the columns carry faithfully: plain names, and either an actor or none, never a blank one. */
  predicate Carried(a: Activity) {
    Plain(a.id) && (a.nodeId.Some? ==> Plain(a.nodeId.value)) && (a.taskId.Some? ==> Plain(a.taskId.value)) &&
    (a.actor.Some? ==> Plain(a.actor.value)) && !a.event.OtherEvent?
  }

  /** A name in the record is spelled exactly like the marker for null. */
  predicate Confusable(a: Activity) {
    a.nodeId == Some(NULL_MARK) || a.taskId == Some(NULL_MARK) || a.actor == Some(NULL_MARK)
  }

  lemma {:induction false} EscapeOfPlain(s: string)
    requires forall i :: 0 <= i < |s| ==> '!' <= s[i] <= '~' && s[i] != '\\'
    ensures TsvEscape(s) == s
  {
    if s != "" { EscapeOfPlain(s[1..]); }
  }

  lemma {:induction false} NonEmptyKeepsAll(words: seq<string>)
    requires forall i :: 0 <= i < |words| ==> words[i] != ""
    ensures NonEmpty(words) == words
  {
    if words != [] { NonEmptyKeepsAll(words[1..]); }
  }

  /** Plain columns come back from the shell exactly as they went in. */
  lemma PlainColumnsComeBack(columns: seq<string>)
    requires |columns| == 8 && forall i :: 0 <= i < 8 ==> Plain(columns[i])
    ensures ReadWords(Join(TsvEscapeAll(columns), '\t')) == columns
  {
    forall i | 0 <= i < 8 ensures TsvEscapeAll(columns)[i] == columns[i] { EscapeOfPlain(columns[i]); }
    assert TsvEscapeAll(columns) == columns;
    SplitJoin(columns, '\t');
    NonEmptyKeepsAll(columns);
  }

  lemma NodeNamesArePlain(e: Event)
    requires e.NodeCreated? || e.NodeRevoked? || e.NodeHeartbeat? || e.CredentialRotated?
    ensures Plain(EventName(e))
  {
  }

  lemma GrantNamesArePlain(e: Event)
    requires e.GrantCreated? || e.GrantRevoked? || e.GrantRedeemed? || e.ApprovalCreated? || e.ApprovalConsumed?
    ensures Plain(EventName(e))
  {
  }

  lemma TaskNamesArePlain(e: Event)
    requires e.TaskAccepted? || e.PolicyAllowed? || e.TaskDispatched? || e.TaskCompleted? || e.TaskCancelled?
    ensures Plain(EventName(e))
  {
  }

  lemma NamesArePlain(e: Event)
    requires !e.OtherEvent?
    ensures Plain(EventName(e))
  {
    match e
    case TaskCancelledByRevoke => assert Plain("task.cancelled_by_node_revoke");
    case NodeCreated | NodeRevoked | NodeHeartbeat | CredentialRotated => NodeNamesArePlain(e);
    case TaskAccepted | PolicyAllowed | TaskDispatched | TaskCompleted | TaskCancelled => TaskNamesArePlain(e);
    case _ => GrantNamesArePlain(e);
  }

  lemma CarriedColumnsArePlain(a: Activity)
    requires Carried(a) && Plain(a.prevHash) && Plain(a.hash)
    ensures WordsOf(a) == Columns(a)
  {
    NamesArePlain(a.event);
    assert Plain(NULL_MARK);
    DecIsPlain(a.timestamp);
    PlainColumnsComeBack(Columns(a));
  }

  /* ---- what the shell makes of any columns ---- */

  /** A character `@tsv` spells with a backslash. */
  predicate Spelt(c: char) {
    c == '\\' || c == '\t' || c == '\n' || c == '\r'
  }

  /** Escaping leaves no tab and no line break, and leaves text alone exactly when there is nothing to spell. */
  lemma {:induction false} EscapeExactly(s: string)
    ensures Lacks(TsvEscape(s), '\t') && Lacks(TsvEscape(s), '\n') && |s| <= |TsvEscape(s)|
    ensures |TsvEscape(s)| == |s| <==> forall i :: 0 <= i < |s| ==> !Spelt(s[i])
    ensures TsvEscape(s) == s <==> forall i :: 0 <= i < |s| ==> !Spelt(s[i])
  {
    if s != "" {
      EscapeExactly(s[1..]);
      assert (forall i :: 0 <= i < |s| ==> !Spelt(s[i])) <==>
        !Spelt(s[0]) && forall i :: 0 <= i < |s[1..]| ==> !Spelt(s[1..][i]);
    }
  }

  lemma {:induction false} NonEmptyDropsBlanks(words: seq<string>)
    ensures |NonEmpty(words)| <= |words|
    ensures (exists i :: 0 <= i < |words| && words[i] == "") ==> |NonEmpty(words)| < |words|
  {
    if words != [] {
      NonEmptyDropsBlanks(words[1..]);
      if i :| 0 < i < |words| && words[i] == "" { assert words[1..][i - 1] == ""; }
    }
  }

  /**
   * Eight columns come back as they were escaped when none of them is blank.
   * When one is, the ones after it move up, and the last word is blank.
   */
  lemma WordsRead(columns: seq<string>)
    requires |columns| == 8
    ensures var words := ReadWords(Join(TsvEscapeAll(columns), '\t'));
      if forall i :: 0 <= i < 8 ==> columns[i] != "" then words == TsvEscapeAll(columns) else words[7] == ""
  {
    var escaped := TsvEscapeAll(columns);
    forall i | 0 <= i < 8 ensures Lacks(escaped[i], '\t') && (escaped[i] == "" <==> columns[i] == "") {
      EscapeExactly(columns[i]);
    }
    SplitJoin(escaped, '\t');
    NonEmptyDropsBlanks(escaped);
    if forall i :: 0 <= i < 8 ==> columns[i] != "" { NonEmptyKeepsAll(escaped); }
  }

  /** A record with a blank name never passes the check, whoever sealed it. */
  lemma BlankNameNeverPasses(h: Hash, a: Activity, previous: string, k: nat)
    requires (forall text :: IsDigest(h(text))) && k < 8 && Columns(a)[k] == ""
    ensures CheckRecord(h, a, previous) != Linked
  {
    WordsRead(Columns(a));
    assert IsDigest(h(ShellText(WordsOf(a), previous)));
  }

  /** A record of plain names that is its own: none is spelled like the marker, and its links are plain too. */
  predicate Checkable(a: Activity) {
    Carried(a) && !Confusable(a) && Plain(a.prevHash) && Plain(a.hash)
  }

  lemma ShellTextIsCanonical(a: Activity, previous: string)
    requires Carried(a) && !Confusable(a)
    ensures ShellText(Columns(a), previous) == Canonical(a, previous)
  {
    var lines := [a.id, EventName(a.event), a.nodeId.GetOr(""), a.taskId.GetOr("")];
    assert Body(a) + [previous] == lines + One(a.actor) + [Dec(a.timestamp), previous];
  }

  /** What the shell makes of a record: is it linked to the one before it, and does its hash fit. */
  lemma CheckRecordExactly(h: Hash, a: Activity, previous: string)
    requires Checkable(a)
    ensures CheckRecord(h, a, previous) ==
      if a.prevHash != previous then Discontinuity
      else if a.hash != h(Canonical(a, previous)) then HashMismatch else Linked
  {
    CarriedColumnsArePlain(a);
    ShellTextIsCanonical(a, previous);
  }

  /* ---- what the exporter's check comes to on a record the server sealed ---- */

  /** The text the exporter hashes for record `i` of the sealed log. */
  function ReadBack(h: Hash, log: seq<Activity>, i: nat): string
    requires i < |log|
  {
    ShellText(Columns(Sealed(ActivityHash(h), log, i)), Tip(ActivityHash(h), log[..i]))
  }

  lemma FourLines(a: string, b: string, c: string, d: string)
    ensures Weight([a, b, c, d]) == |a| + |b| + |c| + |d| + 4
  {
    assert [a, b, c, d][1..] == [b, c, d] && [b, c, d][1..] == [c, d];
    assert Weight([c, d]) == |c| + 1 + Weight([c, d][1..]) && [c, d][1..] == [d];
    assert Weight([d]) == |d| + 1 + Weight([d][1..]) && [d][1..] == [];
  }

  lemma LinesWeight(lines: seq<string>, actor: seq<string>, stamp: string, prev: string)
    requires |lines| == 4 && |actor| <= 1
    ensures |Join(lines + actor + [stamp, prev], '\n')| ==
            |lines[0]| + |lines[1]| + |lines[2]| + |lines[3]| + |stamp| + |prev| + 5 +
            if actor == [] then 0 else |actor[0]| + 1
  {
    assert lines == [lines[0], lines[1], lines[2], lines[3]];
    FourLines(lines[0], lines[1], lines[2], lines[3]);
    assert actor != [] ==> actor[1..] == [] && Weight(actor) == |actor[0]| + 1;
    assert [stamp, prev][1..] == [prev] && [prev][1..] == [] && Weight([prev]) == |prev| + 1;
    assert Weight([stamp, prev]) == |stamp| + 1 + Weight([prev]);
    WeightConcat(lines, actor);
    WeightConcat(lines + actor, [stamp, prev]);
    JoinWeight(lines + actor + [stamp, prev], '\n');
  }

  function One(o: Option<string>): seq<string> {
    if o.Some? then [o.value] else []
  }

  /** A name as the shell sees it. */
  function Shown(o: Option<string>): Option<string> {
    if o == Some(NULL_MARK) then None else o
  }

  /** The two texts, line by line. */
  lemma TextsInLines(h: Hash, log: seq<Activity>, i: nat)
    requires i < |log| && Carried(log[i])
    ensures var a, prev := log[i], Tip(ActivityHash(h), log[..i]);
      TextAt(h, log, i) == Join([a.id, EventName(a.event), a.nodeId.GetOr(""), a.taskId.GetOr("")] + One(a.actor) +
                                [Dec(a.timestamp), prev], '\n') &&
      ReadBack(h, log, i) == Join([a.id, EventName(a.event), Shown(a.nodeId).GetOr(""), Shown(a.taskId).GetOr("")] +
                                  One(Shown(a.actor)) + [Dec(a.timestamp), prev], '\n')
  {
    var a, prev := log[i], Tip(ActivityHash(h), log[..i]);
    assert Body(a) + [prev] == [a.id, EventName(a.event), a.nodeId.GetOr(""), a.taskId.GetOr("")] + One(a.actor) +
                               [Dec(a.timestamp), prev];
  }

  /** What the shell reads back is shorter by the marked names, and otherwise the server's own text. */
  lemma ReadBackIsShorter(h: Hash, log: seq<Activity>, i: nat)
    requires i < |log| && Carried(log[i])
    ensures if Confusable(log[i]) then |ReadBack(h, log, i)| < |TextAt(h, log, i)| < |ReadBack(h, log, i)| + 256
            else ReadBack(h, log, i) == TextAt(h, log, i)
  {
    var a, prev := log[i], Tip(ActivityHash(h), log[..i]);
    var stamp := Dec(a.timestamp);
    TextsInLines(h, log, i);
    LinesWeight([a.id, EventName(a.event), a.nodeId.GetOr(""), a.taskId.GetOr("")], One(a.actor), stamp, prev);
    LinesWeight([a.id, EventName(a.event), Shown(a.nodeId).GetOr(""), Shown(a.taskId).GetOr("")],
                One(Shown(a.actor)), stamp, prev);
  }

  /** The exporter hashes the server's own text, except for a record with a name spelled like the marker. */
  lemma ReadBackIsCanonical(h: Hash, log: seq<Activity>, i: nat)
    requires i < |log| && Carried(log[i])
    ensures ReadBack(h, log, i) == TextAt(h, log, i) <==> !Confusable(log[i])
  {
    ReadBackIsShorter(h, log, i);
  }

  lemma TipIsPlain(h: Hash, log: seq<Activity>)
    requires forall text :: IsDigest(h(text))
    ensures Plain(Tip(ActivityHash(h), log))
  {
    if log == [] {
      assert Plain(GENESIS);
    } else {
      var text := Canonical(log[|log| - 1], Tip(ActivityHash(h), log[..|log| - 1]));
      assert IsDigest(h(text));
    }
  }

  /** How the exporter judges a record, given the link it expects. */
  type Check = (Activity, string) -> Verdict

  function RecordCheck(h: Hash): Check {
    (a: Activity, previous: string) => CheckRecord(h, a, previous)
  }

  /** The verdict on record `i` of the sealed log, met with its own link. */
  function SealedVerdict(link: Link, check: Check, log: seq<Activity>, i: nat): Verdict
    requires i < |log|
  {
    check(Sealed(link, log, i), Tip(link, log[..i]))
  }

  /**
   * The exporter finds a sealed record linked unless one of its names is
   * spelled like the marker for null; then it reports a hash mismatch, or the
   * text it hashed collides with the one the server hashed.
   */
  lemma VerdictOnSealed(h: Hash, log: seq<Activity>, i: nat)
    requires (forall text :: IsDigest(h(text))) && i < |log| && Carried(log[i])
    ensures var verdict := SealedVerdict(ActivityHash(h), RecordCheck(h), log, i);
      if !Confusable(log[i]) then verdict == Linked
      else if h(ReadBack(h, log, i)) != h(TextAt(h, log, i)) then verdict == HashMismatch
      else verdict == Linked && ReadBack(h, log, i) != TextAt(h, log, i)
  {
    var a := Sealed(ActivityHash(h), log, i);
    TipIsPlain(h, log[..i]);
    TipIsPlain(h, log[..i + 1]);
    CarriedColumnsArePlain(a);
    TipStep(ActivityHash(h), log, i);
    ReadBackIsCanonical(h, log, i);
    assert SealedVerdict(ActivityHash(h), RecordCheck(h), log, i) == CheckRecord(h, a, Tip(ActivityHash(h), log[..i]));
  }

  /* ---- one page ---- */

  /** The link the exporter expects of record `i` of a page entered with `entry`. */
  function Expected(records: seq<Activity>, entry: string, i: nat): string
    requires i <= |records|
  {
    if i == 0 then entry else records[i - 1].hash
  }

  /** The verdict on record `i` of a page. */
  function VerdictAt(check: Check, records: seq<Activity>, entry: string, i: nat): Verdict
    requires i < |records|
  {
    check(records[i], Expected(records, entry, i))
  }

  /** The loop over one page; stops at the first record that is not linked. */
  method CheckPage(check: Check, records: seq<Activity>, entry: string)
    returns (verdict: Verdict, at: nat, previous: string)
    ensures at <= |records| && forall i :: 0 <= i < at ==> VerdictAt(check, records, entry, i).Linked?
    ensures verdict.Linked? ==> at == |records| && previous == Expected(records, entry, |records|)
    ensures !verdict.Linked? ==> at < |records| && verdict == VerdictAt(check, records, entry, at)
  {
    previous := entry;
    at := 0;
    while at < |records|
      invariant at <= |records| && previous == Expected(records, entry, at)
      invariant forall i :: 0 <= i < at ==> VerdictAt(check, records, entry, i).Linked?
    {
      verdict := check(records[at], previous);
      if !verdict.Linked? { return; }
      previous := records[at].hash;
      at := at + 1;
    }
    verdict := Linked;
  }

  /** On a page of the sealed log entered at its tip, the exporter expects of each record its own link. */
  lemma PageLink(link: Link, log: seq<Activity>, from: nat, end: nat, i: nat)
    requires from <= i <= end <= |log|
    ensures Expected(Seal(link, log)[from..end], Tip(link, log[..from]), i - from) == Tip(link, log[..i])
  {
    if i > from {
      assert Seal(link, log)[from..end][i - 1 - from] == Seal(link, log)[i - 1] == Sealed(link, log, i - 1);
      assert log[..i - 1 + 1] == log[..i];
    }
  }

  lemma PageVerdict(link: Link, check: Check, log: seq<Activity>, from: nat, end: nat, i: nat)
    requires from <= i < end <= |log|
    ensures VerdictAt(check, Seal(link, log)[from..end], Tip(link, log[..from]), i - from) ==
            SealedVerdict(link, check, log, i)
  {
    PageLink(link, log, from, end, i);
    assert Seal(link, log)[from..end][i - from] == Seal(link, log)[i] == Sealed(link, log, i);
  }

  /** All of the first `n` records are found linked, starting from GENESIS. */
  ghost predicate LinkedUpTo(h: Hash, records: seq<Activity>, n: nat)
    requires n <= |records|
  {
    forall i :: 0 <= i < n ==> VerdictAt(RecordCheck(h), records, "GENESIS", i) == Linked
  }

  /** The record names the hash of the one before it, and its own hash is right under that name. */
  predicate Fits(link: Link, records: seq<Activity>, i: nat)
    requires i < |records|
  {
    var previous := Expected(records, "GENESIS", i);
    records[i].prevHash == previous && records[i].hash == link(records[i], previous)
  }

  lemma VerdictExactly(h: Hash, records: seq<Activity>, i: nat)
    requires i < |records| && Checkable(records[i])
    ensures VerdictAt(RecordCheck(h), records, "GENESIS", i) == Linked <==> Fits(ActivityHash(h), records, i)
  {
    CheckRecordExactly(h, records[i], Expected(records, "GENESIS", i));
  }

  /** The first `n` records fit. */
  predicate FitUpTo(link: Link, records: seq<Activity>, n: nat)
    requires n <= |records|
  {
    forall i :: 0 <= i < n ==> Fits(link, records, i)
  }

  predicate SealedUpTo(link: Link, records: seq<Activity>, n: nat)
    requires n <= |records|
  {
    forall i :: 0 <= i < n ==> records[i] == Sealed(link, records, i)
  }

  lemma NextFits(link: Link, records: seq<Activity>, n: nat)
    requires n < |records| && Expected(records, "GENESIS", n) == Tip(link, records[..n])
    ensures Fits(link, records, n) <==> records[n] == Sealed(link, records, n)
    ensures Fits(link, records, n) ==> Expected(records, "GENESIS", n + 1) == Tip(link, records[..n + 1])
  {
    TipStep(link, records, n);
  }

  lemma {:induction false} FitIsSealed(link: Link, records: seq<Activity>, n: nat)
    requires n <= |records|
    ensures FitUpTo(link, records, n) <==> SealedUpTo(link, records, n)
    ensures FitUpTo(link, records, n) ==> Expected(records, "GENESIS", n) == Tip(link, records[..n])
  {
    if n > 0 {
      FitIsSealed(link, records, n - 1);
      if FitUpTo(link, records, n - 1) { NextFits(link, records, n - 1); }
    }
  }

  /**
   * Whoever serves the pages: records of plain names pass the shell's check
   * exactly when they are sealed, every link of them, as the server seals. A
   * page with a record altered, left out, added or moved does not pass unless
   * it has been sealed anew.
   */
  lemma PassesExactlyWhenSealed(h: Hash, records: seq<Activity>)
    requires forall i :: 0 <= i < |records| ==> Checkable(records[i])
    ensures LinkedUpTo(h, records, |records|) <==> records == Seal(ActivityHash(h), records)
    ensures LinkedUpTo(h, records, |records|) ==>
      Expected(records, "GENESIS", |records|) == Tip(ActivityHash(h), records)
  {
    forall i | 0 <= i < |records|
      ensures VerdictAt(RecordCheck(h), records, "GENESIS", i) == Linked <==> Fits(ActivityHash(h), records, i)
    {
      VerdictExactly(h, records, i);
    }
    FitIsSealed(ActivityHash(h), records, |records|);
    WholeIsSealed(ActivityHash(h), records);
  }

  lemma WholeIsSealed(link: Link, records: seq<Activity>)
    ensures SealedUpTo(link, records, |records|) <==> records == Seal(link, records)
    ensures records[..|records|] == records
  {
    if SealedUpTo(link, records, |records|) {
      forall i | 0 <= i < |records| ensures records[i] == Seal(link, records)[i] {
        assert records[i] == Sealed(link, records, i);
      }
    }
    if records == Seal(link, records) {
      forall i | 0 <= i < |records| ensures records[i] == Sealed(link, records, i) {
        assert Seal(link, records)[i] == Sealed(link, records, i);
      }
    }
  }

  /* ---- the whole export ---- */

  datatype Outcome =
    | Archived(pages: seq<Page>, finalHash: string)
    | Stopped(page: nat, at: nat, verdict: Verdict)
    | HttpFailure
    | BadCursor

  /** The records of the archived pages, in order. */
  function Archive(pages: seq<Page>): seq<Activity> {
    if pages == [] then [] else Archive(pages[..|pages| - 1]) + pages[|pages| - 1].records
  }

  /** The log as each request finds it: it only gains records, and its length is a machine word. */
  ghost predicate GrowingLog(logs: nat -> seq<Activity>) {
    (forall i: nat, j: nat :: i <= j ==> logs(i) <= logs(j)) && forall k: nat :: |logs(k)| <= U64_MAX
  }

  /** None of the first `n` records has a name spelled like the marker. */
  predicate NoneMarked(log: seq<Activity>, n: nat) {
    n <= |log| && forall i :: 0 <= i < n ==> !Confusable(log[i])
  }

  predicate CursorsIncrease(pages: seq<Page>) {
    (pages != [] ==> pages[0].from == 0) && forall k :: 0 < k < |pages| ==> pages[k - 1].from < pages[k].from
  }

  /** What holds of the archive after some pages: it is the sealed log so far, and its cursors increase. */
  predicate ArchivedSoFar(link: Link, log: seq<Activity>, pages: seq<Page>, from: nat) {
    NoneMarked(log, from) && Archive(pages) == Seal(link, log)[..from] && CursorsIncrease(pages) &&
    if pages == [] then from == 0 else pages[|pages| - 1].from <= from
  }

  lemma PageArchived(link: Link, log: seq<Activity>, pages: seq<Page>, page: Page, end: nat)
    requires ArchivedSoFar(link, log, pages, page.from) && page.from <= end && NoneMarked(log, end)
    requires page.records == Seal(link, log)[page.from..end]
    requires pages != [] ==> pages[|pages| - 1].from < page.from
    ensures ArchivedSoFar(link, log, pages + [page], end)
  {
    assert (pages + [page])[..|pages|] == pages;
    assert Seal(link, log)[..page.from] + Seal(link, log)[page.from..end] == Seal(link, log)[..end];
  }

  /** Records with a name spelled like the marker are found mismatched, and all others linked. */
  ghost predicate ReadsRight(link: Link, check: Check, log: seq<Activity>) {
    forall i {:trigger SealedVerdict(link, check, log, i)} :: 0 <= i < |log| ==>
      SealedVerdict(link, check, log, i) == if Confusable(log[i]) then HashMismatch else Linked
  }

  /** The verdict on one record of a page, when the check reads logs right. */
  lemma VerdictRead(link: Link, check: Check, log: seq<Activity>, from: nat, end: nat, k: nat)
    requires from <= from + k < end <= |log| && ReadsRight(link, check, log)
    ensures VerdictAt(check, Seal(link, log)[from..end], Tip(link, log[..from]), k) ==
            if Confusable(log[from + k]) then HashMismatch else Linked
  {
    PageVerdict(link, check, log, from, end, from + k);
    assert SealedVerdict(link, check, log, from + k) == if Confusable(log[from + k]) then HashMismatch else Linked;
  }

  /** Records found linked are not marked. */
  lemma LinkedAreUnmarked(link: Link, check: Check, log: seq<Activity>, from: nat, end: nat, at: nat)
    requires from <= from + at <= end <= |log| && ReadsRight(link, check, log) && NoneMarked(log, from)
    requires var page := Seal(link, log)[from..end]; var entry := Tip(link, log[..from]);
      forall k :: 0 <= k < at ==> VerdictAt(check, page, entry, k).Linked?
    ensures NoneMarked(log, from + at)
  {
    forall i | from <= i < from + at ensures !Confusable(log[i]) {
      var k := i - from;
      VerdictRead(link, check, log, from, end, k);
      assert VerdictAt(check, Seal(link, log)[from..end], Tip(link, log[..from]), k).Linked?;
    }
  }

  /** What has been archived stays true of the log when it grows. */
  lemma ArchivedStaysTrue(link: Link, log: seq<Activity>, longer: seq<Activity>, pages: seq<Page>, from: nat)
    requires log <= longer && ArchivedSoFar(link, log, pages, from)
    ensures ArchivedSoFar(link, longer, pages, from) && Tip(link, longer[..from]) == Tip(link, log[..from])
  {
    assert longer == log + longer[|log|..];
    SealIsStable(link, log, longer[|log|..]);
    assert longer[..from] == log[..from];
    assert Seal(link, longer)[..from] == Seal(link, longer)[..|log|][..from];
  }

  /** A linked page is archived, and stays so in the log as the next request finds it. */
  lemma TurnArchived(
    link: Link, logs: nat -> seq<Activity>, pages: seq<Page>, page: Page, tip: string, end: nat)
    requires GrowingLog(logs) && page.from <= end && NoneMarked(logs(|pages|), end)
    requires ArchivedSoFar(link, logs(|pages|), pages, page.from)
    requires page.records == Seal(link, logs(|pages|))[page.from..end] && tip == Tip(link, logs(|pages|)[..end])
    requires pages != [] ==> pages[|pages| - 1].from < page.from
    ensures var more := pages + [page];
      ArchivedSoFar(link, logs(|pages|), more, end) && ArchivedSoFar(link, logs(|more|), more, end) &&
      tip == Tip(link, logs(|more|)[..end])
  {
    var more := pages + [page];
    PageArchived(link, logs(|pages|), pages, page, end);
    assert logs(|pages|) <= logs(|more|);
    ArchivedStaysTrue(link, logs(|pages|), logs(|more|), more, end);
  }

  datatype Turn = Next(page: Page, tip: string) | Stop(at: nat, verdict: Verdict) | Failure

  /** A page whose records were all linked moves the tip on; one whose loop stopped shows the first marked record. */
  lemma TurnTaken(
    link: Link, check: Check, log: seq<Activity>, from: nat, end: nat, verdict: Verdict, at: nat, tip: string)
    requires from <= end <= |log| && at <= end - from && ReadsRight(link, check, log) && NoneMarked(log, from)
    requires var page := Seal(link, log)[from..end]; var entry := Tip(link, log[..from]);
      (forall i :: 0 <= i < at ==> VerdictAt(check, page, entry, i).Linked?) &&
      (verdict.Linked? ==> at == |page| && tip == Expected(page, entry, |page|)) &&
      (!verdict.Linked? ==> at < |page| && verdict == VerdictAt(check, page, entry, at))
    ensures NoneMarked(log, from + at)
    ensures verdict.Linked? ==> from + at == end && tip == Tip(link, log[..end])
    ensures !verdict.Linked? ==> verdict == HashMismatch && from + at < |log| && Confusable(log[from + at])
  {
    PageLink(link, log, from, end, end);
    LinkedAreUnmarked(link, check, log, from, end, at);
    if !verdict.Linked? { VerdictRead(link, check, log, from, end, at); }
  }

  /** One turn of the exporter's loop: fetch a page and check every link on it. */
  method FetchPage(link: Link, check: Check, log: seq<Activity>, from: nat, previous: string, pageSize: nat)
    returns (turn: Turn)
    requires |log| <= U64_MAX && 0 < pageSize <= MAX_PAGE && ReadsRight(link, check, log)
    requires NoneMarked(log, from) && previous == Tip(link, log[..from])
    ensures turn.Next? || turn.Stop?
    ensures turn.Next? ==> var end := Min(from + pageSize, |log|);
      turn.page == Page(from, if end < |log| then Some(end) else None, Seal(link, log)[from..end]) &&
      turn.tip == Tip(link, log[..end]) && NoneMarked(log, end)
    ensures turn.Stop? ==> turn.verdict == HashMismatch && NoneMarked(log, turn.at)
    ensures turn.Stop? ==> turn.at < |log| && Confusable(log[turn.at])
  {
    var reply := ServePage(link, log, from, pageSize);
    if reply.Rejected? { return Failure; }
    var page := reply.page;
    var verdict, at, tip := CheckPage(check, page.records, previous);
    TurnTaken(link, check, log, from, Min(from + pageSize, |log|), verdict, at, tip);
    turn := if verdict.Linked? then Next(page, tip) else Stop(from + at, verdict);
  }

  /** The page whose request was the last one made. */
  function LastPage(r: Outcome): nat
    requires (r.Archived? && r.pages != []) || r.Stopped?
  {
    if r.Archived? then |r.pages| - 1 else r.page
  }

  /**
   * How an export ends: with every page archived, cursors increasing, and the
   * pages together the sealed log as the last request found it, free of marked
   * records; or stopped, with a hash mismatch, at the first marked record.
   */
  ghost predicate EndsRight(link: Link, logs: nat -> seq<Activity>, r: Outcome) {
    (r.Archived? || (r.Stopped? && r.verdict == HashMismatch)) &&
    (r.Archived? ==> r.pages != [] && CursorsIncrease(r.pages)) &&
    var log := logs(LastPage(r));
    if r.Archived? then
      Archive(r.pages) == Seal(link, log) && r.finalHash == Tip(link, log) && NoneMarked(log, |log|)
    else NoneMarked(log, r.at) && r.at < |log| && Confusable(log[r.at])
  }

  lemma EndsArchived(link: Link, logs: nat -> seq<Activity>, pages: seq<Page>, tip: string)
    requires pages != []
    requires var log := logs(|pages| - 1); ArchivedSoFar(link, log, pages, |log|) && tip == Tip(link, log[..|log|])
    ensures EndsRight(link, logs, Archived(pages, tip))
  {
    var log := logs(|pages| - 1);
    assert log[..|log|] == log && Seal(link, log)[..|log|] == Seal(link, log);
  }

  lemma EndsStopped(link: Link, logs: nat -> seq<Activity>, page: nat, at: nat)
    requires NoneMarked(logs(page), at) && at < |logs(page)| && Confusable(logs(page)[at])
    ensures EndsRight(link, logs, Stopped(page, at, HashMismatch))
  {
  }

  /**
   * The exporter against a log that may grow between any two requests. It is
   * never refused a page and never meets a discontinuity or a bad cursor, and
   * its cursor strictly increases. It archives exactly the sealed log as it
   * stood at the last request when no record of it has a name spelled like the
   * marker for null; the only other end is a hash mismatch at the first record
   * that has one.
   */
  method Export(link: Link, check: Check, logs: nat -> seq<Activity>, pageSize: nat) returns (r: Outcome)
    requires GrowingLog(logs) && 0 < pageSize <= MAX_PAGE
    requires forall k: nat :: ReadsRight(link, check, logs(k))
    ensures EndsRight(link, logs, r)
  {
    var from, previous, pages := 0, GENESIS, [];
    while true
      invariant ArchivedSoFar(link, logs(|pages|), pages, from)
      invariant previous == Tip(link, logs(|pages|)[..from])
      invariant pages != [] ==> pages[|pages| - 1].from < from
      decreases U64_MAX - from
    {
      var log := logs(|pages|);
      assert ReadsRight(link, check, log);
      var turn := FetchPage(link, check, log, from, previous, pageSize);
      if turn.Failure? { return HttpFailure; }
      if turn.Stop? {
        EndsStopped(link, logs, |pages|, turn.at);
        return Stopped(|pages|, turn.at, turn.verdict);
      }
      TurnArchived(link, logs, pages, turn.page, turn.tip, from + |turn.page.records|);
      pages, previous := pages + [turn.page], turn.tip;
      if turn.page.next.None? {
        EndsArchived(link, logs, pages, previous);
        return Archived(pages, previous);
      }
      if turn.page.next.value <= from { return BadCursor; }
      from := turn.page.next.value;
    }
  }

  /** An export succeeds exactly when the log, as its last request found it, holds no marked record. */
  lemma ArchivedExactlyWhenUnmarked(link: Link, logs: nat -> seq<Activity>, r: Outcome)
    requires EndsRight(link, logs, r)
    ensures r.Archived? <==> NoneMarked(logs(LastPage(r)), |logs(LastPage(r))|)
  {
  }

  /** A marked record in the log when some page was served stops the export, at that record or before it. */
  lemma MarkedRecordStops(link: Link, logs: nat -> seq<Activity>, r: Outcome, k: nat, i: nat)
    requires GrowingLog(logs) && EndsRight(link, logs, r) && k <= LastPage(r)
    requires i < |logs(k)| && Confusable(logs(k)[i])
    ensures r.Stopped? && r.verdict == HashMismatch && r.at <= i
  {
    assert logs(k) <= logs(LastPage(r));
    assert logs(LastPage(r))[i] == logs(k)[i];
  }

  /** The hash tells the text the exporter read back from the one the server hashed. */
  ghost predicate TellsApart(h: Hash, log: seq<Activity>) {
    forall i :: 0 <= i < |log| && ReadBack(h, log, i) != TextAt(h, log, i) ==>
      h(ReadBack(h, log, i)) != h(TextAt(h, log, i))
  }

  /** The shell's own check reads every log of plain records that way. */
  lemma ShellReadsRight(h: Hash, log: seq<Activity>)
    requires (forall text :: IsDigest(h(text))) && TellsApart(h, log)
    requires forall i :: 0 <= i < |log| ==> Carried(log[i])
    ensures ReadsRight(ActivityHash(h), RecordCheck(h), log)
  {
    forall i | 0 <= i < |log|
      ensures SealedVerdict(ActivityHash(h), RecordCheck(h), log, i) ==
              if Confusable(log[i]) then HashMismatch else Linked
    {
      VerdictOnSealed(h, log, i);
      ReadBackIsCanonical(h, log, i);
    }
  }

  /* ---- hashes that meet these conditions exist ---- */

  function TwoDigits(n: nat): string
    requires n < 256
  {
    [Utf8.HexDigit(n / 16), Utf8.HexDigit(n % 16)]
  }

  /** A digest that spells the length of the text, modulo 256. */
  function LengthHash(text: string): string {
    seq(62, _ => '0') + TwoDigits(|text| % 256)
  }

  lemma TwoDigitsTell(m: nat, n: nat)
    requires m < 256 && n < 256 && TwoDigits(m) == TwoDigits(n)
    ensures m == n
  {
    assert TwoDigits(m)[0] == TwoDigits(n)[0] && TwoDigits(m)[1] == TwoDigits(n)[1];
    Utf8.HexDigitValue(m / 16);
    Utf8.HexDigitValue(n / 16);
    Utf8.HexDigitValue(m % 16);
    Utf8.HexDigitValue(n % 16);
  }

  lemma LengthHashTells(a: string, b: string)
    requires |a| < |b| < |a| + 256
    ensures LengthHash(a) != LengthHash(b)
  {
    if LengthHash(a) == LengthHash(b) {
      assert LengthHash(a)[62..] == TwoDigits(|a| % 256) && LengthHash(b)[62..] == TwoDigits(|b| % 256);
      TwoDigitsTell(|a| % 256, |b| % 256);
    }
  }

  /** Some hash has digests of the right form and tells the two texts apart on every log of plain records. */
  lemma SuchHashesExist(log: seq<Activity>)
    requires forall i :: 0 <= i < |log| ==> Carried(log[i])
    ensures (forall text :: IsDigest(LengthHash(text))) && TellsApart(LengthHash, log)
  {
    forall i | 0 <= i < |log| && ReadBack(LengthHash, log, i) != TextAt(LengthHash, log, i)
      ensures LengthHash(ReadBack(LengthHash, log, i)) != LengthHash(TextAt(LengthHash, log, i))
    {
      ReadBackIsShorter(LengthHash, log, i);
      LengthHashTells(ReadBack(LengthHash, log, i), TextAt(LengthHash, log, i));
    }
  }
}
