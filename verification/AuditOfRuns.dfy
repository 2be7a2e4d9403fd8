/** The audit log of a running Control Plane, as the exporter and the check on load meet it. */
module AuditOfRuns {
  import opened Records
  import opened Engine
  import opened EngineRuns
  import opened EngineInvariants
  import EngineOutcomes
  import EngineTheorems
  import opened AuditChain
  import AuditBinding
  import Export = AuditExport
  import Text

  /** The log as the exporter's k-th request finds it, when that request comes after `times(k)` others. */
  function LogAt(h: History, times: nat -> nat): nat -> seq<Activity> {
    (k: nat) => h.state(times(k)).mem.audit
  }

  lemma RecordIsCarried(a: Activity)
    requires RecordOk(a)
    ensures Export.Carried(a)
  {
  }

  lemma LogIsCarried(cfg: Config, trace: Trace, h: History, n: nat)
    requires FreshDraws(trace) && Authenticated(trace) && Follows(cfg, trace, h)
    ensures RecordsOk(h.state(n).mem.audit) && AuditBinding.AllCarried(h.state(n).mem.audit)
  {
    ReachableRecords(cfg, trace, h, n);
    var log := h.state(n).mem.audit;
    forall i | 0 <= i < |log| ensures Export.Carried(log[i]) { RecordIsCarried(log[i]); }
  }

  /**
   * The final hash of an export names one log: two runs, of any two servers and
   * at any two moments, whose logs seal to the same final hash have recorded
   * exactly the same, or the hash collides.
   */
  lemma FinalHashNamesTheLog(
    cfg: Config, trace: Trace, h: History, n: nat, other: Config, trace2: Trace, g: History, m: nat, hash: Hash)
    requires FreshDraws(trace) && Authenticated(trace) && Follows(cfg, trace, h)
    requires FreshDraws(trace2) && Authenticated(trace2) && Follows(other, trace2, g)
    requires forall text :: IsDigest(hash(text))
    requires Tip(ActivityHash(hash), h.state(n).mem.audit) == Tip(ActivityHash(hash), g.state(m).mem.audit)
    ensures h.state(n).mem.audit == g.state(m).mem.audit ||
            Collision(hash, h.state(n).mem.audit, g.state(m).mem.audit)
  {
    LogIsCarried(cfg, trace, h, n);
    LogIsCarried(other, trace2, g, m);
    AuditBinding.TipBindsRecords(hash, h.state(n).mem.audit, g.state(m).mem.audit);
    if AuditBinding.SameRecords(h.state(n).mem.audit, g.state(m).mem.audit) {
      UnsealedAreEqual(h.state(n).mem.audit, g.state(m).mem.audit);
    }
  }

  /** Two exports that archived their logs under one final hash archived the same records, or the hash collides. */
  lemma FinalHashNamesTheArchive(
    cfg: Config, trace: Trace, h: History, times: nat -> nat, r: Export.Outcome,
    other: Config, trace2: Trace, g: History, times2: nat -> nat, q: Export.Outcome, hash: Hash)
    requires FreshDraws(trace) && Authenticated(trace) && Follows(cfg, trace, h)
    requires FreshDraws(trace2) && Authenticated(trace2) && Follows(other, trace2, g)
    requires forall text :: IsDigest(hash(text))
    requires Export.EndsRight(ActivityHash(hash), LogAt(h, times), r) && r.Archived?
    requires Export.EndsRight(ActivityHash(hash), LogAt(g, times2), q) && q.Archived?
    requires r.finalHash == q.finalHash
    ensures Export.Archive(r.pages) == Export.Archive(q.pages) ||
            Collision(hash, LogAt(h, times)(Export.LastPage(r)), LogAt(g, times2)(Export.LastPage(q)))
  {
    FinalHashNamesTheLog(cfg, trace, h, times(Export.LastPage(r)), other, trace2, g, times2(Export.LastPage(q)), hash);
  }

  lemma UnsealedAreEqual(a: seq<Activity>, b: seq<Activity>)
    requires RecordsOk(a) && RecordsOk(b) && AuditBinding.SameRecords(a, b)
    ensures a == b
  {
    forall i | 0 <= i < |a| ensures a[i] == b[i] {
      assert RecordOk(a[i]) && RecordOk(b[i]) && Unlinked(a[i]) == Unlinked(b[i]);
    }
  }

  /**
   * Whatever requests run between the exporter's pages, the log it walks only
   * grows, and its check is right about every record: `Export.Export` applies
   * to every run.
   */
  lemma RunsExport(cfg: Config, trace: Trace, h: History, times: nat -> nat, hash: Hash)
    requires FreshDraws(trace) && Authenticated(trace) && Follows(cfg, trace, h)
    requires forall i: nat, j: nat :: i <= j ==> times(i) <= times(j)
    requires forall k: nat :: |LogAt(h, times)(k)| <= U64_MAX
    requires (forall text :: IsDigest(hash(text))) && forall k: nat :: Export.TellsApart(hash, LogAt(h, times)(k))
    ensures Export.GrowingLog(LogAt(h, times))
    ensures forall k: nat :: Export.ReadsRight(ActivityHash(hash), Export.RecordCheck(hash), LogAt(h, times)(k))
  {
    var logs := LogAt(h, times);
    forall i: nat, j: nat | i <= j ensures logs(i) <= logs(j) {
      EngineTheorems.NothingGoesBack(cfg, trace, h, times(i), times(j));
    }
    forall k: nat ensures Export.ReadsRight(ActivityHash(hash), Export.RecordCheck(hash), logs(k)) {
      LogIsCarried(cfg, trace, h, times(k));
      assert Export.TellsApart(hash, logs(k));
      Export.ShellReadsRight(hash, logs(k));
    }
  }

  /**
   * The whole export of a running Control Plane, whatever requests come between
   * its pages and whatever the page size: it archives exactly the sealed log as
   * its last request found it if no record of that log has a name spelled like
   * the marker for null, and otherwise stops with a hash mismatch at the first
   * record that has one.
   */
  method ExportRun(cfg: Config, trace: Trace, h: History, times: nat -> nat, hash: Hash, pageSize: nat)
    returns (r: Export.Outcome)
    requires FreshDraws(trace) && Authenticated(trace) && Follows(cfg, trace, h) && 0 < pageSize <= Export.MAX_PAGE
    requires forall i: nat, j: nat :: i <= j ==> times(i) <= times(j)
    requires forall k: nat :: |LogAt(h, times)(k)| <= U64_MAX
    requires (forall text :: IsDigest(hash(text))) && forall k: nat :: Export.TellsApart(hash, LogAt(h, times)(k))
    ensures Export.EndsRight(ActivityHash(hash), LogAt(h, times), r)
    ensures var log := h.state(times(Export.LastPage(r))).mem.audit;
      r.Archived? <==> forall i :: 0 <= i < |log| ==> !Export.Confusable(log[i])
    ensures r.Archived? ==>
      Export.Archive(r.pages) == Seal(ActivityHash(hash), h.state(times(|r.pages| - 1)).mem.audit)
    ensures !r.Archived? ==> r.Stopped? && r.verdict == Export.HashMismatch
  {
    RunsExport(cfg, trace, h, times, hash);
    r := Export.Export(ActivityHash(hash), Export.RecordCheck(hash), LogAt(h, times), pageSize);
    Export.ArchivedExactlyWhenUnmarked(ActivityHash(hash), LogAt(h, times), r);
  }

  lemma MarkerIsValid()
    ensures Text.ValidId(Export.NULL_MARK)
  {
    var s := Export.NULL_MARK;
    forall c | c in s ensures '!' <= c <= '~' && c !in "/\\?&=#%" {
      var i :| 0 <= i < |s| && s[i] == c;
      assert c == '_' || 'A' <= c <= 'Z';
    }
  }

  /** The request enrolls a node named like the marker for null, and the store and the policy let it. */
  predicate EnrollsMarker(cfg: Config, s: Store, input: Input) {
    input.request.CreateNode? && input.request.nodeId == "__NODEWE_NULL__" && input.commits &&
    cfg.validLabels(input.request.description.labels.GetOr("")) && EngineOutcomes.IdFree(s.nodes, "__NODEWE_NULL__")
  }

  /** The marker for null is itself a node id the Control Plane accepts, and its record is a marked one. */
  lemma MarkerIsEnrolled(cfg: Config, sys: Sys, input: Input)
    requires EnrollsMarker(cfg, sys.mem, input)
    ensures var next := Step(cfg, sys, input); var log, after := sys.mem.audit, next.sys.mem.audit;
      next.reply.NodeReply? && next.reply.status == 201 &&
      |after| == |log| + 1 && Export.Confusable(after[|log|])
  {
    MarkerIsValid();
    EngineOutcomes.CreatedExactlyWhenFree(cfg, sys.mem, input);
  }

  /** The record keeps its place in the log from then on. */
  lemma MarkedRecordStays(cfg: Config, trace: Trace, n: nat, m: nat)
    requires EnrollsMarker(cfg, After(cfg, trace, n).mem, trace.at(n)) && n < m
    ensures var i, log := |After(cfg, trace, n).mem.audit|, Run(cfg, trace).state(m).mem.audit;
      i < |log| && Export.Confusable(log[i])
  {
    MarkerIsEnrolled(cfg, After(cfg, trace, n), trace.at(n));
    RunAt(cfg, trace, n + 1);
    AfterNext(cfg, trace, n);
    RunFollows(cfg, trace);
    EngineTheorems.NothingGoesBack(cfg, trace, Run(cfg, trace), n + 1, m);
    StaysMarked(Run(cfg, trace).state(n + 1).mem.audit, Run(cfg, trace).state(m).mem.audit,
                |After(cfg, trace, n).mem.audit|);
  }

  lemma StaysMarked(log: seq<Activity>, longer: seq<Activity>, i: nat)
    requires log <= longer && i < |log| && Export.Confusable(log[i])
    ensures i < |longer| && Export.Confusable(longer[i])
  {
    assert longer[i] == log[i];
  }

  /**
   * Once a run has enrolled such a node, every export that starts afterwards
   * stops with a hash mismatch, whatever the page size and whatever happens
   * between its pages.
   */
  lemma MarkerBlocksExports(
    cfg: Config, trace: Trace, n: nat, times: nat -> nat, hash: Hash, r: Export.Outcome)
    requires EnrollsMarker(cfg, After(cfg, trace, n).mem, trace.at(n)) && n < times(0)
    requires Export.GrowingLog(LogAt(Run(cfg, trace), times))
    requires Export.EndsRight(ActivityHash(hash), LogAt(Run(cfg, trace), times), r)
    ensures r.Stopped? && r.verdict == Export.HashMismatch
  {
    MarkedRecordStays(cfg, trace, n, times(0));
    Export.MarkedRecordStops(ActivityHash(hash), LogAt(Run(cfg, trace), times), r, 0, |After(cfg, trace, n).mem.audit|);
  }
}
