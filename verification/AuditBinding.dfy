/** What the last hash of an audit log binds: not only the texts that were hashed, but the records themselves. */
module AuditBinding {
  import opened Records
  import opened AuditChain
  import AuditExport
  import SnapshotLines
  import Text

  /** The name of a node or task in the hashed text; a plain one is never blank, so absence shows. */
  lemma NameTells(a: Option<string>, b: Option<string>)
    requires (a.Some? ==> Text.Plain(a.value)) && (b.Some? ==> Text.Plain(b.value)) && a.GetOr("") == b.GetOr("")
    ensures a == b
  {
  }

  lemma EventTells(a: Event, b: Event)
    requires !a.OtherEvent? && !b.OtherEvent? && EventName(a) == EventName(b)
    ensures a == b
  {
    SnapshotLines.KnownEventsAreNamed(a);
    SnapshotLines.KnownEventsAreNamed(b);
  }

  lemma StampTells(a: nat, b: nat)
    requires Text.Dec(a) == Text.Dec(b)
    ensures a == b
  {
    Text.DecRoundTrip(a);
    Text.DecRoundTrip(b);
  }

  /** The lines of a plain record's text, split at its line breaks. */
  lemma LinesOfText(a: Activity, prev: string)
    requires AuditExport.Carried(a) && Text.Lacks(prev, '\n')
    ensures Text.Split(Canonical(a, prev), '\n') == Body(a) + [prev]
  {
    AuditExport.NamesArePlain(a.event);
    Text.DecIsPlain(a.timestamp);
    Text.SplitJoin(Body(a) + [prev], '\n');
  }

  /** The body of a plain record is its six columns, or five when it has no actor. */
  lemma BodyTells(a: Activity, b: Activity)
    requires AuditExport.Carried(a) && AuditExport.Carried(b) && Body(a) == Body(b)
    ensures Unlinked(a) == Unlinked(b)
  {
    var x, y := Body(a), Body(b);
    assert x[0] == a.id && x[1] == EventName(a.event) && x[2] == a.nodeId.GetOr("") && x[3] == a.taskId.GetOr("");
    assert y[0] == b.id && y[1] == EventName(b.event) && y[2] == b.nodeId.GetOr("") && y[3] == b.taskId.GetOr("");
    assert |x| == (if a.actor.Some? then 6 else 5) && |y| == if b.actor.Some? then 6 else 5;
    assert x[|x| - 1] == Text.Dec(a.timestamp) && y[|y| - 1] == Text.Dec(b.timestamp);
    assert a.actor.Some? ==> x[4] == a.actor.value && y[4] == b.actor.value;
    EventTells(a.event, b.event);
    NameTells(a.nodeId, b.nodeId);
    NameTells(a.taskId, b.taskId);
    StampTells(a.timestamp, b.timestamp);
  }

  /** Equal texts of plain records come from equal records and equal previous hashes. */
  lemma TextTells(a: Activity, p: string, b: Activity, q: string)
    requires AuditExport.Carried(a) && AuditExport.Carried(b) && Text.Lacks(p, '\n') && Text.Lacks(q, '\n')
    requires Canonical(a, p) == Canonical(b, q)
    ensures Unlinked(a) == Unlinked(b) && p == q
  {
    CanonicalNamesPrevious(a, p, b, q);
    LinesOfText(a, p);
    LinesOfText(b, q);
    assert (Body(a) + [p])[..|Body(a)|] == Body(a) && (Body(b) + [q])[..|Body(b)|] == Body(b);
    BodyTells(a, b);
  }

  /** Every record is one the program writes: plain names and a known event. */
  predicate AllCarried(log: seq<Activity>) {
    forall i :: 0 <= i < |log| ==> AuditExport.Carried(log[i])
  }

  /** The logs hold the same records, apart from the links they carry. */
  predicate SameRecords(a: seq<Activity>, b: seq<Activity>) {
    |a| == |b| && forall i :: 0 <= i < |a| ==> Unlinked(a[i]) == Unlinked(b[i])
  }

  lemma TextsTell(h: Hash, a: seq<Activity>, b: seq<Activity>)
    requires (forall text :: IsDigest(h(text))) && AllCarried(a) && AllCarried(b) && SameTexts(h, a, b)
    ensures SameRecords(a, b)
  {
    forall i | 0 <= i < |a| ensures Unlinked(a[i]) == Unlinked(b[i]) {
      TipIsDigest(h, a[..i]);
      TipIsDigest(h, b[..i]);
      assert TextAt(h, a, i) == TextAt(h, b, i);
      TextTells(a[i], Tip(ActivityHash(h), a[..i]), b[i], Tip(ActivityHash(h), b[..i]));
    }
  }

  /** Two logs of the program's own records under one tip hold the same records, or the hash collides. */
  lemma TipBindsRecords(h: Hash, a: seq<Activity>, b: seq<Activity>)
    requires (forall text :: IsDigest(h(text))) && AllCarried(a) && AllCarried(b)
    requires Tip(ActivityHash(h), a) == Tip(ActivityHash(h), b)
    ensures SameRecords(a, b) || Collision(h, a, b)
  {
    TipBinds(h, a, b);
    if SameTexts(h, a, b) { TextsTell(h, a, b); }
  }

  /**
   * Two logs of the program's own records that the check on load accepts, and
   * whose last records carry the same hash, hold the same records, or the hash
   * collides on two of their texts.
   */
  lemma ChainBindsRecords(h: Hash, a: seq<Activity>, b: seq<Activity>)
    requires (forall text :: IsDigest(h(text))) && AllCarried(a) && AllCarried(b)
    requires ChainValid(ActivityHash(h), a) && ChainValid(ActivityHash(h), b) && a != [] && b != []
    requires a[|a| - 1].hash == b[|b| - 1].hash != ""
    ensures SameRecords(a, b) || Collision(h, a, b)
  {
    ChainBinds(h, a, b);
    if SameTexts(h, a, b) { TextsTell(h, a, b); }
  }

  /**
   * An archive that passes the shell's check and ends in the hash a log is
   * known to end in holds that log's records, whoever served it; or the hash
   * collides on two of their texts.
   */
  lemma ArchiveBindsRecords(h: Hash, log: seq<Activity>, records: seq<Activity>)
    requires (forall text :: IsDigest(h(text))) && AllCarried(log)
    requires forall i :: 0 <= i < |records| ==> AuditExport.Checkable(records[i])
    requires AuditExport.LinkedUpTo(h, records, |records|)
    requires AuditExport.Expected(records, "GENESIS", |records|) == Tip(ActivityHash(h), log)
    ensures SameRecords(log, records) || Collision(h, log, records)
  {
    AuditExport.PassesExactlyWhenSealed(h, records);
    TipBindsRecords(h, log, records);
  }
}
