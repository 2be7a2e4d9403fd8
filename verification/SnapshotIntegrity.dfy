/** A start never loads a snapshot whose audit log was altered. */
module SnapshotIntegrity {
  import opened Records
  import opened Text
  import opened AuditChain
  import opened AuditBinding
  import AuditExport
  import opened SnapshotLines
  import opened Snapshot

  /** A log as a line-by-line editor of the snapshot could leave it: records of plain names, numbers in their words. */
  ghost predicate Readable(log: seq<Activity>) {
    AllCarried(log) && forall i :: 0 <= i < |log| ==> log[i].timestamp <= U64_MAX
  }

  /** The snapshot of a store, with these records in place of its audit log. */
  function Altered(link: Link, s: Store, log: seq<Activity>): string {
    Unlines([MAGIC] + Assembled(Written(link, s).(audit := Map(ActivityLine, log))))
  }

  lemma AlteredYields(link: Link, s: Store, log: seq<Activity>, now: nat)
    requires Storable(s) && Readable(log)
    ensures var p := Written(link, s).(audit := Map(ActivityLine, log));
      AllYieldEach(LineReader(now), p, Reload(link, s).(audit := log)) && AllData(p)
  {
    WrittenYields(link, s, now);
    WrittenLinesAreData(link, s);
    forall i | 0 <= i < |log| ensures Named(log[i].event) && DataLine(ActivityLine(log[i])) {
      KnownEventsAreNamed(log[i].event);
      ActivityLineIsData(log[i]);
    }
    AuditYields(log);
  }

  /** An altered snapshot is loaded, with the altered log, exactly when every hash in that log is right. */
  lemma AlteredLoadsExactlyWhenIntact(link: Link, s: Store, log: seq<Activity>, now: nat)
    requires Storable(s) && Readable(log)
    ensures Parse(link, LineReader(now), Altered(link, s, log)) ==
            if Intact(link, log) then Some(Reload(link, s).(audit := log)) else None
  {
    AlteredYields(link, s, log, now);
    EachLoadsExactlyWhenIntact(link, LineReader(now), Written(link, s).(audit := Map(ActivityLine, log)),
                               Reload(link, s).(audit := log));
  }

  /** A log whose hashes are right, and whose last one is the sealed log's, holds the same records; or texts collide. */
  lemma IntactIsTheSame(h: Hash, log: seq<Activity>, other: seq<Activity>)
    requires (forall text :: IsDigest(h(text))) && AllCarried(log) && AllCarried(other) && log != [] && other != []
    requires other[|other| - 1].hash == Seal(ActivityHash(h), log)[|log| - 1].hash
    requires Intact(ActivityHash(h), other)
    ensures SameRecords(log, other) || Collision(h, Seal(ActivityHash(h), log), other)
  {
    SealedBinds(h, log);
    IntactIsBound(h, log, Seal(ActivityHash(h), log), other);
  }

  lemma IntactIsBound(h: Hash, log: seq<Activity>, known: seq<Activity>, other: seq<Activity>)
    requires (forall text :: IsDigest(h(text))) && AllCarried(known) && AllCarried(other) && known != [] && other != []
    requires other[|other| - 1].hash == known[|known| - 1].hash != "" && ChainValid(ActivityHash(h), known)
    requires Intact(ActivityHash(h), other) && known == Seal(ActivityHash(h), log)
    ensures SameRecords(log, other) || Collision(h, known, other)
  {
    ValidIsIntact(ActivityHash(h), other);
    ChainBindsRecords(h, known, other);
    if SameRecords(known, other) { SealedTheSame(ActivityHash(h), log, other); }
  }

  lemma SealedBinds(h: Hash, log: seq<Activity>)
    requires (forall text :: IsDigest(h(text))) && AllCarried(log) && log != []
    ensures var sealed := Seal(ActivityHash(h), log);
      ChainValid(ActivityHash(h), sealed) && AllCarried(sealed) && sealed[|log| - 1].hash != ""
  {
    ActivityHashReadsBodyOnly(h);
    SealedLogIsValid(ActivityHash(h), log);
    SealedIsCarried(ActivityHash(h), log);
    LastHashIsDigest(h, log);
  }

  /**
   * A saved snapshot whose audit log was altered, in any record or by leaving
   * records out, adding or exchanging them, but whose last hash was left in
   * place, is refused, or two texts under the hash collide.
   */
  lemma AlteredIsRefused(h: Hash, s: Store, log: seq<Activity>, now: nat)
    requires (forall text :: IsDigest(h(text))) && Storable(s) && AllCarried(s.audit) && Readable(log)
    requires s.audit != [] && log != []
    requires log[|log| - 1].hash == Seal(ActivityHash(h), s.audit)[|s.audit| - 1].hash
    requires !SameRecords(s.audit, log)
    ensures Parse(ActivityHash(h), LineReader(now), Altered(ActivityHash(h), s, log)) == None ||
            Collision(h, Seal(ActivityHash(h), s.audit), log)
  {
    AlteredLoadsExactlyWhenIntact(ActivityHash(h), s, log, now);
    if Intact(ActivityHash(h), log) { IntactIsTheSame(h, s.audit, log); }
  }

  lemma SealedIsCarried(link: Link, log: seq<Activity>)
    requires AllCarried(log)
    ensures AllCarried(Seal(link, log))
  {
    forall i | 0 <= i < |log| ensures AuditExport.Carried(Seal(link, log)[i]) {
      SealLinks(link, log, i);
      assert AuditExport.Carried(log[i]);
    }
  }

  lemma LastHashIsDigest(h: Hash, log: seq<Activity>)
    requires (forall text :: IsDigest(h(text))) && log != []
    ensures Seal(ActivityHash(h), log)[|log| - 1].hash != ""
  {
    SealLinks(ActivityHash(h), log, |log| - 1);
    var a := Seal(ActivityHash(h), log)[|log| - 1];
    assert IsDigest(h(Canonical(log[|log| - 1], a.prevHash)));
  }

  lemma SealedTheSame(link: Link, log: seq<Activity>, other: seq<Activity>)
    requires SameRecords(Seal(link, log), other)
    ensures SameRecords(log, other)
  {
    forall i | 0 <= i < |log| ensures Unlinked(log[i]) == Unlinked(other[i]) {
      SealLinks(link, log, i);
      assert Unlinked(Seal(link, log)[i]) == Unlinked(other[i]);
    }
  }
}
