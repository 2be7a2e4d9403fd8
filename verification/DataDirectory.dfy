/**
 * The file backend: the order in which a save replaces the files of the data
 * directory, every state the directory passes through on the way, and what a
 * start from any of them loads.
 */
module DataDirectory {
  import opened Records
  import opened Text
  import opened AuditChain
  import opened SnapshotLines
  import opened Snapshot
  import AuditBinding
  import SnapshotIntegrity
  import Utf8

  type Bytes = seq<Utf8.byte>

  /** The files of the directory, and the temporary file each is written through. */
  datatype Doc = NodesTsv | TasksTsv | StoreSnapshot | StoreBackup | GrantsTsv | ApprovalsTsv | AuditJsonl

  datatype Name = Final(doc: Doc) | Temporary(doc: Doc)

  type Files = map<Name, Bytes>

  /** The store key, when there is one: sealing with a nonce, and opening. */
  datatype Vault = Vault(seal: (Bytes, nat) -> Bytes, open: Bytes -> Option<Bytes>)

  /** "NWENC1". */
  const STORE_MAGIC: Bytes := [0x4E, 0x57, 0x45, 0x4E, 0x43, 0x31]

  /** Opening undoes sealing, and sealed bytes carry the magic. */
  ghost predicate Sound(key: Option<Vault>) {
    key.Some? ==> forall b: Bytes, nonce: nat ::
      STORE_MAGIC <= key.value.seal(b, nonce) && key.value.open(key.value.seal(b, nonce)) == Some(b)
  }

  /** What `atomic_write` puts in a file. */
  function Encoded(key: Option<Vault>, contents: string, nonce: nat): Bytes {
    var bytes := Utf8.Encode(contents);
    if key.Some? then key.value.seal(bytes, nonce) else bytes
  }

  /** The plaintext of a file. */
  function Opened(key: Option<Vault>, bytes: Bytes): Option<Bytes> {
    if !(STORE_MAGIC <= bytes) then Some(bytes) else if key.Some? then key.value.open(bytes) else None
  }

  /** `read_store_text`. */
  function TextOf(key: Option<Vault>, bytes: Bytes): Option<string> {
    match Opened(key, bytes)
    case None => None
    case Some(plain) => Utf8.Decode(plain)
  }

  /** The files a start reads; it never looks at a temporary one. */
  function Finals(files: Files): map<Doc, Bytes> {
    map d: Doc | Final(d) in files :: files[Final(d)]
  }

  /** `load_store` from its snapshot: `None` when it has to fall back to the separate files. */
  function Load(key: Option<Vault>, link: Link, r: Reader, finals: map<Doc, Bytes>): Option<Store> {
    if StoreSnapshot !in finals then None
    else
      match TextOf(key, finals[StoreSnapshot])
      case None => None
      case Some(text) => Parse(link, r, text)
  }

  /** The snapshot file is as it was. */
  predicate SnapshotKept(was: map<Doc, Bytes>, got: map<Doc, Bytes>) {
    (StoreSnapshot in got <==> StoreSnapshot in was) &&
    (StoreSnapshot in was ==> got[StoreSnapshot] == was[StoreSnapshot])
  }

  /** The new snapshot is in place, and the one it replaced, if any, is whole in the backup. */
  predicate SnapshotReplaced(key: Option<Vault>, was: map<Doc, Bytes>, got: map<Doc, Bytes>, bytes: Bytes) {
    StoreSnapshot in got && got[StoreSnapshot] == bytes &&
    (StoreSnapshot in was ==>
       StoreBackup in got && Opened(key, got[StoreBackup]) == Opened(key, was[StoreSnapshot]) &&
       (key.Some? ==> IsSealed(got[StoreBackup])))
  }

  /** The bytes start with "NWENC1", as sealed ones do. */
  predicate IsSealed(bytes: Bytes) {
    |bytes| >= 6 && bytes[..6] == [0x4E, 0x57, 0x45, 0x4E, 0x43, 0x31]
  }

  class Directory {
    const key: Option<Vault>
    var files: Files
    /** Every state the directory has been in, oldest first: a crash leaves one of them. */
    ghost var passed: seq<Files>

    constructor (key: Option<Vault>, files: Files)
      ensures this.key == key && this.files == files && Valid()
    {
      this.key, this.files, this.passed := key, files, [files];
    }

    ghost predicate Valid()
      reads this
    {
      passed != [] && passed[|passed| - 1] == files
    }

    /** Creates or overwrites a temporary file; a start would not notice. */
    method Put(doc: Doc, bytes: Bytes)
      modifies this
      ensures files == old(files)[Temporary(doc) := bytes] && passed == old(passed) + [files]
      ensures Finals(files) == Finals(old(files))
    {
      files := files[Temporary(doc) := bytes];
      passed := passed + [files];
    }

    /** The temporary file is created, partly written, and written. */
    method WriteTemporary(doc: Doc, bytes: Bytes, torn: Bytes)
      modifies this
      ensures |passed| == |old(passed)| + 3 && old(passed) <= passed
      ensures Temporary(doc) in files && files[Temporary(doc)] == bytes && Finals(files) == Finals(old(files))
      ensures forall i :: |old(passed)| <= i < |passed| ==> Finals(passed[i]) == Finals(old(files))
    {
      Put(doc, []);
      ghost var empty := files;
      Put(doc, torn);
      ghost var partly := files;
      Put(doc, bytes);
      assert passed == old(passed) + [empty, partly, files];
    }

    method Rename(doc: Doc)
      requires Temporary(doc) in files
      modifies this
      ensures Finals(files) == Finals(old(files))[doc := old(files)[Temporary(doc)]]
      ensures passed == old(passed) + [files]
    {
      files := (files - {Temporary(doc)})[Final(doc) := files[Temporary(doc)]];
      passed := passed + [files];
    }

    /**
     * `atomic_write`: create the temporary file, write it, which may leave any
     * `torn` bytes there on the way, and rename it into place. The files a
     * start reads change in the last step only, and only at `doc`.
     */
    method AtomicWrite(doc: Doc, bytes: Bytes, torn: Bytes)
      requires Valid()
      modifies this
      ensures Valid() && |passed| == |old(passed)| + 4 && old(passed) <= passed
      ensures Finals(files) == Finals(old(files))[doc := bytes]
      ensures forall i :: |old(passed)| <= i < |passed| - 1 ==> Finals(passed[i]) == Finals(old(files))
    {
      WriteTemporary(doc, bytes, torn);
      Rename(doc);
    }

    /** The bytes kept in the backup: the snapshot as it is, sealed first when a key is set and it is not. */
    method BackupBytes(existing: Bytes, nonce: nat) returns (bytes: Bytes)
      requires Sound(key)
      ensures Opened(key, bytes) == Opened(key, existing) && (key.Some? ==> IsSealed(bytes))
    {
      bytes := if key.Some? && !(STORE_MAGIC <= existing) then key.value.seal(existing, nonce) else existing;
    }

    /** `atomic_write_with_backup` of the snapshot. */
    method ReplaceSnapshot(bytes: Bytes, torn: Doc -> Bytes, nonces: Doc -> nat) returns (ghost pivot: nat)
      requires Valid() && Sound(key)
      modifies this
      ensures Valid() && old(passed) <= passed && |old(passed)| <= pivot < |passed|
      ensures forall i :: |old(passed)| <= i < pivot ==> SnapshotKept(Finals(old(files)), Finals(passed[i]))
      ensures forall i :: pivot <= i < |passed| ==>
        SnapshotReplaced(key, Finals(old(files)), Finals(passed[i]), bytes)
      ensures SameBefore(Finals(old(files)), Finals(files))
    {
      if Final(StoreSnapshot) in files {
        var backup := BackupBytes(files[Final(StoreSnapshot)], nonces(StoreBackup));
        AtomicWrite(StoreBackup, backup, torn(StoreBackup));
      }
      AtomicWrite(StoreSnapshot, bytes, torn(StoreSnapshot));
      pivot := |passed| - 1;
    }

    /** A write of another file leaves the snapshot and the backup alone in every state on the way. */
    method WriteBeside(doc: Doc, contents: string, torn: Doc -> Bytes, nonces: Doc -> nat)
      requires Valid() && doc != StoreSnapshot && doc != StoreBackup
      modifies this
      ensures Valid() && old(passed) <= passed
      ensures SameSince(Finals(old(files)), passed, |old(passed)|) && SameStores(Finals(old(files)), Finals(files))
      ensures Finals(files) == Finals(old(files))[doc := Encoded(key, contents, nonces(doc))]
    {
      var bytes := Encoded(key, contents, nonces(doc));
      AtomicWrite(doc, bytes, torn(doc));
      OtherFile(Finals(old(files)), passed, |old(passed)|, doc, bytes);
    }

    /** The files written before the snapshot. */
    method WriteBefore(p: Sections, torn: Doc -> Bytes, nonces: Doc -> nat)
      requires Valid()
      modifies this
      ensures Valid() && old(passed) <= passed
      ensures SameSince(Finals(old(files)), passed, |old(passed)|) && SameStores(Finals(old(files)), Finals(files))
      ensures Holds(key, nonces, Finals(files), NodesTsv, Unlines(p.nodes))
      ensures Holds(key, nonces, Finals(files), TasksTsv, Unlines(p.tasks))
    {
      WriteBeside(NodesTsv, Unlines(p.nodes), torn, nonces);
      ghost var first, since := Finals(files), passed;
      WriteBeside(TasksTsv, Unlines(p.tasks), torn, nonces);
      SameStill(Finals(old(files)), first, since, passed, |old(passed)|);
    }

    /** The files written after it. */
    method WriteAfter(p: Sections, torn: Doc -> Bytes, nonces: Doc -> nat)
      requires Valid()
      modifies this
      ensures Valid() && old(passed) <= passed
      ensures SameSince(Finals(old(files)), passed, |old(passed)|) && SameStores(Finals(old(files)), Finals(files))
      ensures SameBefore(Finals(old(files)), Finals(files))
      ensures Holds(key, nonces, Finals(files), GrantsTsv, Unlines(p.grants))
      ensures Holds(key, nonces, Finals(files), ApprovalsTsv, Unlines(p.approvals))
      ensures Holds(key, nonces, Finals(files), AuditJsonl, Unlines(p.audit))
    {
      WriteBeside(GrantsTsv, Unlines(p.grants), torn, nonces);
      ghost var first, since := Finals(files), passed;
      WriteBeside(ApprovalsTsv, Unlines(p.approvals), torn, nonces);
      SameStill(Finals(old(files)), first, since, passed, |old(passed)|);
      first, since := Finals(files), passed;
      WriteBeside(AuditJsonl, Unlines(p.audit), torn, nonces);
      SameStill(Finals(old(files)), first, since, passed, |old(passed)|);
      AfterThree(key, nonces, Finals(old(files)), Unlines(p.grants), Unlines(p.approvals), Unlines(p.audit));
    }

    /** As `Persist`; and in the end each section is in its own file as well. */
    method PersistAll(p: Sections, snapshot: string, torn: Doc -> Bytes, nonces: Doc -> nat) returns (ghost pivot: nat)
      requires Valid() && Sound(key)
      modifies this
      ensures Valid() && old(passed) <= passed && |old(passed)| <= pivot < |passed|
      ensures forall i :: |old(passed)| <= i < pivot ==> SnapshotKept(Finals(old(files)), Finals(passed[i]))
      ensures forall i :: pivot <= i < |passed| ==>
        SnapshotReplaced(key, Finals(old(files)), Finals(passed[i]), Encoded(key, snapshot, nonces(StoreSnapshot)))
      ensures HoldsAll(key, nonces, Finals(files), p, snapshot)
    {
      WriteBefore(p, torn, nonces);
      ghost var before := Finals(files);
      pivot := ReplaceSnapshot(Encoded(key, snapshot, nonces(StoreSnapshot)), torn, nonces);
      ghost var replaced := Finals(files);
      WriteAfter(p, torn, nonces);
      StillHolds(key, nonces, before, replaced, Finals(files), NodesTsv, Unlines(p.nodes));
      StillHolds(key, nonces, before, replaced, Finals(files), TasksTsv, Unlines(p.tasks));
      SnapshotStillHolds(key, nonces, replaced, Finals(files), snapshot);
    }

    /**
     * `persist_snapshot`. In every state the directory passes through, the
     * snapshot is the old one until one moment and the new one from then on;
     * and from that moment the old one, if any, is in the backup.
     */
    method Persist(p: Sections, snapshot: string, torn: Doc -> Bytes, nonces: Doc -> nat) returns (ghost pivot: nat)
      requires Valid() && Sound(key)
      modifies this
      ensures Valid() && old(passed) <= passed && |old(passed)| <= pivot < |passed|
      ensures forall i :: |old(passed)| <= i < pivot ==> SnapshotKept(Finals(old(files)), Finals(passed[i]))
      ensures forall i :: pivot <= i < |passed| ==>
        SnapshotReplaced(key, Finals(old(files)), Finals(passed[i]), Encoded(key, snapshot, nonces(StoreSnapshot)))
    {
      pivot := PersistAll(p, snapshot, torn, nonces);
    }

    /**
     * Crash safety: whenever the save stops, a start from the state it leaves
     * loads what it would have loaded before or the new store, never a mixture,
     * and once it loads the new one it keeps doing so. From that moment the
     * store it replaced is whole in the backup.
     */
    method PersistSafely(
      link: Link, s: Store, torn: Doc -> Bytes, nonces: Doc -> nat, now: nat, ghost was: Option<Store>)
      returns (ghost pivot: nat)
      requires Valid() && Sound(key) && ReadsBodyOnly(link) && Storable(s)
      requires Load(key, link, LineReader(now), Finals(files)) == was
      modifies this
      ensures Valid() && old(passed) <= passed && |old(passed)| <= pivot < |passed|
      ensures forall i :: |old(passed)| <= i < pivot ==> Load(key, link, LineReader(now), Finals(passed[i])) == was
      ensures forall i :: pivot <= i < |passed| ==>
        Load(key, link, LineReader(now), Finals(passed[i])) == Some(Reload(link, s))
      ensures was.Some? ==> forall i :: pivot <= i < |passed| ==>
        BackedUp(key, link, LineReader(now), Finals(passed[i])) == was
    {
      pivot := Persist(Written(link, s), Print(link, s), torn, nonces);
      forall i | |old(passed)| <= i < pivot ensures Load(key, link, LineReader(now), Finals(passed[i])) == was {
        assert SnapshotKept(Finals(old(files)), Finals(passed[i]));
      }
      forall i | pivot <= i < |passed|
        ensures Load(key, link, LineReader(now), Finals(passed[i])) == Some(Reload(link, s))
        ensures was.Some? ==> BackedUp(key, link, LineReader(now), Finals(passed[i])) == was
      {
        var bytes := Encoded(key, Print(link, s), nonces(StoreSnapshot));
        assert SnapshotReplaced(key, Finals(old(files)), Finals(passed[i]), bytes);
        LoadsWhatWasSaved(key, link, s, nonces(StoreSnapshot), now, Finals(passed[i]));
      }
    }
  }

  /** Both store files are as they were. */
  predicate SameStores(was: map<Doc, Bytes>, got: map<Doc, Bytes>) {
    SnapshotKept(was, got) && (StoreBackup in got <==> StoreBackup in was) &&
    (StoreBackup in was ==> got[StoreBackup] == was[StoreBackup])
  }

  /** The file says this text, sealed when there is a key. */
  ghost predicate Holds(key: Option<Vault>, nonces: Doc -> nat, finals: map<Doc, Bytes>, doc: Doc, text: string) {
    doc in finals &&
    finals[doc] == if key.Some? then key.value.seal(Utf8.Encode(text), nonces(doc)) else Utf8.Encode(text)
  }

  /** The snapshot, and each of its sections in its own file. */
  ghost predicate HoldsAll(
    key: Option<Vault>, nonces: Doc -> nat, finals: map<Doc, Bytes>, p: Sections, snapshot: string) {
    Holds(key, nonces, finals, StoreSnapshot, snapshot) &&
    Holds(key, nonces, finals, NodesTsv, Unlines(p.nodes)) && Holds(key, nonces, finals, TasksTsv, Unlines(p.tasks)) &&
    Holds(key, nonces, finals, GrantsTsv, Unlines(p.grants)) &&
    Holds(key, nonces, finals, ApprovalsTsv, Unlines(p.approvals)) &&
    Holds(key, nonces, finals, AuditJsonl, Unlines(p.audit))
  }

  /** The files written before the snapshot. */
  predicate Before(doc: Doc) {
    doc == NodesTsv || doc == TasksTsv
  }

  /** Those files are as they were. */
  ghost predicate SameBefore(was: map<Doc, Bytes>, got: map<Doc, Bytes>) {
    forall doc: Doc :: Before(doc) ==> (doc in got <==> doc in was) && (doc in was ==> got[doc] == was[doc])
  }

  lemma StillHolds(
    key: Option<Vault>, nonces: Doc -> nat, was: map<Doc, Bytes>, mid: map<Doc, Bytes>, got: map<Doc, Bytes>,
    doc: Doc, text: string)
    requires Holds(key, nonces, was, doc, text) && SameBefore(was, mid) && SameBefore(mid, got) && Before(doc)
    ensures Holds(key, nonces, got, doc, text)
  {
  }

  lemma AfterThree(
    key: Option<Vault>, nonces: Doc -> nat, was: map<Doc, Bytes>, grants: string, approvals: string, audit: string)
    ensures var got := was[GrantsTsv := Encoded(key, grants, nonces(GrantsTsv))][
                           ApprovalsTsv := Encoded(key, approvals, nonces(ApprovalsTsv))][
                           AuditJsonl := Encoded(key, audit, nonces(AuditJsonl))];
      SameBefore(was, got) && SameStores(was, got) && Holds(key, nonces, got, GrantsTsv, grants) &&
      Holds(key, nonces, got, ApprovalsTsv, approvals) && Holds(key, nonces, got, AuditJsonl, audit)
  {
  }

  lemma SnapshotStillHolds(
    key: Option<Vault>, nonces: Doc -> nat, was: map<Doc, Bytes>, got: map<Doc, Bytes>, snapshot: string)
    requires StoreSnapshot in was && was[StoreSnapshot] == Encoded(key, snapshot, nonces(StoreSnapshot))
    requires SameStores(was, got)
    ensures Holds(key, nonces, got, StoreSnapshot, snapshot)
  {
  }

  lemma OneFile(was: map<Doc, Bytes>, got: map<Doc, Bytes>, doc: Doc, bytes: Bytes)
    requires doc != StoreSnapshot && doc != StoreBackup && (got == was || got == was[doc := bytes])
    ensures SameStores(was, got)
  {
  }

  /** States in which only another file changes, and only in the last one. */
  lemma OtherFile(was: map<Doc, Bytes>, passed: seq<Files>, from: nat, doc: Doc, bytes: Bytes)
    requires doc != StoreSnapshot && doc != StoreBackup && from < |passed|
    requires forall i :: from <= i < |passed| - 1 ==> Finals(passed[i]) == was
    requires Finals(passed[|passed| - 1]) == was[doc := bytes]
    ensures SameSince(was, passed, from) && SameStores(was, Finals(passed[|passed| - 1]))
  {
    forall i | from <= i < |passed| ensures SameStores(was, Finals(passed[i])) {
      OneFile(was, Finals(passed[i]), doc, bytes);
    }
  }

  /** Both store files are as they were in every state from number `from` on. */
  ghost predicate SameSince(was: map<Doc, Bytes>, passed: seq<Files>, from: nat) {
    forall i :: from <= i < |passed| ==> SameStores(was, Finals(passed[i]))
  }

  lemma SameStill(was: map<Doc, Bytes>, now: map<Doc, Bytes>, passed: seq<Files>, longer: seq<Files>, from: nat)
    requires SameSince(was, passed, from) && SameStores(was, now) && SameSince(now, longer, |passed|)
    requires passed <= longer
    ensures SameSince(was, longer, from)
  {
    forall i | from <= i < |longer| ensures SameStores(was, Finals(longer[i])) {
      assert i < |passed| ==> longer[i] == passed[i];
    }
  }

  /** What an operator gets by putting the backup in the snapshot's place. */
  function BackedUp(key: Option<Vault>, link: Link, r: Reader, finals: map<Doc, Bytes>): Option<Store> {
    if StoreBackup !in finals then None else Load(key, link, r, finals[StoreSnapshot := finals[StoreBackup]])
  }

  /** A snapshot is never mistaken for sealed bytes. */
  lemma SnapshotLacksMagic(lines: seq<string>)
    ensures !(STORE_MAGIC <= Utf8.Encode(Unlines([MAGIC] + lines)))
  {
    var text := Unlines([MAGIC] + lines);
    assert text == MAGIC + "\n" + Unlines(lines) by { assert ([MAGIC] + lines)[1..] == lines; }
    assert text[0] == 'N' && text[1] == 'O' && text[1..][0] == 'O';
    assert Utf8.Encode(text) == [0x4E] + Utf8.Encode(text[1..]);
    assert Utf8.Encode(text[1..])[0] == 0x4F;
    assert Utf8.Encode(text)[1] == 0x4F;
  }

  /** A snapshot file, sealed or plain, is read as the text that was put into it. */
  lemma LoadsWhatItSays(
    key: Option<Vault>, link: Link, r: Reader, lines: seq<string>, nonce: nat, finals: map<Doc, Bytes>)
    requires Sound(key) && StoreSnapshot in finals
    requires finals[StoreSnapshot] == Encoded(key, Unlines([MAGIC] + lines), nonce)
    ensures Load(key, link, r, finals) == Parse(link, r, Unlines([MAGIC] + lines))
  {
    SnapshotLacksMagic(lines);
    Utf8.DecodeEncode(Unlines([MAGIC] + lines));
  }

  /** Whatever the files hold, a start loads no store from a snapshot whose audit log has a wrong hash. */
  lemma LoadsOnlyIntact(key: Option<Vault>, link: Link, r: Reader, finals: map<Doc, Bytes>)
    ensures var s := Load(key, link, r, finals); s.Some? ==> Intact(link, s.value.audit)
  {
    var s := Load(key, link, r, finals);
    if s.Some? { ValidIsIntact(link, s.value.audit); }
  }

  /** Nor does it load sealed bytes without a key, or any that the key does not open. */
  lemma SealedNeedsItsKey(key: Option<Vault>, link: Link, r: Reader, finals: map<Doc, Bytes>)
    requires StoreSnapshot in finals && [0x4E, 0x57, 0x45, 0x4E, 0x43, 0x31] <= finals[StoreSnapshot]
    requires key.Some? ==> key.value.open(finals[StoreSnapshot]) == None
    ensures Load(key, link, r, finals) == None
  {
  }

  /**
   * A saved snapshot file in which the audit log was altered, but whose last
   * hash was left in place, is not loaded, or two texts under the hash collide.
   */
  lemma AlteredIsNotLoaded(
    key: Option<Vault>, h: Hash, s: Store, log: seq<Activity>, nonce: nat, now: nat, finals: map<Doc, Bytes>)
    requires Sound(key) && (forall text :: IsDigest(h(text))) && Storable(s)
    requires AuditBinding.AllCarried(s.audit) && SnapshotIntegrity.Readable(log) && s.audit != [] && log != []
    requires log[|log| - 1].hash == Seal(ActivityHash(h), s.audit)[|s.audit| - 1].hash
    requires !AuditBinding.SameRecords(s.audit, log)
    requires StoreSnapshot in finals
    requires finals[StoreSnapshot] == Encoded(key, SnapshotIntegrity.Altered(ActivityHash(h), s, log), nonce)
    ensures Load(key, ActivityHash(h), LineReader(now), finals) == None ||
            Collision(h, Seal(ActivityHash(h), s.audit), log)
  {
    LoadsWhatItSays(key, ActivityHash(h), LineReader(now),
                    Assembled(Written(ActivityHash(h), s).(audit := Map(ActivityLine, log))), nonce, finals);
    SnapshotIntegrity.AlteredIsRefused(h, s, log, now);
  }

  lemma LoadsWhatWasSaved(
    key: Option<Vault>, link: Link, s: Store, nonce: nat, now: nat, finals: map<Doc, Bytes>)
    requires Sound(key) && ReadsBodyOnly(link) && Storable(s)
    requires StoreSnapshot in finals && finals[StoreSnapshot] == Encoded(key, Print(link, s), nonce)
    ensures Load(key, link, LineReader(now), finals) == Some(Reload(link, s))
  {
    RoundTrip(link, s, now);
    LoadsWhatItSays(key, link, LineReader(now), Assembled(Written(link, s)), nonce, finals);
  }
}
