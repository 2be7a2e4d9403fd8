/** The audit log's hash chain: how records are sealed, checked on load, and what an accepted chain binds. */
module AuditChain {
  import opened Records
  import Text

  /** SHA-256 in hex, as a function of text. */
  type Hash = string -> string

  const GENESIS: string := "GENESIS"

  /** A digest is 64 lower-case hexadecimal characters. */
  predicate IsDigest(s: string) {
    |s| == 64 && forall i :: 0 <= i < |s| ==> '0' <= s[i] <= '9' || 'a' <= s[i] <= 'f'
  }

  function EventName(e: Event): string {
    match e
    case NodeCreated => "node.created"
    case NodeRevoked => "node.revoked"
    case NodeHeartbeat => "node.heartbeat"
    case CredentialRotated => "node.credential_rotated"
    case GrantCreated => "grant.created"
    case GrantRevoked => "grant.revoked"
    case GrantRedeemed => "grant.redeemed"
    case ApprovalCreated => "approval.created"
    case ApprovalConsumed => "approval.consumed"
    case TaskAccepted => "task.accepted"
    case PolicyAllowed => "policy.allowed"
    case TaskDispatched => "task.dispatched"
    case TaskCompleted => "task.completed"
    case TaskCancelled => "task.cancelled"
    case TaskCancelledByRevoke => "task.cancelled_by_node_revoke"
    case OtherEvent(name) => name
  }

  /** What a record says, apart from the chain: seven lines with the actor, six in records older than it. */
  function Body(a: Activity): (lines: seq<string>)
    ensures lines != []
  {
    [a.id, EventName(a.event), a.nodeId.GetOr(""), a.taskId.GetOr("")] +
    (if a.actor.Some? then [a.actor.value] else []) + [Text.Dec(a.timestamp)]
  }

  /** The text that is hashed: the body and the previous hash, one per line. */
  function Canonical(a: Activity, prev: string): string {
    Text.Join(Body(a) + [prev], '\n')
  }

  /** A record's hash, given the previous one. */
  type Link = (Activity, string) -> string

  /** `activity_hash`. */
  function ActivityHash(h: Hash): Link {
    (a: Activity, prev: string) => h(Canonical(a, prev))
  }

  /** The hash of the last record when the whole log is sealed in one pass from GENESIS. */
  function Tip(link: Link, log: seq<Activity>): string {
    if log == [] then GENESIS else link(log[|log| - 1], Tip(link, log[..|log| - 1]))
  }

  /** Record `i` with its links filled in. */
  function Sealed(link: Link, log: seq<Activity>, i: nat): Activity
    requires i < |log|
  {
    log[i].(prevHash := Tip(link, log[..i]), hash := Tip(link, log[..i + 1]))
  }

  /** The log with every record's links filled in. */
  function Seal(link: Link, log: seq<Activity>): seq<Activity> {
    seq(|log|, i requires 0 <= i < |log| => Sealed(link, log, i))
  }

  /** A record's links depend only on what precedes it. */
  lemma SealedOfPrefix(link: Link, log: seq<Activity>, n: nat)
    requires n <= |log|
    ensures forall i :: 0 <= i < n ==> Sealed(link, log[..n], i) == Sealed(link, log, i)
  {
    forall i | 0 <= i < n ensures Sealed(link, log[..n], i) == Sealed(link, log, i) {
      assert log[..n][..i] == log[..i] && log[..n][..i + 1] == log[..i + 1];
    }
  }

  lemma TipStep(link: Link, log: seq<Activity>, i: nat)
    requires i < |log|
    ensures Tip(link, log[..i + 1]) == link(log[i], Tip(link, log[..i]))
  {
    assert log[..i + 1][..i] == log[..i];
  }

  /**
   * `sealed_activity_json` starts over from GENESIS for every record it is
   * asked for; it returns the record exactly as one linear pass seals it, and
   * nothing for an index past the end.
   */
  method SealedRecord(link: Link, log: seq<Activity>, index: nat) returns (r: Option<Activity>)
    ensures r == if index < |log| then Some(Seal(link, log)[index]) else None
  {
    var previous := GENESIS;
    var current := 0;
    while current < |log|
      invariant current <= |log| && current <= index
      invariant previous == Tip(link, log[..current])
    {
      var hash := link(log[current], previous);
      TipStep(link, log, current);
      if current == index { return Some(log[current].(prevHash := previous, hash := hash)); }
      previous := hash;
      current := current + 1;
    }
    r := None;
  }

  /**
   * Sealing changes no record but for its links: each names the hash of the one
   * before it, the first one GENESIS, and carries its own hash under that name.
   */
  lemma SealLinks(link: Link, log: seq<Activity>, i: nat)
    requires i < |log|
    ensures var a := Seal(link, log)[i];
      a == log[i].(prevHash := a.prevHash, hash := a.hash) && a.hash == link(log[i], a.prevHash) &&
      a.prevHash == if i == 0 then "GENESIS" else Seal(link, log)[i - 1].hash
  {
    TipStep(link, log, i);
    assert i > 0 ==> log[..i - 1 + 1] == log[..i];
  }

  /** Appending records leaves every seal already given unchanged. */
  lemma SealIsStable(link: Link, log: seq<Activity>, more: seq<Activity>)
    ensures Seal(link, log + more)[..|log|] == Seal(link, log)
  {
    var longer := log + more;
    assert longer[..|log|] == log;
    SealedOfPrefix(link, longer, |log|);
    forall i | 0 <= i < |log| ensures Seal(link, longer)[i] == Seal(link, log)[i] {
      assert Seal(link, longer)[i] == Sealed(link, longer, i);
    }
  }

  /* ---- the check on load ---- */

  /** Every record that carries a hash carries the links of the linear pass; blank ones are let through. */
  predicate ChainValid(link: Link, log: seq<Activity>) {
    forall i :: 0 <= i < |log| && log[i].hash != "" ==> log[i] == Sealed(link, log, i)
  }

  /** `audit_chain_valid`: one pass that trusts a stored hash as the next link once it has checked it. */
  method AuditChainValid(link: Link, log: seq<Activity>) returns (ok: bool)
    ensures ok == ChainValid(link, log)
  {
    var previous := GENESIS;
    var i := 0;
    while i < |log|
      invariant i <= |log| && previous == Tip(link, log[..i])
      invariant forall j :: 0 <= j < i && log[j].hash != "" ==> log[j] == Sealed(link, log, j)
    {
      var expected := link(log[i], previous);
      TipStep(link, log, i);
      if log[i].hash != "" && (log[i].prevHash != previous || log[i].hash != expected) {
        assert log[i] != Sealed(link, log, i);
        return false;
      }
      previous := if log[i].hash == "" then expected else log[i].hash;
      i := i + 1;
    }
    ok := true;
  }

  function Unlinked(a: Activity): Activity {
    a.(prevHash := "", hash := "")
  }

  /** The link does not read the links a record already carries. */
  ghost predicate ReadsBodyOnly(link: Link) {
    forall a: Activity, b: Activity, p: string :: Unlinked(a) == Unlinked(b) ==> link(a, p) == link(b, p)
  }

  lemma ActivityHashReadsBodyOnly(h: Hash)
    ensures ReadsBodyOnly(ActivityHash(h))
  {
    forall a: Activity, b: Activity, p: string | Unlinked(a) == Unlinked(b)
      ensures ActivityHash(h)(a, p) == ActivityHash(h)(b, p)
    {
      assert a == b.(prevHash := a.prevHash, hash := a.hash);
      assert Canonical(a, p) == Canonical(b, p);
    }
  }

  lemma {:induction false} TipIgnoresLinks(link: Link, a: seq<Activity>, b: seq<Activity>)
    requires ReadsBodyOnly(link) && |a| == |b| && forall i :: 0 <= i < |a| ==> Unlinked(a[i]) == Unlinked(b[i])
    ensures Tip(link, a) == Tip(link, b)
  {
    if a != [] { TipIgnoresLinks(link, a[..|a| - 1], b[..|a| - 1]); }
  }

  lemma TipOfSealed(link: Link, log: seq<Activity>, n: nat)
    requires ReadsBodyOnly(link) && n <= |log|
    ensures Tip(link, Seal(link, log)[..n]) == Tip(link, log[..n])
  {
    var a, b := Seal(link, log)[..n], log[..n];
    forall i | 0 <= i < n ensures Unlinked(a[i]) == Unlinked(b[i]) {
      assert Seal(link, log)[i] == Sealed(link, log, i);
    }
    TipIgnoresLinks(link, a, b);
  }

  lemma SealedAgain(link: Link, log: seq<Activity>, i: nat)
    requires ReadsBodyOnly(link) && i < |log|
    ensures Sealed(link, Seal(link, log), i) == Sealed(link, log, i)
  {
    TipOfSealed(link, log, i);
    TipOfSealed(link, log, i + 1);
    assert Seal(link, log)[i] == Sealed(link, log, i);
  }

  /** A sealed log passes the check on load, and sealing it again changes nothing. */
  lemma SealedLogIsValid(link: Link, log: seq<Activity>)
    requires ReadsBodyOnly(link)
    ensures ChainValid(link, Seal(link, log)) && Seal(link, Seal(link, log)) == Seal(link, log)
  {
    forall i | 0 <= i < |log| ensures Sealed(link, Seal(link, log), i) == Seal(link, log)[i] {
      SealedAgain(link, log, i);
      assert Seal(link, log)[i] == Sealed(link, log, i);
    }
  }

  /* ---- what an accepted chain binds ---- */

  /** The text record `i` is hashed from. */
  function TextAt(h: Hash, log: seq<Activity>, i: nat): string
    requires i < |log|
  {
    Canonical(log[i], Tip(ActivityHash(h), log[..i]))
  }

  /** Two different texts, one from each log, that hash alike. */
  predicate Collision(h: Hash, a: seq<Activity>, b: seq<Activity>) {
    exists i, j :: 0 <= i < |a| && 0 <= j < |b| &&
      TextAt(h, a, i) != TextAt(h, b, j) && h(TextAt(h, a, i)) == h(TextAt(h, b, j))
  }

  /** The logs say the same thing at every position. */
  predicate SameTexts(h: Hash, a: seq<Activity>, b: seq<Activity>) {
    |a| == |b| && forall i :: 0 <= i < |a| ==> TextAt(h, a, i) == TextAt(h, b, i)
  }

  lemma TipIsDigest(h: Hash, log: seq<Activity>)
    requires forall text :: IsDigest(h(text))
    ensures Text.Lacks(Tip(ActivityHash(h), log), '\n') && (log == [] <==> Tip(ActivityHash(h), log) == GENESIS)
  {
    if log != [] {
      var text := Canonical(log[|log| - 1], Tip(ActivityHash(h), log[..|log| - 1]));
      assert IsDigest(h(text));
    }
  }

  /** Equal texts name equal previous hashes. */
  lemma CanonicalNamesPrevious(x: Activity, p: string, y: Activity, q: string)
    requires Text.Lacks(p, '\n') && Text.Lacks(q, '\n') && Canonical(x, p) == Canonical(y, q)
    ensures p == q
  {
    Text.JoinSnoc(Body(x), p, '\n');
    Text.JoinSnoc(Body(y), q, '\n');
    Text.LastPiece(Text.Join(Body(x), '\n'), p, Text.Join(Body(y), '\n'), q, '\n');
  }

  lemma TextAtPrefix(h: Hash, log: seq<Activity>, n: nat, i: nat)
    requires i < n <= |log|
    ensures TextAt(h, log[..n], i) == TextAt(h, log, i)
  {
    assert log[..n][..i] == log[..i];
  }

  /** Equal tips mean equal logs, text by text, unless the hash collides on texts of the two logs. */
  lemma {:induction false} TipBinds(h: Hash, a: seq<Activity>, b: seq<Activity>)
    requires (forall text :: IsDigest(h(text))) && Tip(ActivityHash(h), a) == Tip(ActivityHash(h), b)
    ensures SameTexts(h, a, b) || Collision(h, a, b)
  {
    TipIsDigest(h, a);
    TipIsDigest(h, b);
    if a != [] {
      var m, n := |a| - 1, |b| - 1;
      assert TextAt(h, a, m) == Canonical(a[m], Tip(ActivityHash(h), a[..m]));
      assert TextAt(h, b, n) == Canonical(b[n], Tip(ActivityHash(h), b[..n]));
      if TextAt(h, a, m) == TextAt(h, b, n) {
        TipIsDigest(h, a[..m]);
        TipIsDigest(h, b[..n]);
        CanonicalNamesPrevious(a[m], Tip(ActivityHash(h), a[..m]), b[n], Tip(ActivityHash(h), b[..n]));
        TipBinds(h, a[..m], b[..n]);
        PrefixBinds(h, a, b, m, n);
      } else {
        assert h(TextAt(h, a, m)) == h(TextAt(h, b, n));
      }
    }
  }

  lemma PrefixBinds(h: Hash, a: seq<Activity>, b: seq<Activity>, m: nat, n: nat)
    requires m == |a| - 1 && n == |b| - 1 && TextAt(h, a, m) == TextAt(h, b, n)
    requires SameTexts(h, a[..m], b[..n]) || Collision(h, a[..m], b[..n])
    ensures SameTexts(h, a, b) || Collision(h, a, b)
  {
    if SameTexts(h, a[..m], b[..n]) {
      forall i | 0 <= i < |a| ensures TextAt(h, a, i) == TextAt(h, b, i) {
        if i < m {
          TextAtPrefix(h, a, m, i);
          TextAtPrefix(h, b, n, i);
          assert TextAt(h, a[..m], i) == TextAt(h, b[..n], i);
        }
      }
    } else {
      var i, j :| 0 <= i < m && 0 <= j < n &&
        TextAt(h, a[..m], i) != TextAt(h, b[..n], j) && h(TextAt(h, a[..m], i)) == h(TextAt(h, b[..n], j));
      TextAtPrefix(h, a, m, i);
      TextAtPrefix(h, b, n, j);
    }
  }

  /**
   * When the check on load accepts two logs whose last records carry the same
   * non-empty hash, the logs have the same length and the same canonical text
   * at every position, or the hash collides on two of those texts. Blank
   * hashes on earlier records weaken nothing.
   */
  lemma ChainBinds(h: Hash, a: seq<Activity>, b: seq<Activity>)
    requires forall text :: IsDigest(h(text))
    requires ChainValid(ActivityHash(h), a) && ChainValid(ActivityHash(h), b) && a != [] && b != []
    requires a[|a| - 1].hash == b[|b| - 1].hash != ""
    ensures SameTexts(h, a, b) || Collision(h, a, b)
  {
    assert a[..|a|] == a && b[..|b|] == b;
    assert a[|a| - 1] == Sealed(ActivityHash(h), a, |a| - 1) && b[|b| - 1] == Sealed(ActivityHash(h), b, |b| - 1);
    TipBinds(h, a, b);
  }
}
