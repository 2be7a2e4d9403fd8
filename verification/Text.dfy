/** Text primitives the store's columns are built from. */
module Text {
  import opened Records

  /** `valid_node_id`: printable ASCII with no path or query metacharacter. */
  predicate ValidId(s: string) {
    0 < |s| <= 128 && forall c :: c in s ==> '!' <= c <= '~' && c !in "/\\?&=#%"
  }

  /** `valid_actor_id`: the identifiers an identity provider may use as a subject. */
  predicate ValidActor(s: string) {
    0 < |s| <= 256 &&
    forall c :: c in s ==> 'a' <= c <= 'z' || 'A' <= c <= 'Z' || '0' <= c <= '9' || c in "_-.:@|+"
  }

  /** What makes a character unfit for an identifier: blank, control, not ASCII, or a path or query metacharacter. */
  predicate Unfit(c: char) {
    (c as int) <= 0x20 || (c as int) >= 0x7F || c == '/' || c == '\\' || c == '?' || c == '&' || c == '=' || c == '#' ||
    c == '%'
  }

  /** An identifier is refused exactly when it is empty, too long, or has a character unfit for one. */
  lemma IdRefusedExactlyWhen(s: string)
    ensures !ValidId(s) <==> s == "" || |s| > 128 || exists i :: 0 <= i < |s| && Unfit(s[i])
  {
    forall i | 0 <= i < |s| && Unfit(s[i]) ensures !ValidId(s) { assert s[i] in s; }
    if 0 < |s| <= 128 && !ValidId(s) {
      var c :| c in s && !('!' <= c <= '~' && c !in "/\\?&=#%");
      var i :| 0 <= i < |s| && s[i] == c;
      assert Unfit(s[i]);
    }
  }

  /** Non-empty printable ASCII without a backslash: every identifier and actor the engine writes down. */
  predicate Plain(s: string) {
    s != "" && forall i :: 0 <= i < |s| ==> '!' <= s[i] <= '~' && s[i] != '\\'
  }

  /** Free of the three characters that separate columns and lines. */
  predicate Tidy(s: string) {
    forall i :: 0 <= i < |s| ==> s[i] != '\t' && s[i] != '\n' && s[i] != '\r'
  }

  predicate Lacks(s: string, c: char) {
    forall i :: 0 <= i < |s| ==> s[i] != c
  }

  function IsChar(sep: char): char -> bool {
    (c: char) => c == sep
  }

  /** `str::splitn`: at most `limit` pieces, the last one holding whatever is left. */
  function SplitN(s: string, sep: char, limit: nat): (parts: seq<string>)
    requires limit > 0
    ensures 1 <= |parts| <= limit
    decreases limit
  {
    var k := FirstIndex(s, IsChar(sep));
    if limit == 1 || k == |s| then [s] else [s[..k]] + SplitN(s[k + 1..], sep, limit - 1)
  }

  /** `str::split` on one character. */
  function Split(s: string, sep: char): (parts: seq<string>)
    ensures |parts| >= 1
  {
    SplitN(s, sep, |s| + 1)
  }

  /** `join`. */
  function Join(parts: seq<string>, sep: char): string {
    if parts == [] then "" else if |parts| == 1 then parts[0] else parts[0] + [sep] + Join(parts[1..], sep)
  }

  lemma FirstAfterLacking(head: string, sep: char, tail: string)
    requires Lacks(head, sep)
    ensures FirstIndex(head + [sep] + tail, IsChar(sep)) == |head|
  {
    var s := head + [sep] + tail;
    var k := FirstIndex(s, IsChar(sep));
    assert IsChar(sep)(s[|head|]);
  }

  lemma FirstInLacking(s: string, sep: char)
    requires Lacks(s, sep)
    ensures FirstIndex(s, IsChar(sep)) == |s|
  {
  }

  /** Where a text is cut at its first separator. */
  lemma FirstCut(s: string, head: string, sep: char, tail: string)
    requires s == head + [sep] + tail && Lacks(head, sep)
    ensures FirstIndex(s, IsChar(sep)) == |head| < |s| && s[..|head|] == head && s[|head| + 1..] == tail
  {
    FirstAfterLacking(head, sep, tail);
  }

  lemma SplitNLast(s: string, sep: char, limit: nat)
    requires Lacks(s, sep) && limit > 0
    ensures SplitN(s, sep, limit) == [s]
  {
    FirstInLacking(s, sep);
  }

  lemma SplitNStep(s: string, head: string, sep: char, tail: string, limit: nat)
    requires s == head + [sep] + tail && Lacks(head, sep) && limit > 1
    ensures SplitN(s, sep, limit) == [head] + SplitN(tail, sep, limit - 1)
  {
    FirstCut(s, head, sep, tail);
  }

  lemma SplitNCons(s: string, sep: char, limit: nat, head: string, tail: string, parts: seq<string>)
    requires s == head + [sep] + tail && Lacks(head, sep) && limit > 1
    requires parts != [] && parts[0] == head && SplitN(tail, sep, limit - 1) == parts[1..]
    ensures SplitN(s, sep, limit) == parts
  {
    SplitNStep(s, head, sep, tail, limit);
    assert [head] + parts[1..] == parts;
  }

  lemma JoinTwo(parts: seq<string>, sep: char)
    requires |parts| > 1
    ensures Join(parts, sep) == parts[0] + [sep] + Join(parts[1..], sep)
  {
  }

  /** Splitting undoes joining, for pieces free of the separator and any limit that suffices. */
  lemma {:induction false} SplitNJoin(parts: seq<string>, sep: char, limit: nat)
    requires 0 < |parts| <= limit && forall i :: 0 <= i < |parts| ==> Lacks(parts[i], sep)
    ensures SplitN(Join(parts, sep), sep, limit) == parts
  {
    if |parts| == 1 {
      SplitNLast(parts[0], sep, limit);
    } else {
      SplitNJoin(parts[1..], sep, limit - 1);
      JoinTwo(parts, sep);
      SplitNCons(Join(parts, sep), sep, limit, parts[0], Join(parts[1..], sep), parts);
    }
  }

  lemma JoinCons(head: string, sep: char, tail: string, parts: seq<string>)
    requires parts != [] && Join(parts, sep) == tail
    ensures Join([head] + parts, sep) == head + [sep] + tail
  {
    assert ([head] + parts)[1..] == parts;
  }

  /** Joining undoes splitting, whatever the limit: the last piece holds what is left, and nothing is lost. */
  lemma {:induction false} JoinSplitN(s: string, sep: char, limit: nat)
    requires limit > 0
    ensures Join(SplitN(s, sep, limit), sep) == s
    decreases limit
  {
    var k := FirstIndex(s, IsChar(sep));
    if limit > 1 && k < |s| {
      JoinSplitN(s[k + 1..], sep, limit - 1);
      JoinCons(s[..k], sep, s[k + 1..], SplitN(s[k + 1..], sep, limit - 1));
      assert s == s[..k] + [sep] + s[k + 1..];
    }
  }

  lemma LackedBefore(s: string, sep: char)
    ensures Lacks(s[..FirstIndex(s, IsChar(sep))], sep)
  {
    forall j | 0 <= j < FirstIndex(s, IsChar(sep)) ensures s[j] != sep { assert !IsChar(sep)(s[j]); }
  }

  /** Every piece that a separator follows is free of it, and so are all of them short of the limit. */
  lemma {:induction false} PiecesLack(s: string, sep: char, limit: nat, i: nat)
    requires limit > 0
    requires i < |SplitN(s, sep, limit)| && (i < |SplitN(s, sep, limit)| - 1 || |SplitN(s, sep, limit)| < limit)
    ensures Lacks(SplitN(s, sep, limit)[i], sep)
    decreases limit
  {
    var k := FirstIndex(s, IsChar(sep));
    LackedBefore(s, sep);
    if limit == 1 || k == |s| {
      assert s[..|s|] == s;
    } else if i > 0 {
      assert SplitN(s, sep, limit)[i] == SplitN(s[k + 1..], sep, limit - 1)[i - 1];
      PiecesLack(s[k + 1..], sep, limit - 1, i - 1);
    }
  }

  lemma {:induction false} JoinLength(parts: seq<string>, sep: char)
    ensures |parts| <= |Join(parts, sep)| + 1
  {
    if |parts| > 1 { JoinLength(parts[1..], sep); }
  }

  lemma SplitJoin(parts: seq<string>, sep: char)
    requires parts != [] && forall i :: 0 <= i < |parts| ==> Lacks(parts[i], sep)
    ensures Split(Join(parts, sep), sep) == parts
  {
    JoinLength(parts, sep);
    SplitNJoin(parts, sep, |Join(parts, sep)| + 1);
  }

  lemma {:induction false} JoinSnoc(parts: seq<string>, last: string, sep: char)
    requires parts != []
    ensures Join(parts + [last], sep) == Join(parts, sep) + [sep] + last
  {
    if |parts| > 1 {
      JoinSnoc(parts[1..], last, sep);
      assert (parts + [last])[1..] == parts[1..] + [last];
    } else {
      assert (parts + [last])[1..] == [last];
    }
  }

  /** The characters of the pieces, each with one separator. */
  function Weight(parts: seq<string>): nat {
    if parts == [] then 0 else |parts[0]| + 1 + Weight(parts[1..])
  }

  lemma {:induction false} JoinWeight(parts: seq<string>, sep: char)
    requires parts != []
    ensures |Join(parts, sep)| + 1 == Weight(parts)
  {
    if |parts| > 1 { JoinWeight(parts[1..], sep); }
  }

  lemma {:induction false} WeightConcat(a: seq<string>, b: seq<string>)
    ensures Weight(a + b) == Weight(a) + Weight(b)
  {
    if a == [] {
      assert a + b == b;
    } else {
      assert (a + b)[1..] == a[1..] + b;
      WeightConcat(a[1..], b);
    }
  }

  /** Two texts that end, after their last separator, in pieces free of it agree on those pieces. */
  lemma LastPiece(a: string, p: string, b: string, q: string, sep: char)
    requires Lacks(p, sep) && Lacks(q, sep) && a + [sep] + p == b + [sep] + q
    ensures a == b && p == q
  {
    var s := a + [sep] + p;
    assert s[|a|] == s[|b|] == sep;
    assert |a| == |b|;
    assert a == s[..|a|] == b;
    assert p == s[|a| + 1..] == q;
  }

  lemma {:induction false} JoinLacks(parts: seq<string>, sep: char, c: char)
    requires c != sep && forall i :: 0 <= i < |parts| ==> Lacks(parts[i], c)
    ensures Lacks(Join(parts, sep), c)
  {
    if |parts| > 1 { JoinLacks(parts[1..], sep, c); }
  }

  /** A joined text ends as its last piece ends. */
  lemma {:induction false} JoinEnds(parts: seq<string>, sep: char)
    requires parts != [] && parts[|parts| - 1] != ""
    ensures var last := parts[|parts| - 1];
      Join(parts, sep) != "" && Join(parts, sep)[|Join(parts, sep)| - 1] == last[|last| - 1]
  {
    if |parts| > 1 { JoinEnds(parts[1..], sep); }
  }

  lemma TidyConcat(a: string, b: string)
    requires Tidy(a) && Tidy(b)
    ensures Tidy(a + b)
  {
  }

  /* ---- lines ---- */

  function StripReturn(line: string): string {
    if line != "" && line[|line| - 1] == '\r' then line[..|line| - 1] else line
  }

  /** `str::lines`: a line break ends a line, and takes one carriage return before it along. */
  function Lines(s: string): (lines: seq<string>)
    ensures s != "" ==> lines != []
    decreases |s|
  {
    var k := FirstIndex(s, IsChar('\n'));
    if s == "" then [] else if k == |s| then [s] else [StripReturn(s[..k])] + Lines(s[k + 1..])
  }

  /** Lines that end in a carriage return and a line break read as lines without either. */
  lemma ReturnsAreStripped(head: string, tail: string)
    requires Lacks(head, '\n')
    ensures Lines(head + "\r\n" + tail) == [head] + Lines(tail)
  {
    var s, line := head + "\r\n" + tail, head + "\r";
    assert s == line + ['\n'] + tail;
    FirstCut(s, line, '\n', tail);
  }

  /** Text after the last line break is a line too, and keeps what it ends in. */
  lemma LastLineKept(tail: string)
    requires Lacks(tail, '\n') && tail != ""
    ensures Lines(tail) == [tail]
  {
    FirstInLacking(tail, '\n');
  }

  /** Each line followed by a line break. */
  function Unlines(lines: seq<string>): string {
    if lines == [] then "" else lines[0] + "\n" + Unlines(lines[1..])
  }

  lemma LinesStep(s: string, head: string, tail: string, lines: seq<string>)
    requires s == head + ['\n'] + tail && Lacks(head, '\n') && Lacks(head, '\r')
    requires lines != [] && lines[0] == head && Lines(tail) == lines[1..]
    ensures Lines(s) == lines
  {
    FirstCut(s, head, '\n', tail);
    assert [head] + lines[1..] == lines;
  }

  lemma {:induction false} LinesUnlines(lines: seq<string>)
    requires forall i :: 0 <= i < |lines| ==> Lacks(lines[i], '\n') && Lacks(lines[i], '\r')
    ensures Lines(Unlines(lines)) == lines
  {
    if lines != [] {
      LinesUnlines(lines[1..]);
      LinesStep(Unlines(lines), lines[0], Unlines(lines[1..]), lines);
    }
  }

  /* ---- decimal ---- */

  predicate IsDigit(c: char) {
    '0' <= c <= '9'
  }

  function DigitValue(c: char): nat
    requires IsDigit(c)
  {
    c as int - '0' as int
  }

  function Digit(d: nat): (c: char)
    requires d < 10
    ensures IsDigit(c) && DigitValue(c) == d
  {
    '0' + (d as char)
  }

  /** `u64::to_string`. */
  function Dec(n: nat): (s: string)
    ensures s != "" && forall c <- s :: IsDigit(c)
  {
    if n < 10 then [Digit(n)] else Dec(n / 10) + [Digit(n % 10)]
  }

  function DecValue(s: string): (n: nat)
    requires forall c <- s :: IsDigit(c)
  {
    if s == "" then 0 else 10 * DecValue(s[..|s| - 1]) + DigitValue(s[|s| - 1])
  }

  lemma {:induction false} DecRoundTrip(n: nat)
    ensures DecValue(Dec(n)) == n
  {
    if n < 10 {
      assert DecValue([Digit(n)][..0]) == 0;
    } else {
      DecRoundTrip(n / 10);
      assert (Dec(n / 10) + [Digit(n % 10)])[..|Dec(n / 10)|] == Dec(n / 10);
    }
  }

  lemma {:induction false} DecIsPlain(n: nat)
    ensures Plain(Dec(n))
  {
    forall i | 0 <= i < |Dec(n)| ensures '!' <= Dec(n)[i] <= '~' && Dec(n)[i] != '\\' {
      assert Dec(n)[i] in Dec(n);
    }
  }

  /** The digits of `parse::<u64>` and the like: at least one digit and nothing else. */
  function ParseDigits(s: string): Option<nat> {
    if s != "" && forall c <- s :: IsDigit(c) then Some(DecValue(s)) else None
  }

  /** `str::parse::<u64>`: digits after an optional plus sign, unless the number is too large. */
  function ParseU64(s: string): (r: Option<nat>)
    ensures r.Some? ==> r.value <= U64_MAX
  {
    var n := ParseDigits(if s != "" && s[0] == '+' then s[1..] else s);
    if n.Some? && n.value <= U64_MAX then n else None
  }

  /** `i32::to_string`. */
  function SignedDec(n: int): (s: string)
    ensures s != ""
  {
    if n < 0 then "-" + Dec(-n) else Dec(n)
  }

  /** `str::parse::<i32>`. */
  function ParseI32(s: string): Option<int> {
    if s == "" then None
    else if s[0] == '-' then
      match ParseDigits(s[1..])
      case Some(n) => if n <= 0x8000_0000 then var v: int := n; Some(-v) else None
      case None => None
    else
      match ParseDigits(if s[0] == '+' then s[1..] else s)
      case Some(n) => if n <= 0x7FFF_FFFF then var v: int := n; Some(v) else None
      case None => None
  }

  lemma ParseU64OfDec(n: nat)
    requires n <= U64_MAX
    ensures ParseU64(Dec(n)) == Some(n)
  {
    DecRoundTrip(n);
    assert Dec(n)[0] in Dec(n);
  }

  lemma ParseI32OfSigned(n: int)
    requires -0x8000_0000 <= n <= 0x7FFF_FFFF
    ensures ParseI32(SignedDec(n)) == Some(n)
  {
    var s := SignedDec(n);
    if n < 0 {
      DecRoundTrip(-n);
      assert s[0] == '-' && s[1..] == Dec(-n);
    } else {
      DecRoundTrip(n);
      assert Dec(n)[0] in Dec(n);
    }
  }

  /** Which texts are read as an unsigned number, and as which: digits after at most one plus sign, up to 2^64 - 1. */
  lemma ParseU64Exactly(s: string, n: nat)
    ensures var digits := if s != "" && s[0] == '+' then s[1..] else s;
      ParseU64(s) == Some(n) <==>
        digits != "" && (forall c <- digits :: '0' <= c <= '9') && DecValue(digits) == n <= 18446744073709551615
  {
  }

  lemma DecIsTidy(n: nat)
    ensures Tidy(Dec(n))
  {
    forall i | 0 <= i < |Dec(n)| ensures IsDigit(Dec(n)[i]) { assert Dec(n)[i] in Dec(n); }
  }
}
