/** Base64 as it is written with padding, and base64url as it is read without (sections 4 and 5 of RFC 4648). */
module Base64 {
  import opened Records
  import opened Numbers
  import opened Utf8

  type Bytes = seq<byte>

  type Sextet = d: int | 0 <= d < 64

  /** The standard alphabet. */
  function StandardChar(d: Sextet): (c: char)
    ensures c != '='
  {
    if d < 26 then 'A' + (d as char)
    else if d < 52 then 'a' + ((d - 26) as char)
    else if d < 62 then '0' + ((d - 52) as char)
    else if d == 62 then '+' else '/'
  }

  /** The URL-safe alphabet, read. */
  function UrlDigit(c: char): Option<Sextet> {
    if 'A' <= c <= 'Z' then Some(c as int - 'A' as int)
    else if 'a' <= c <= 'z' then Some(c as int - 'a' as int + 26)
    else if '0' <= c <= '9' then Some(c as int - '0' as int + 52)
    else if c == '-' then Some(62)
    else if c == '_' then Some(63)
    else None
  }

  /** Sextets as one number, most significant first. */
  function Number(digits: seq<Sextet>): nat {
    if digits == [] then 0 else 64 * Number(digits[..|digits| - 1]) + digits[|digits| - 1]
  }

  /* ---- decoding ---- */

  predicate InAlphabet(value: string) {
    forall i :: 0 <= i < |value| ==> UrlDigit(value[i]).Some?
  }

  function Digits(value: string): (digits: seq<Sextet>)
    requires InAlphabet(value)
    ensures |digits| == |value|
  {
    seq(|value|, i requires 0 <= i < |value| => UrlDigit(value[i]).value)
  }

  /** What is accepted: non-empty text over the alphabet, of a length some bytes encode to. */
  predicate Acceptable(value: string) {
    value != "" && InAlphabet(value) && |value| % 4 != 1
  }

  /** The bytes are the leading bits of the text, and as many whole bytes as it holds. */
  predicate Decodes(value: string, bytes: Bytes) {
    InAlphabet(value) && |bytes| == 6 * |value| / 8 &&
    BigEndian(bytes) == Number(Digits(value)) / Pow2(6 * |value| % 8)
  }

  /** At most one byte string is what a text decodes to. */
  lemma DecodesOnce(value: string, a: Bytes, b: Bytes)
    requires Decodes(value, a) && Decodes(value, b)
    ensures a == b
  {
    BigEndianInjective(a, b);
  }

  lemma {:induction false} Pow2Adds(a: nat, b: nat)
    ensures Pow2(a + b) == Pow2(a) * Pow2(b)
  {
    if a > 0 { Pow2Adds(a - 1, b); }
  }

  /** The accumulator after a text: the bytes written so far, and the bits still held back. */
  predicate Accumulated(digits: seq<Sextet>, output: Bytes, accumulator: nat, bits: nat) {
    bits < 8 && 6 * |digits| == 8 * |output| + bits && accumulator < Pow2(bits) &&
    Number(digits) == BigEndian(output) * Pow2(bits) + accumulator
  }

  lemma Shifted(digits: seq<Sextet>, d: Sextet, output: Bytes, accumulator: nat, bits: nat)
    requires Accumulated(digits, output, accumulator, bits)
    ensures Number(digits + [d]) == BigEndian(output) * Pow2(bits + 6) + (64 * accumulator + d)
    ensures 64 * accumulator + d < Pow2(bits + 6)
  {
    assert (digits + [d])[..|digits|] == digits;
    Pow2Adds(bits, 6);
    assert Pow2(6) == 64;
    assert 64 * (BigEndian(output) * Pow2(bits)) == BigEndian(output) * (64 * Pow2(bits));
  }

  lemma Scale(a: nat, b: nat, p: nat)
    ensures a <= b ==> a * p <= b * p
  {
    assert (b - a) * p == b * p - a * p;
  }

  lemma Carried(high: nat, q: nat, p: nat, r: nat)
    ensures high * (256 * p) + (q * p + r) == (256 * high + q) * p + r
  {
  }

  lemma Pow2Of8(bits: nat)
    ensures Pow2(bits + 8) == 256 * Pow2(bits)
  {
    Pow2Adds(bits, 8);
    assert Pow2(4) == 16 && Pow2(8) == 16 * Pow2(4);
  }

  lemma Emitted(output: Bytes, accumulator: nat, bits: nat)
    requires accumulator < Pow2(bits + 8)
    ensures accumulator / Pow2(bits) < 256 && accumulator % Pow2(bits) < Pow2(bits)
    ensures BigEndian(output) * Pow2(bits + 8) + accumulator ==
            BigEndian(output + [accumulator / Pow2(bits)]) * Pow2(bits) + accumulator % Pow2(bits)
  {
    var p, q := Pow2(bits), accumulator / Pow2(bits);
    Pow2Of8(bits);
    assert accumulator == q * p + accumulator % p;
    Scale(256, q, p);
    Carried(BigEndian(output), q, p, accumulator % p);
    assert (output + [q])[..|output|] == output;
  }

  lemma EmittedAccumulated(digits: seq<Sextet>, output: Bytes, wide: nat, bits: nat)
    requires bits < 8 && 6 * |digits| == 8 * |output| + bits + 8 && wide < Pow2(bits + 8)
    requires Number(digits) == BigEndian(output) * Pow2(bits + 8) + wide
    ensures wide / Pow2(bits) < 256
    ensures Accumulated(digits, output + [wide / Pow2(bits)], wide % Pow2(bits), bits)
  {
    Emitted(output, wide, bits);
  }

  /** How many bits are held back after `n` characters have made `m` bytes. */
  lemma HeldBack(n: nat, m: nat, bits: nat)
    requires 6 * n == 8 * m + bits && bits < 8
    ensures 6 * n % 8 == bits && 6 * n / 8 == m && (bits < 6 <==> n % 4 != 1)
  {
    var q, r := n / 4, n % 4;
    assert 6 * n == 8 * (3 * q) + 6 * r;
    if r == 0 {
      Remainder(6 * n, 3 * q, 0);
    } else if r == 1 {
      Remainder(6 * n, 3 * q, 6);
    } else if r == 2 {
      Remainder(6 * n, 3 * q + 1, 4);
    } else {
      Remainder(6 * n, 3 * q + 2, 2);
    }
    Remainder(6 * n, m, bits);
  }

  lemma Remainder(a: nat, m: nat, bits: nat)
    requires a == 8 * m + bits && bits < 8
    ensures a / 8 == m && a % 8 == bits
  {
  }

  /** What is left when the text ends is too little for a byte. */
  lemma Finished(value: string, output: Bytes, accumulator: nat, bits: nat)
    requires InAlphabet(value) && Accumulated(Digits(value), output, accumulator, bits)
    ensures Decodes(value, output) && (bits < 6 <==> |value| % 4 != 1)
  {
    HeldBack(|value|, |output|, bits);
    QuotientOf(BigEndian(output), Pow2(bits), accumulator);
  }

  lemma QuotientOf(q: nat, p: nat, r: nat)
    requires r < p
    ensures (q * p + r) / p == q
  {
    var x := (q * p + r) / p;
    assert x * p <= q * p + r < (x + 1) * p;
    Scale(x + 1, q, p);
    Scale(q + 1, x, p);
  }

  /** Six more bits are too few for a byte. */
  lemma HeldLonger(digits: seq<Sextet>, d: Sextet, output: Bytes, accumulator: nat, bits: nat)
    requires Accumulated(digits, output, accumulator, bits) && bits + 6 < 8
    ensures Accumulated(digits + [d], output, 64 * accumulator + d, bits + 6)
  {
    Shifted(digits, d, output, accumulator, bits);
  }

  /** Six more bits make a byte. */
  lemma ByteMade(digits: seq<Sextet>, d: Sextet, output: Bytes, accumulator: nat, bits: nat, wide: nat, left: nat)
    requires Accumulated(digits, output, accumulator, bits) && bits == left + 2 && wide == 64 * accumulator + d
    ensures wide / Pow2(left) < 256
    ensures Accumulated(digits + [d], output + [wide / Pow2(left)], wide % Pow2(left), left)
  {
    Shifted(digits, d, output, accumulator, bits);
    assert left + 8 == bits + 6;
    EmittedAccumulated(digits + [d], output, wide, left);
  }

  /** One turn of the decoder: six bits in, and a byte out when there are eight. */
  method Feed(ghost digits: seq<Sextet>, digit: Sextet, output: Bytes, accumulator: nat, bits: nat)
    returns (longer: Bytes, held: nat, left: nat)
    requires Accumulated(digits, output, accumulator, bits)
    ensures Accumulated(digits + [digit], longer, held, left)
  {
    var wide := 64 * accumulator + digit;
    if bits + 6 < 8 {
      HeldLonger(digits, digit, output, accumulator, bits);
      return output, wide, bits + 6;
    }
    left := bits - 2;
    ByteMade(digits, digit, output, accumulator, bits, wide, left);
    longer, held := output + [wide / Pow2(left)], wide % Pow2(left);
  }

  /**
   * `base64url_decode`: six bits in per character, eight out when there are
   * that many. It accepts exactly the acceptable texts, and returns their
   * leading bits.
   */
  method UrlDecode(value: string) returns (r: Option<Bytes>)
    ensures r.Some? <==> Acceptable(value)
    ensures r.Some? ==> Decodes(value, r.value)
  {
    if value == "" || '=' in value { return None; }
    var output: Bytes, accumulator: nat, bits: nat := [], 0, 0;
    var i := 0;
    while i < |value|
      invariant i <= |value| && InAlphabet(value[..i])
      invariant Accumulated(Digits(value[..i]), output, accumulator, bits)
    {
      var digit := UrlDigit(value[i]);
      if digit.None? { return None; }
      assert Digits(value[..i + 1]) == Digits(value[..i]) + [digit.value];
      output, accumulator, bits := Feed(Digits(value[..i]), digit.value, output, accumulator, bits);
      i := i + 1;
    }
    assert value[..i] == value;
    Finished(value, output, accumulator, bits);
    r := if bits < 6 then Some(output) else None;
  }

  /* ---- encoding ---- */

  type Chunk = b: Bytes | 1 <= |b| <= 3 witness [0]

  /** The sextets of a chunk of one to three bytes, low bits filled with zeros. */
  function ChunkSextets(chunk: Chunk): (digits: seq<Sextet>)
    ensures |digits| == |chunk| + 1
  {
    var a := chunk[0];
    var b := if |chunk| > 1 then chunk[1] else 0;
    var c := if |chunk| > 2 then chunk[2] else 0;
    [a / 4, a % 4 * 16 + b / 16] + (if |chunk| > 1 then [b % 16 * 4 + c / 64] else []) +
    (if |chunk| > 2 then [c % 64] else [])
  }

  /** Where the last chunk of three starts. */
  function LastChunk(n: nat): (k: nat)
    requires n > 0
    ensures k < n <= k + 3 && k % 3 == 0
  {
    if n <= 3 then 0 else 3 + LastChunk(n - 3)
  }

  lemma {:induction false} LastChunkIs(n: nat, at: nat)
    requires at < n <= at + 3 && at % 3 == 0
    ensures LastChunk(n) == at
  {
    if n > 3 { LastChunkIs(n - 3, at - 3); }
  }

  function Sextets(bytes: Bytes): seq<Sextet> {
    if bytes == [] then []
    else var k := LastChunk(|bytes|); Sextets(bytes[..k]) + ChunkSextets(bytes[k..])
  }

  function Spelled(digits: seq<Sextet>): (s: string)
    ensures |s| == |digits|
  {
    seq(|digits|, i requires 0 <= i < |digits| => StandardChar(digits[i]))
  }

  /** How many padding characters follow. */
  function Padding(bytes: Bytes): string {
    if |bytes| % 3 == 0 then "" else if |bytes| % 3 == 1 then "==" else "="
  }

  /** Four characters for a chunk, padding included. */
  function ChunkText(chunk: Chunk): string {
    var a := chunk[0];
    var b := if |chunk| > 1 then chunk[1] else 0;
    var c := if |chunk| > 2 then chunk[2] else 0;
    [StandardChar(a / 4), StandardChar(a % 4 * 16 + b / 16),
     if |chunk| > 1 then StandardChar(b % 16 * 4 + c / 64) else '=', if |chunk| > 2 then StandardChar(c % 64) else '=']
  }

  /** The texts of the chunks of three, and of what is left, one after another. */
  function InChunks(text: Chunk -> string, bytes: Bytes): string {
    if bytes == [] then ""
    else var k := LastChunk(|bytes|); InChunks(text, bytes[..k]) + text(bytes[k..])
  }

  /** The loop over `chunks(3)`. */
  method EncodeInChunks(text: Chunk -> string, bytes: Bytes) returns (output: string)
    ensures output == InChunks(text, bytes)
  {
    output := "";
    var at := 0;
    while at < |bytes|
      invariant at <= |bytes| && (at % 3 == 0 || at == |bytes|) && output == InChunks(text, bytes[..at])
    {
      var end := Min(at + 3, |bytes|);
      LastChunkIs(end, at);
      assert bytes[..end][..at] == bytes[..at] && bytes[..end][at..] == bytes[at..end];
      output := output + text(bytes[at..end]);
      at := end;
    }
    assert bytes[..at] == bytes;
  }

  /** `base64_encode`. */
  method Encode(bytes: Bytes) returns (output: string)
    ensures output == EncodedText(bytes)
  {
    output := EncodeInChunks(ChunkText, bytes);
  }

  function EncodedText(bytes: Bytes): string {
    InChunks(ChunkText, bytes)
  }

  lemma SpelledConcat(a: seq<Sextet>, b: seq<Sextet>)
    ensures Spelled(a + b) == Spelled(a) + Spelled(b)
  {
  }

  lemma ChunkIsSpelled(chunk: Chunk)
    ensures ChunkText(chunk) == Spelled(ChunkSextets(chunk)) + Padding(chunk)
  {
  }

  lemma LastIsSpelled(before: string, first: seq<Sextet>, last: seq<Sextet>, text: string, padding: string)
    requires before == Spelled(first) && text == Spelled(last) + padding
    ensures before + text == Spelled(first + last) + padding
  {
    SpelledConcat(first, last);
  }

  /** The text spells the sextets of all the bytes; only its last chunk is padded. */
  lemma {:induction false} TextIsSpelled(bytes: Bytes)
    ensures EncodedText(bytes) == Spelled(Sextets(bytes)) + Padding(bytes)
  {
    if bytes != [] {
      var k := LastChunk(|bytes|);
      TextIsSpelled(bytes[..k]);
      assert Padding(bytes[..k]) == "" && Padding(bytes) == Padding(bytes[k..]);
      ChunkIsSpelled(bytes[k..]);
      LastIsSpelled(EncodedText(bytes[..k]), Sextets(bytes[..k]), ChunkSextets(bytes[k..]), ChunkText(bytes[k..]),
                    Padding(bytes));
    }
  }

  /** `trim_end_matches('=')`. */
  function Trimmed(s: string): string {
    if s != "" && s[|s| - 1] == '=' then Trimmed(s[..|s| - 1]) else s
  }

  /** The URL-safe form of a text in the standard alphabet: no padding, and two characters replaced. */
  function UrlForm(s: string): string {
    var t := Trimmed(s);
    seq(|t|, i requires 0 <= i < |t| => UrlChar(t[i]))
  }

  function UrlChar(c: char): char {
    if c == '+' then '-' else if c == '/' then '_' else c
  }

  lemma UrlCharRead(d: Sextet)
    ensures UrlDigit(UrlChar(StandardChar(d))) == Some(d)
  {
  }

  /** A character is read as at most the one sextet it stands for; so no text has a second reading or spelling. */
  lemma UrlDigitRead(c: char, d: Sextet)
    ensures UrlDigit(c) == Some(d) <==> UrlChar(StandardChar(d)) == c
  {
    UrlCharRead(d);
    if UrlDigit(c) == Some(d) { assert d == 62 || d == 63 || c in [StandardChar(d)]; }
  }

  /** The encoding is padded to a multiple of four characters, which only its end needs. */
  lemma {:induction false} EncodedLength(bytes: Bytes)
    ensures |EncodedText(bytes)| == 4 * ((|bytes| + 2) / 3)
  {
    if bytes != [] { EncodedLength(bytes[..LastChunk(|bytes|)]); }
  }

  lemma TrimOne(s: string)
    ensures Trimmed(s + "=") == Trimmed(s)
  {
    assert (s + "=")[..|s|] == s;
  }

  lemma TrimmedPadding(s: string, bytes: Bytes)
    requires s == "" || s[|s| - 1] != '='
    ensures Trimmed(s + Padding(bytes)) == s
  {
    if |bytes| % 3 == 0 {
      assert s + "" == s;
    } else {
      TrimOne(s);
      TrimOne(s + "=");
      assert s + "==" == s + "=" + "=";
    }
  }

  lemma UrlFormOfSpelled(bytes: Bytes)
    ensures var value := UrlForm(EncodedText(bytes));
            InAlphabet(value) && Digits(value) == Sextets(bytes)
  {
    var digits := Sextets(bytes);
    TextIsSpelled(bytes);
    TrimmedPadding(Spelled(digits), bytes);
    var value := UrlForm(EncodedText(bytes));
    forall i | 0 <= i < |digits| ensures UrlDigit(value[i]) == Some(digits[i]) { UrlCharRead(digits[i]); }
  }

  lemma NumberOfTwo(digits: seq<Sextet>, a: Sextet, b: Sextet)
    ensures Number(digits + [a, b]) == 4096 * Number(digits) + 64 * a + b
  {
    assert (digits + [a, b])[..|digits| + 1] == digits + [a] && (digits + [a])[..|digits|] == digits;
  }

  lemma NumberOfFour(digits: seq<Sextet>, a: Sextet, b: Sextet, c: Sextet, d: Sextet)
    ensures Number(digits + [a, b, c, d]) == 16777216 * Number(digits) + 262144 * a + 4096 * b + 64 * c + d
  {
    assert digits + [a, b] + [c, d] == digits + [a, b, c, d];
    NumberOfTwo(digits, a, b);
    NumberOfTwo(digits + [a, b], c, d);
  }

  lemma BigEndianOfTwo(bytes: Bytes, a: byte, b: byte)
    ensures BigEndian(bytes + [a, b]) == 65536 * BigEndian(bytes) + 256 * a + b
  {
    assert (bytes + [a, b])[..|bytes| + 1] == bytes + [a] && (bytes + [a])[..|bytes|] == bytes;
  }

  /** A number followed by the zero bits that fill the last character. */
  function Filled(n: nat, x: nat): nat {
    if n % 3 == 0 then x else if n % 3 == 1 then 16 * x else 4 * x
  }

  lemma TwoSextets(before: Bytes, digits: seq<Sextet>, a: byte, x: Sextet, y: Sextet)
    requires Number(digits) == BigEndian(before) && 64 * x + y == 16 * a
    ensures Number(digits + [x, y]) == 16 * BigEndian(before + [a])
  {
    NumberOfTwo(digits, x, y);
    assert (before + [a])[..|before|] == before;
  }

  lemma ThreeSextets(before: Bytes, digits: seq<Sextet>, a: byte, b: byte, x: Sextet, y: Sextet, z: Sextet)
    requires Number(digits) == BigEndian(before) && 4096 * x + 64 * y + z == 4 * (256 * a + b)
    ensures Number(digits + [x, y, z]) == 4 * BigEndian(before + [a, b])
  {
    NumberOfTwo(digits, x, y);
    assert digits + [x, y, z] == digits + [x, y] + [z];
    assert (digits + [x, y] + [z])[..|digits| + 2] == digits + [x, y];
    BigEndianOfTwo(before, a, b);
  }

  lemma BigEndianOfThree(bytes: Bytes, a: byte, b: byte, c: byte)
    ensures BigEndian(bytes + [a, b, c]) == 16777216 * BigEndian(bytes) + 65536 * a + 256 * b + c
  {
    assert bytes + [a, b, c] == bytes + [a, b] + [c];
    assert (bytes + [a, b] + [c])[..|bytes| + 2] == bytes + [a, b];
    BigEndianOfTwo(bytes, a, b);
  }

  lemma FourSextets(
    before: Bytes, digits: seq<Sextet>, a: byte, b: byte, c: byte, w: Sextet, x: Sextet, y: Sextet, z: Sextet)
    requires Number(digits) == BigEndian(before)
    requires 262144 * w + 4096 * x + 64 * y + z == 65536 * a + 256 * b + c
    ensures Number(digits + [w, x, y, z]) == BigEndian(before + [a, b, c])
  {
    NumberOfFour(digits, w, x, y, z);
    BigEndianOfThree(before, a, b, c);
  }

  /** The sextets spell the chunk's number, with zero bits filling the last one. */
  predicate SameBits(chunk: seq<int>, d: seq<int>)
    requires 1 <= |chunk| <= 3 && |d| == |chunk| + 1
  {
    if |chunk| == 1 then 64 * d[0] + d[1] == 16 * chunk[0]
    else if |chunk| == 2 then 4096 * d[0] + 64 * d[1] + d[2] == 4 * (256 * chunk[0] + chunk[1])
    else 262144 * d[0] + 4096 * d[1] + 64 * d[2] + d[3] == 65536 * chunk[0] + 256 * chunk[1] + chunk[2]
  }

  /** The sextets of a chunk are its bits, six at a time. */
  lemma ChunkBits(chunk: Bytes)
    requires 1 <= |chunk| <= 3
    ensures SameBits(chunk, ChunkSextets(chunk))
  {
  }

  lemma ChunkNumber(before: Bytes, digits: seq<Sextet>, chunk: Bytes, d: seq<Sextet>)
    requires 1 <= |chunk| <= 3 && Number(digits) == BigEndian(before) && |d| == |chunk| + 1 && SameBits(chunk, d)
    ensures Number(digits + d) == Filled(|chunk|, BigEndian(before + chunk))
  {
    if |chunk| == 1 {
      assert chunk == [chunk[0]] && d == [d[0], d[1]];
      TwoSextets(before, digits, chunk[0], d[0], d[1]);
    } else if |chunk| == 2 {
      assert chunk == [chunk[0], chunk[1]] && d == [d[0], d[1], d[2]];
      ThreeSextets(before, digits, chunk[0], chunk[1], d[0], d[1], d[2]);
    } else {
      assert chunk == [chunk[0], chunk[1], chunk[2]] && d == [d[0], d[1], d[2], d[3]];
      FourSextets(before, digits, chunk[0], chunk[1], chunk[2], d[0], d[1], d[2], d[3]);
    }
  }

  lemma FilledAgain(k: nat, n: nat, x: nat)
    requires k % 3 == 0
    ensures Filled(k + n, x) == Filled(n, x)
  {
  }

  lemma SextetsJoined(before: Bytes, digits: seq<Sextet>, chunk: Bytes, d: seq<Sextet>)
    requires |before| % 3 == 0 && Number(digits) == Filled(|before|, BigEndian(before))
    requires 1 <= |chunk| <= 3 && |d| == |chunk| + 1 && SameBits(chunk, d)
    ensures Number(digits + d) == Filled(|before + chunk|, BigEndian(before + chunk))
  {
    ChunkNumber(before, digits, chunk, d);
    FilledAgain(|before|, |chunk|, BigEndian(before + chunk));
  }

  /** Sextets spell the same number as the bytes, shifted by the zero bits of the last one. */
  lemma {:induction false} SextetsNumber(bytes: Bytes)
    ensures Number(Sextets(bytes)) == Filled(|bytes|, BigEndian(bytes))
  {
    if bytes != [] {
      var k := LastChunk(|bytes|);
      SextetsNumber(bytes[..k]);
      ChunkBits(bytes[k..]);
      SextetsJoined(bytes[..k], Sextets(bytes[..k]), bytes[k..], ChunkSextets(bytes[k..]));
      assert bytes == bytes[..k] + bytes[k..];
    }
  }

  lemma ChunkLength(k: nat, n: nat)
    requires k % 3 == 0 && k < n <= k + 3
    ensures (4 * k + 2) / 3 + (n - k + 1) == (4 * n + 2) / 3
  {
    var j, r := k / 3, n - k;
    assert k == 3 * j && (4 * k + 2) / 3 == 4 * j;
    assert 4 * n + 2 == 3 * (4 * j) + (4 * r + 2);
  }

  lemma {:induction false} SextetsLength(bytes: Bytes)
    ensures |Sextets(bytes)| == (4 * |bytes| + 2) / 3
  {
    if bytes != [] {
      var n := |bytes|;
      var k := LastChunk(n);
      SextetsLength(bytes[..k]);
      assert |Sextets(bytes)| == |Sextets(bytes[..k])| + (n - k + 1);
      ChunkLength(k, n);
    }
  }

  /** How the characters of `n` bytes sit in bytes: exactly, but for the zero bits at the end. */
  lemma LengthsMatch(n: nat, x: nat)
    ensures var m := (4 * n + 2) / 3;
      6 * m / 8 == n && m % 4 != 1 && (m == 0 <==> n == 0) && Filled(n, x) / Pow2(6 * m % 8) == x
  {
    var k, m := n / 3, (4 * n + 2) / 3;
    assert Pow2(0) == 1 && Pow2(2) == 4 && Pow2(4) == 16;
    if n == 3 * k {
      assert m == 4 * k && 6 * m == 8 * (3 * k);
    } else if n == 3 * k + 1 {
      assert m == 4 * k + 2 && 6 * m == 8 * n + 4;
    } else {
      assert m == 4 * k + 3 && 6 * m == 8 * n + 2;
    }
  }

  lemma FilledDecodes(bytes: Bytes, value: string)
    requires InAlphabet(value) && |value| == (4 * |bytes| + 2) / 3
    requires Number(Digits(value)) == Filled(|bytes|, BigEndian(bytes))
    ensures (Acceptable(value) <==> bytes != []) && Decodes(value, bytes)
  {
    LengthsMatch(|bytes|, BigEndian(bytes));
  }

  /** Decoding undoes encoding, once padding is stripped and the alphabet swapped. */
  lemma DecodingUndoesEncoding(bytes: Bytes, value: string)
    requires value == UrlForm(EncodedText(bytes))
    ensures (Acceptable(value) <==> bytes != []) && Decodes(value, bytes)
  {
    UrlFormOfSpelled(bytes);
    SextetsNumber(bytes);
    SextetsLength(bytes);
    FilledDecodes(bytes, value);
  }
}
