/** UTF-8 as `str` stores it: the byte length of text, its bytes, its hex column, and cutting it to a byte budget. */
module Utf8 {
  import opened Records

  type byte = b: int | 0 <= b < 256

  /** `char::len_utf8`. */
  function CharLen(c: char): (n: nat)
    ensures 1 <= n <= 4
  {
    var v := c as int;
    if v < 0x80 then 1 else if v < 0x800 then 2 else if v < 0x1_0000 then 3 else 4
  }

  /** `str::len`: the number of bytes. */
  function ByteLen(s: string): nat {
    if s == "" then 0 else CharLen(s[0]) + ByteLen(s[1..])
  }

  /* ---- cutting to a byte budget ---- */

  /** The whole characters of `s`, taken from the front while their bytes fit in `budget`. */
  function Truncate(s: string, budget: nat): string {
    if s == "" || CharLen(s[0]) > budget then "" else [s[0]] + Truncate(s[1..], budget - CharLen(s[0]))
  }

  lemma {:induction false} ByteLenConcat(a: string, b: string)
    ensures ByteLen(a + b) == ByteLen(a) + ByteLen(b)
  {
    if a == "" {
      assert a + b == b;
    } else {
      assert (a + b)[1..] == a[1..] + b;
      ByteLenConcat(a[1..], b);
    }
  }

  /** The cut is the longest prefix that fits: it fits, and every longer prefix does not. */
  lemma {:induction false} TruncateIsLongestFit(s: string, budget: nat)
    ensures var t := Truncate(s, budget);
      t <= s && ByteLen(t) <= budget && forall n :: |t| < n <= |s| ==> ByteLen(s[..n]) > budget
  {
    if s != "" && CharLen(s[0]) <= budget {
      TruncateIsLongestFit(s[1..], budget - CharLen(s[0]));
      forall n | |Truncate(s, budget)| < n <= |s| ensures ByteLen(s[..n]) > budget {
        assert s[..n][1..] == s[1..][..n - 1];
      }
    } else {
      forall n | 0 < n <= |s| ensures ByteLen(s[..n]) > budget { assert s[..n][0] == s[0]; }
    }
  }

  /** Being the longest fitting prefix determines the cut. */
  lemma LongestFitIsTruncate(s: string, budget: nat, t: string)
    requires t <= s && ByteLen(t) <= budget && forall n :: |t| < n <= |s| ==> ByteLen(s[..n]) > budget
    ensures t == Truncate(s, budget)
  {
    TruncateIsLongestFit(s, budget);
    var u := Truncate(s, budget);
    assert t == s[..|t|] && u == s[..|u|];
  }

  lemma PrefixIsNoLonger(s: string, n: nat)
    requires n <= |s|
    ensures ByteLen(s[..n]) <= ByteLen(s)
  {
    ByteLenConcat(s[..n], s[n..]);
    assert s == s[..n] + s[n..];
  }

  /** Text is left alone exactly when it fits. */
  lemma TruncateKeepsWhatFits(s: string, budget: nat)
    ensures Truncate(s, budget) == s <==> ByteLen(s) <= budget
  {
    TruncateIsLongestFit(s, budget);
    assert s[..|s|] == s;
  }

  /** Cutting twice is cutting once, to the smaller budget. */
  lemma {:induction false} TruncateTwice(s: string, a: nat, b: nat)
    ensures Truncate(Truncate(s, a), b) == Truncate(s, Min(a, b))
  {
    if s != "" && CharLen(s[0]) <= Min(a, b) {
      TruncateTwice(s[1..], a - CharLen(s[0]), b - CharLen(s[0]));
    }
  }

  /** `truncate_utf8`, on the agent and again on the server: one walk over the characters and their byte offsets. */
  method TruncateUtf8(value: string, maxBytes: nat) returns (cut: string)
    ensures cut == Truncate(value, maxBytes)
  {
    TruncateKeepsWhatFits(value, maxBytes);
    if ByteLen(value) <= maxBytes { return value; }
    var kept, end := 0, 0;
    while kept < |value|
      invariant kept <= |value| && end == ByteLen(value[..kept]) <= maxBytes
    {
      var next := end + CharLen(value[kept]);
      assert value[..kept + 1] == value[..kept] + [value[kept]];
      ByteLenConcat(value[..kept], [value[kept]]);
      assert ByteLen(value[..kept + 1]) == next;
      if next > maxBytes {
        forall n | kept < n <= |value| ensures ByteLen(value[..n]) > maxBytes {
          PrefixIsNoLonger(value[..n], kept + 1);
          assert value[..n][..kept + 1] == value[..kept + 1];
        }
        break;
      }
      kept, end := kept + 1, next;
    }
    LongestFitIsTruncate(value, maxBytes, value[..kept]);
    cut := value[..kept];
  }

  /* ---- bytes ---- */

  function EncodeChar(c: char): (bytes: seq<byte>)
    ensures |bytes| == CharLen(c)
  {
    var v := c as int;
    if v < 0x80 then [v]
    else if v < 0x800 then [0xC0 + v / 64, 0x80 + v % 64]
    else if v < 0x1_0000 then [0xE0 + v / 64 / 64, 0x80 + v / 64 % 64, 0x80 + v % 64]
    else [0xF0 + v / 64 / 64 / 64, 0x80 + v / 64 / 64 % 64, 0x80 + v / 64 % 64, 0x80 + v % 64]
  }

  /** `str::as_bytes`. */
  function Encode(s: string): seq<byte> {
    if s == "" then [] else EncodeChar(s[0]) + Encode(s[1..])
  }

  predicate Continues(b: byte) { 0x80 <= b < 0xC0 }

  /** A number and one more continuation byte's six bits. */
  function Shift(high: int, b: int): int {
    high * 64 + (b - 0x80)
  }

  /** The code point the front bytes spell, and how many they are, when they have the shape of one. */
  function CodePoint(b: seq<byte>): (r: Option<(int, nat)>)
    requires b != []
    ensures r.Some? ==> 1 <= r.value.1 <= |b|
  {
    if b[0] < 0x80 then Some((b[0], 1))
    else if 0xC0 <= b[0] < 0xE0 && |b| >= 2 && Continues(b[1]) then Some((Shift(b[0] - 0xC0, b[1]), 2))
    else if 0xE0 <= b[0] < 0xF0 && |b| >= 3 && Continues(b[1]) && Continues(b[2]) then
      Some((Shift(Shift(b[0] - 0xE0, b[1]), b[2]), 3))
    else if 0xF0 <= b[0] < 0xF8 && |b| >= 4 && Continues(b[1]) && Continues(b[2]) && Continues(b[3]) then
      Some((Shift(Shift(Shift(b[0] - 0xF0, b[1]), b[2]), b[3]), 4))
    else None
  }

  /** Unicode scalar values: no surrogates, nothing past U+10FFFF. */
  predicate IsScalar(v: int) {
    0 <= v < 0xD800 || 0xE000 <= v < 0x11_0000
  }

  /** `String::from_utf8`: strict, so overlong forms, surrogates and stray bytes are refused. */
  function Decode(b: seq<byte>): Option<string> {
    if b == [] then Some("")
    else
      var head := CodePoint(b);
      if head.None? || !IsScalar(head.value.0) || CharLen(head.value.0 as char) != head.value.1 then None
      else
        var rest := Decode(b[head.value.1..]);
        if rest.None? then None else Some([head.value.0 as char] + rest.value)
  }

  /** Six bits leave a number and come back. */
  lemma ShiftBack(v: nat)
    ensures Shift(v / 64, 0x80 + v % 64) == v
  {
  }

  lemma CodePointOfChar(c: char, rest: seq<byte>)
    ensures CodePoint(EncodeChar(c) + rest) == Some((c as int, CharLen(c)))
  {
    var v := c as int;
    ShiftBack(v);
    ShiftBack(v / 64);
    ShiftBack(v / 64 / 64);
    var b := EncodeChar(c) + rest;
    assert forall i :: 0 <= i < CharLen(c) ==> b[i] == EncodeChar(c)[i];
  }

  lemma {:induction false} DecodeEncode(s: string)
    ensures Decode(Encode(s)) == Some(s)
  {
    if s != "" {
      CodePointOfChar(s[0], Encode(s[1..]));
      assert Encode(s)[CharLen(s[0])..] == Encode(s[1..]);
      DecodeEncode(s[1..]);
      assert [s[0]] + s[1..] == s;
    }
  }

  lemma ShiftApart(high: nat, b: byte)
    requires Continues(b)
    ensures Shift(high, b) / 64 == high && Shift(high, b) % 64 == b - 0x80
  {
  }

  lemma CharOfCodePoint(b: seq<byte>)
    requires b != [] && CodePoint(b).Some?
    requires IsScalar(CodePoint(b).value.0) && CharLen(CodePoint(b).value.0 as char) == CodePoint(b).value.1
    ensures EncodeChar(CodePoint(b).value.0 as char) == b[..CodePoint(b).value.1]
  {
    var n := CodePoint(b).value.1;
    if n == 2 {
      ShiftApart(b[0] - 0xC0, b[1]);
    } else if n == 3 {
      ShiftApart(b[0] - 0xE0, b[1]);
      ShiftApart(Shift(b[0] - 0xE0, b[1]), b[2]);
    } else if n == 4 {
      ShiftApart(b[0] - 0xF0, b[1]);
      ShiftApart(Shift(b[0] - 0xF0, b[1]), b[2]);
      ShiftApart(Shift(Shift(b[0] - 0xF0, b[1]), b[2]), b[3]);
    }
  }

  lemma EncodeStep(b: seq<byte>, n: nat, c: char, rest: string)
    requires n <= |b| && EncodeChar(c) == b[..n] && Encode(rest) == b[n..]
    ensures Encode([c] + rest) == b
  {
    assert ([c] + rest)[1..] == rest;
    assert b == b[..n] + b[n..];
  }

  /** Only the encoding of a text decodes to it. */
  lemma {:induction false} EncodeDecode(b: seq<byte>)
    requires Decode(b).Some?
    ensures Encode(Decode(b).value) == b
  {
    if b != [] {
      var (v, n) := CodePoint(b).value;
      var rest := Decode(b[n..]).value;
      assert Decode(b).value == [v as char] + rest;
      EncodeDecode(b[n..]);
      EncodeStep(b, n, v as char, rest) by { CharOfCodePoint(b); }
    }
  }

  /** `str::len` counts the bytes. */
  lemma {:induction false} EncodeLength(s: string)
    ensures |Encode(s)| == ByteLen(s)
  {
    if s != "" { EncodeLength(s[1..]); }
  }

  /* ---- hex columns ---- */

  function HexDigit(d: nat): (c: char)
    requires d < 16
    ensures '0' <= c <= '9' || 'a' <= c <= 'f'
  {
    if d < 10 then '0' + (d as char) else 'a' + ((d - 10) as char)
  }

  function HexValue(c: char): (d: Option<nat>)
    ensures d.Some? ==> d.value < 16
  {
    if '0' <= c <= '9' then Some(c as int - '0' as int)
    else if 'a' <= c <= 'f' then Some(c as int - 'a' as int + 10)
    else if 'A' <= c <= 'F' then Some(c as int - 'A' as int + 10)
    else None
  }

  function HexOfBytes(b: seq<byte>): string {
    if b == [] then "" else [HexDigit(b[0] / 16), HexDigit(b[0] % 16)] + HexOfBytes(b[1..])
  }

  /** `u8::from_str_radix` on two characters: a leading plus sign is allowed. */
  function HexByte(hi: char, lo: char): Option<byte> {
    match (HexValue(hi), HexValue(lo))
    case (Some(h), Some(l)) => Some(16 * h + l)
    case (None, Some(l)) => if hi == '+' then Some(l) else None
    case _ => None
  }

  function BytesOfHex(s: string): Option<seq<byte>> {
    if s == "" then Some([])
    else if |s| == 1 then None
    else
      match (HexByte(s[0], s[1]), BytesOfHex(s[2..]))
      case (Some(b), Some(rest)) => Some([b] + rest)
      case _ => None
  }

  predicate IsHexDigit(c: char) {
    '0' <= c <= '9' || 'a' <= c <= 'f' || 'A' <= c <= 'F'
  }

  /** Two characters that are read as a byte: two digits of either case, or a plus sign and a digit. */
  predicate IsPair(hi: char, lo: char) {
    (hi == '+' || IsHexDigit(hi)) && IsHexDigit(lo)
  }

  predicate IsPaired(s: string) {
    |s| % 2 == 0 && forall i :: 0 <= i < |s| / 2 ==> IsPair(s[2 * i], s[2 * i + 1])
  }

  /** Exactly the texts of such pairs are read as bytes. */
  lemma {:induction false} HexReadExactlyWhen(s: string)
    ensures BytesOfHex(s).Some? <==> IsPaired(s)
  {
    if |s| >= 2 {
      HexReadExactlyWhen(s[2..]);
      PairedStep(s);
    }
  }

  lemma PairedStep(s: string)
    requires |s| >= 2
    ensures IsPaired(s) <==> IsPair(s[0], s[1]) && IsPaired(s[2..])
  {
    var t := s[2..];
    if IsPaired(s) {
      assert IsPair(s[2 * 0], s[2 * 0 + 1]);
      forall i | 0 <= i < |t| / 2 ensures IsPair(t[2 * i], t[2 * i + 1]) {
        assert IsPair(s[2 * (i + 1)], s[2 * (i + 1) + 1]);
      }
    }
    if IsPair(s[0], s[1]) && IsPaired(t) {
      forall i | 0 <= i < |s| / 2 ensures IsPair(s[2 * i], s[2 * i + 1]) {
        if i > 0 { assert IsPair(t[2 * (i - 1)], t[2 * (i - 1) + 1]); }
      }
    }
  }

  /** `hex_encode`. */
  function HexEncode(s: string): string {
    HexOfBytes(Encode(s))
  }

  /** `hex_decode`. */
  function HexDecode(s: string): Option<string> {
    match BytesOfHex(s)
    case None => None
    case Some(b) => Decode(b)
  }

  lemma HexDigitValue(d: nat)
    requires d < 16
    ensures HexValue(HexDigit(d)) == Some(d)
  {
  }

  lemma HexPair(b: byte)
    ensures HexByte(HexDigit(b / 16), HexDigit(b % 16)) == Some(b)
  {
    HexDigitValue(b / 16);
    HexDigitValue(b % 16);
  }

  lemma {:induction false} BytesHexBytes(b: seq<byte>)
    ensures BytesOfHex(HexOfBytes(b)) == Some(b)
  {
    if b != [] {
      BytesHexBytes(b[1..]);
      HexPair(b[0]);
      var s, tail := HexOfBytes(b), HexOfBytes(b[1..]);
      assert s[0] == HexDigit(b[0] / 16) && s[1] == HexDigit(b[0] % 16) && s[2..] == tail;
      assert [b[0]] + b[1..] == b;
    }
  }

  /** A hex column reads back as the text it was written from. */
  lemma HexRoundTrip(s: string)
    ensures HexDecode(HexEncode(s)) == Some(s)
  {
    BytesHexBytes(Encode(s));
    DecodeEncode(s);
  }

  /** A hex column is made of lower-case hexadecimal digits and nothing else. */
  lemma {:induction false} HexIsHex(b: seq<byte>)
    ensures forall i :: 0 <= i < |HexOfBytes(b)| ==>
      '0' <= HexOfBytes(b)[i] <= '9' || 'a' <= HexOfBytes(b)[i] <= 'f'
  {
    if b != [] { HexIsHex(b[1..]); }
  }
}
