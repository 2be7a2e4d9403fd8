/**
 * WebSocket framing (sections 5.2, 5.3 and 5.5 of RFC 6455) as the agent and
 * the server each write it: one specification of a frame's bytes, and both
 * pairs of writer and reader proved against it.
 */
module WebSocket {
  import opened Records
  import opened Numbers
  import opened Utf8

  type Bytes = seq<byte>

  const MAX_PAYLOAD: nat := 1024 * 1024
  const MAX_CONTROL_PAYLOAD: nat := 125

  datatype Frame = Frame(opcode: nat, payload: Bytes)

  /* ---- exclusive or, bit by bit ---- */

  function XorBits(a: nat, b: nat, bits: nat): (x: nat)
    ensures x < Pow2(bits)
  {
    if bits == 0 then 0 else (a + b) % 2 + 2 * XorBits(a / 2, b / 2, bits - 1)
  }

  lemma Pow2Of8()
    ensures Pow2(8) == 256
  {
    assert Pow2(4) == 16;
    assert Pow2(8) == 16 * Pow2(4);
  }

  /** `^` on bytes. */
  function Xor(a: byte, b: byte): byte {
    Pow2Of8();
    XorBits(a, b, 8)
  }

  lemma BitBack(a: nat, b: nat, high: nat)
    ensures ((a + b) % 2 + 2 * high + b) % 2 == a % 2
  {
    var q := (a + b) / 2;
    assert (a + b) % 2 + 2 * high + b == a + 2 * (b + high - q);
  }

  lemma {:induction false} XorBitsTwice(a: nat, b: nat, bits: nat)
    requires a < Pow2(bits)
    ensures XorBits(XorBits(a, b, bits), b, bits) == a
  {
    if bits > 0 {
      var x := XorBits(a, b, bits);
      assert x / 2 == XorBits(a / 2, b / 2, bits - 1);
      XorBitsTwice(a / 2, b / 2, bits - 1);
      BitBack(a, b, XorBits(a / 2, b / 2, bits - 1));
    }
  }

  /** Bit number `i` of a number, the lowest first. */
  predicate Bit(n: nat, i: nat) {
    if i == 0 then n % 2 == 1 else Bit(n / 2, i - 1)
  }

  /** The two differ in the bits of `d`, and in no others. */
  ghost predicate DiffersBy(a: byte, b: byte, d: byte) {
    forall i: nat :: i < 8 ==> (Bit(a, i) != Bit(b, i) <==> Bit(d, i))
  }

  lemma {:induction false} XorBitsAt(a: nat, b: nat, bits: nat, i: nat)
    requires i < bits
    ensures Bit(XorBits(a, b, bits), i) <==> Bit(a, i) != Bit(b, i)
  {
    var x, high := XorBits(a, b, bits), XorBits(a / 2, b / 2, bits - 1);
    assert x == (a + b) % 2 + 2 * high;
    if i == 0 {
      assert x % 2 == (a + b) % 2;
    } else {
      assert x / 2 == high;
      XorBitsAt(a / 2, b / 2, bits - 1, i - 1);
    }
  }

  /** A bit of `a ^ b` is set exactly when it is set in one of them and not in the other. */
  lemma XorByBits(a: byte, b: byte, i: nat)
    requires i < 8
    ensures Bit(Xor(a, b), i) <==> Bit(a, i) != Bit(b, i)
  {
    XorBitsAt(a, b, 8, i);
  }

  lemma XorDiffersBy(a: byte, d: byte)
    ensures DiffersBy(Xor(a, d), a, d)
  {
    forall i: nat | i < 8 ensures Bit(Xor(a, d), i) != Bit(a, i) <==> Bit(d, i) { XorByBits(a, d, i); }
  }

  /** Numbers of so many bits are determined by them. */
  lemma {:induction false} BitsTell(a: nat, b: nat, bits: nat)
    requires a < Pow2(bits) && b < Pow2(bits) && forall i: nat :: i < bits ==> (Bit(a, i) <==> Bit(b, i))
    ensures a == b
  {
    if bits > 0 {
      forall i: nat | i < bits - 1 ensures Bit(a / 2, i) <==> Bit(b / 2, i) {
        assert Bit(a, i + 1) <==> Bit(b, i + 1);
      }
      BitsTell(a / 2, b / 2, bits - 1);
      assert Bit(a, 0) <==> Bit(b, 0);
      assert a == 2 * (a / 2) + a % 2 && b == 2 * (b / 2) + b % 2;
    }
  }

  /** Only one byte differs from another by given bits. */
  lemma DiffersByOnce(x: byte, a: byte, d: byte)
    requires DiffersBy(x, a, d)
    ensures x == Xor(a, d)
  {
    Pow2Of8();
    forall i: nat | i < 8 ensures Bit(x, i) <==> Bit(Xor(a, d), i) {
      XorByBits(a, d, i);
      assert Bit(x, i) != Bit(a, i) <==> Bit(d, i);
    }
    BitsTell(x, Xor(a, d), 8);
  }

  type Mask = m: Bytes | |m| == 4 witness [0, 0, 0, 0]

  /** Every byte of the payload, combined with the mask's bytes in turn. */
  function Masked(payload: Bytes, mask: Mask): (r: Bytes)
    ensures |r| == |payload| && forall i :: 0 <= i < |r| ==> r[i] == Xor(payload[i], mask[i % 4])
  {
    seq(|payload|, i requires 0 <= i < |payload| => Xor(payload[i], mask[i % 4]))
  }

  /** Masking twice with one mask gives the payload back. */
  lemma MaskedTwice(payload: Bytes, mask: Mask)
    ensures Masked(Masked(payload, mask), mask) == payload
  {
    Pow2Of8();
    forall i | 0 <= i < |payload| ensures Masked(Masked(payload, mask), mask)[i] == payload[i] {
      XorBitsTwice(payload[i], mask[i % 4], 8);
    }
  }

  /* ---- what a frame looks like on the wire ---- */

  /** The 7-bit length code of a payload of this length. */
  function LengthCode(n: nat): nat {
    if n <= 125 then n else if n <= 0xFFFF then 126 else 127
  }

  /** How many bytes of length follow a length code. */
  function LengthWidth(code: nat): nat {
    if code == 126 then 2 else if code == 127 then 8 else 0
  }

  predicate Permitted(opcode: nat, length: nat) {
    length <= MAX_PAYLOAD && (opcode >= 8 ==> length <= MAX_CONTROL_PAYLOAD)
  }

  /** Frames an endpoint may send: a 4-bit opcode, and a payload within its limit. */
  predicate Sendable(f: Frame) {
    f.opcode < 16 && Permitted(f.opcode, |f.payload|)
  }

  /** The bytes of a frame: from a client with its mask, from a server without. */
  function Wire(f: Frame, mask: Option<Mask>): Bytes
    requires Sendable(f)
  {
    var code := LengthCode(|f.payload|);
    [0x80 + f.opcode, (if mask.Some? then 0x80 else 0) + code] + ToBigEndian(|f.payload|, LengthWidth(code)) +
    (match mask
     case Some(m) => m + Masked(f.payload, m)
     case None => f.payload)
  }

  datatype ReadError = UnexpectedEof | Fragmented | ExtensionBits | WrongMasking | FrameTooLarge

  datatype Read = Got(frame: Frame, rest: Bytes) | Closed | Bad(error: ReadError)

  /** The payload, once the header says how long it is. */
  function ReadPayload(opcode: nat, length: nat, masked: bool, bytes: Bytes): Read {
    var at := if masked then 4 else 0;
    if !Permitted(opcode, length) then Bad(FrameTooLarge)
    else if |bytes| < at + length then Bad(UnexpectedEof)
    else
      var payload := bytes[at..at + length];
      Got(Frame(opcode, if masked then Masked(payload, bytes[..4]) else payload), bytes[at + length..])
  }

  /** The extended length, and then the payload. */
  function ReadLength(opcode: nat, code: nat, masked: bool, bytes: Bytes): Read {
    var width := LengthWidth(code);
    if |bytes| < width then Bad(UnexpectedEof)
    else ReadPayload(opcode, if width == 0 then code else BigEndian(bytes[..width]), masked, bytes[width..])
  }

  /** What a reader makes of the bytes it is sent: a server takes masked frames only, a client unmasked ones only. */
  function ReadFrame(masked: bool, bytes: Bytes): Read {
    if bytes == [] then Closed
    else if |bytes| < 2 then Bad(UnexpectedEof)
    else if bytes[0] < 0x80 then Bad(Fragmented)
    else if bytes[0] / 16 % 8 != 0 then Bad(ExtensionBits)
    else if (bytes[1] >= 0x80) != masked then Bad(WrongMasking)
    else ReadLength(bytes[0] % 16, bytes[1] % 128, masked, bytes[2..])
  }

  lemma Pow256Values()
    ensures Pow256(2) == 0x1_0000 && Pow256(8) == 0x1_0000_0000_0000_0000
  {
    assert Pow256(4) == 0x1_0000 * Pow256(2);
    assert Pow256(6) == 0x1_0000 * Pow256(4);
    assert Pow256(8) == 0x1_0000 * Pow256(6);
  }

  lemma LengthRead(n: nat)
    requires n <= MAX_PAYLOAD
    ensures LengthCode(n) < 128
    ensures LengthWidth(LengthCode(n)) == 0 ==> LengthCode(n) == n
    ensures LengthWidth(LengthCode(n)) > 0 ==> BigEndian(ToBigEndian(n, LengthWidth(LengthCode(n)))) == n
  {
    Pow256Values();
    if n > 125 { BigEndianRoundTrip(n, LengthWidth(LengthCode(n))); }
  }

  lemma PayloadRead(f: Frame, mask: Option<Mask>, rest: Bytes)
    requires Sendable(f)
    ensures var body := match mask
              case Some(m) => m + Masked(f.payload, m)
              case None => f.payload;
            ReadPayload(f.opcode, |f.payload|, mask.Some?, body + rest) == Got(f, rest)
  {
    match mask
    case Some(m) =>
      MaskedTwice(f.payload, m);
      var bytes := m + Masked(f.payload, m) + rest;
      assert bytes[..4] == m && bytes[4..4 + |f.payload|] == Masked(f.payload, m);
    case None => assert (f.payload + rest)[..|f.payload|] == f.payload;
  }

  /** The fields of the first two bytes of a frame. */
  lemma HeaderFields(opcode: nat, code: nat, maskBit: nat)
    requires opcode < 16 && code < 128 && (maskBit == 0 || maskBit == 0x80)
    ensures (0x80 + opcode) / 16 == 8 && (0x80 + opcode) % 16 == opcode && (maskBit + code) % 128 == code
  {
  }

  lemma HeaderRead(opcode: nat, code: nat, masked: bool, tail: Bytes)
    requires opcode < 16 && code < 128
    ensures var bytes := [0x80 + opcode, (if masked then 0x80 else 0) + code] + tail;
            ReadFrame(masked, bytes) == ReadLength(opcode, code, masked, tail)
  {
    var bytes := [0x80 + opcode, (if masked then 0x80 else 0) + code] + tail;
    assert bytes[2..] == tail;
    HeaderFields(opcode, code, if masked then 0x80 else 0);
  }

  lemma LengthFieldRead(opcode: nat, n: nat, masked: bool, tail: Bytes)
    requires n <= MAX_PAYLOAD
    ensures var code := LengthCode(n);
            ReadLength(opcode, code, masked, ToBigEndian(n, LengthWidth(code)) + tail) ==
            ReadPayload(opcode, n, masked, tail)
  {
    var field := ToBigEndian(n, LengthWidth(LengthCode(n)));
    LengthRead(n);
    assert (field + tail)[..|field|] == field && (field + tail)[|field|..] == tail;
  }

  /** A reader recovers the frame from its bytes, and leaves whatever follows them. */
  lemma FrameRoundTrip(f: Frame, mask: Option<Mask>, rest: Bytes)
    requires Sendable(f)
    ensures ReadFrame(mask.Some?, Wire(f, mask) + rest) == Got(f, rest)
  {
    var n := |f.payload|;
    var code := LengthCode(n);
    var field := ToBigEndian(n, LengthWidth(code));
    var body := match mask
      case Some(m) => m + Masked(f.payload, m)
      case None => f.payload;
    var head := [0x80 + f.opcode, (if mask.Some? then 0x80 else 0) + code];
    assert Wire(f, mask) + rest == head + (field + (body + rest));
    HeaderRead(f.opcode, code, mask.Some?, field + (body + rest));
    LengthFieldRead(f.opcode, n, mask.Some?, body + rest);
    PayloadRead(f, mask, rest);
  }

  /** The wire form of each frame, with its own mask, if any. */
  function Pieces(frames: seq<Frame>, masks: seq<Option<Mask>>): seq<Bytes>
    requires |frames| == |masks| && forall i :: 0 <= i < |frames| ==> Sendable(frames[i])
  {
    seq(|frames|, i requires 0 <= i < |frames| => Wire(frames[i], masks[i]))
  }

  function Concat(pieces: seq<Bytes>): Bytes {
    if pieces == [] then [] else pieces[0] + Concat(pieces[1..])
  }

  function Reader(masked: bool): Bytes -> Read {
    (bytes: Bytes) => ReadFrame(masked, bytes)
  }

  /** The first `n` frames a reader takes from a stream, and what it leaves; `None` when it fails before. */
  function ReadMany(read: Bytes -> Read, n: nat, bytes: Bytes): Option<(seq<Frame>, Bytes)> {
    if n == 0 then Some(([], bytes))
    else
      match read(bytes)
      case Got(f, rest) =>
        (match ReadMany(read, n - 1, rest)
         case Some((frames, left)) => Some(([f] + frames, left))
         case None => None)
      case _ => None
  }

  /** Reading piece by piece, for any reader that reads each piece back whatever follows it. */
  lemma {:induction false} ReadPieces(read: Bytes -> Read, frames: seq<Frame>, pieces: seq<Bytes>, rest: Bytes)
    requires |frames| == |pieces|
    requires forall i, tail :: 0 <= i < |frames| ==> read(pieces[i] + tail) == Got(frames[i], tail)
    ensures ReadMany(read, |frames|, Concat(pieces) + rest) == Some((frames, rest))
  {
    if frames == [] {
      assert Concat(pieces) + rest == rest;
    } else {
      var tail := Concat(pieces[1..]) + rest;
      assert Concat(pieces) + rest == pieces[0] + tail;
      ReadPieces(read, frames[1..], pieces[1..], rest);
      assert [frames[0]] + frames[1..] == frames;
    }
  }

  /**
   * From the concatenation of any frames one side may send, under any masks,
   * the other side's reader recovers exactly those frames, and leaves trailing
   * bytes untouched.
   */
  lemma StreamRoundTrip(masked: bool, frames: seq<Frame>, masks: seq<Option<Mask>>, rest: Bytes)
    requires |frames| == |masks|
    requires forall i :: 0 <= i < |frames| ==> Sendable(frames[i]) && masks[i].Some? == masked
    ensures ReadMany(Reader(masked), |frames|, Concat(Pieces(frames, masks)) + rest) == Some((frames, rest))
  {
    var pieces := Pieces(frames, masks);
    forall i, tail | 0 <= i < |frames| ensures Reader(masked)(pieces[i] + tail) == Got(frames[i], tail) {
      FrameRoundTrip(frames[i], masks[i], tail);
    }
    ReadPieces(Reader(masked), frames, pieces, rest);
  }

  /** What a reader yields is a frame its writer could have sent. */
  lemma ReadsOnlySendable(masked: bool, bytes: Bytes)
    ensures ReadFrame(masked, bytes).Got? ==> Sendable(ReadFrame(masked, bytes).frame)
  {
  }

  /** No spelling of a length that a reader accepts is shorter than the one writers use. */
  lemma ShortestLength(code: nat, field: Bytes, n: nat)
    requires |field| == LengthWidth(code) && n == (if field == [] then code else BigEndian(field))
    requires field == [] ==> code <= 125
    ensures LengthWidth(LengthCode(n)) <= |field|
  {
    Pow256Values();
    BigEndianBound(field);
  }

  /* ---- the frame format again, bit by bit, as sections 5.2 and 5.3 of RFC 6455 lay it out ---- */

  /** A final fragment without extensions; the opcode is in the low four bits. */
  ghost predicate FirstByte(b: byte, opcode: nat) {
    Bit(b, 7) && !Bit(b, 6) && !Bit(b, 5) && !Bit(b, 4) && opcode == b % 16
  }

  function Pair(high: nat, low: nat): nat {
    256 * high + low
  }

  function Quad(q: Bytes): nat
    requires |q| == 4
  {
    Pair(Pair(Pair(q[0], q[1]), q[2]), q[3])
  }

  /** The length is in the low seven bits of the second byte, or in the two or eight bytes that follow it. */
  ghost predicate SaysLength(code: nat, field: Bytes, n: nat) {
    (field == [] && code == n <= 125) ||
    (code == 126 && |field| == 2 && n == Pair(field[0], field[1])) ||
    (code == 127 && |field| == 8 && n == 0x1_0000_0000 * Quad(field[..4]) + Quad(field[4..]))
  }

  /** The payload as it is; or, under a mask, differing from it byte by byte in just the bits of the mask's bytes. */
  ghost predicate SaysPayload(body: Bytes, payload: Bytes, mask: Option<Mask>) {
    |body| == |payload| && forall i :: 0 <= i < |body| ==>
      if mask.Some? then DiffersBy(body[i], payload[i], mask.value[i % 4]) else body[i] == payload[i]
  }

  /** At most a mebibyte, and at most 125 bytes in a control frame. */
  ghost predicate Small(f: Frame) {
    |f.payload| <= 1_048_576 && (f.opcode >= 8 ==> |f.payload| <= 125)
  }

  ghost predicate Spells(bytes: Bytes, f: Frame, mask: Option<Mask>, field: Bytes, body: Bytes) {
    |bytes| >= 2 && FirstByte(bytes[0], f.opcode) && (Bit(bytes[1], 7) <==> mask.Some?) &&
    SaysLength(bytes[1] % 128, field, |f.payload|) && SaysPayload(body, f.payload, mask) &&
    bytes[2..] == field + (if mask.Some? then mask.value else []) + body
  }

  /** These are the frame's bytes, with its length in the shortest of the three forms. */
  ghost predicate OnWire(bytes: Bytes, f: Frame, mask: Option<Mask>) {
    Small(f) && exists field: Bytes, body: Bytes ::
      Spells(bytes, f, mask, field, body) &&
      |field| == if |f.payload| <= 125 then 0 else if |f.payload| <= 65_535 then 2 else 8
  }

  /** The frame's bytes were taken off the front, with its length in any of the three forms. */
  ghost predicate TakenOff(before: Bytes, after: Bytes, f: Frame, masked: bool) {
    |after| <= |before| && after == before[|before| - |after|..] && Small(f) &&
    IsSpelled(before[..|before| - |after|], f, masked)
  }

  ghost predicate IsSpelled(bytes: Bytes, f: Frame, masked: bool) {
    exists mask: Option<Mask>, field: Bytes, body: Bytes ::
      Spells(bytes, f, mask, field, body) && mask.Some? == masked
  }

  lemma HalfIsBit(b: nat, i: nat)
    requires i > 0
    ensures Bit(b, i) == Bit(b / 2, i - 1)
  {
  }

  lemma HighBits(b: byte)
    ensures Bit(b, 7) <==> b >= 0x80
    ensures !Bit(b, 6) && !Bit(b, 5) && !Bit(b, 4) <==> b / 16 % 8 == 0
  {
    var c := b / 2 / 2 / 2 / 2;
    assert c == b / 16;
    HalfIsBit(b, 4);
    HalfIsBit(b / 2, 3);
    HalfIsBit(b / 2 / 2, 2);
    HalfIsBit(b / 2 / 2 / 2, 1);
    assert Bit(b, 4) == Bit(c, 0);
    HalfIsBit(b, 5);
    HalfIsBit(b / 2, 4);
    HalfIsBit(b / 2 / 2, 3);
    HalfIsBit(b / 2 / 2 / 2, 2);
    assert Bit(b, 5) == Bit(c, 1) == Bit(c / 2, 0);
    HalfIsBit(b, 6);
    HalfIsBit(b / 2, 5);
    HalfIsBit(b / 2 / 2, 4);
    HalfIsBit(b / 2 / 2 / 2, 3);
    assert Bit(b, 6) == Bit(c, 2) == Bit(c / 2 / 2, 0);
    HalfIsBit(b, 7);
    HalfIsBit(b / 2, 6);
    HalfIsBit(b / 2 / 2, 5);
    HalfIsBit(b / 2 / 2 / 2, 4);
    assert Bit(b, 7) == Bit(c, 3) == Bit(c / 2 / 2 / 2, 0);
    FourBits(c);
  }

  lemma FourBits(c: nat)
    requires c < 16
    ensures c / 2 / 2 / 2 % 2 == 1 <==> c >= 8
    ensures c / 2 / 2 % 2 == 0 && c / 2 % 2 == 0 && c % 2 == 0 <==> c % 8 == 0
  {
  }

  lemma BigEndianOfTwo(b: Bytes)
    requires |b| == 2
    ensures BigEndian(b) == Pair(b[0], b[1])
  {
    assert b[..1][..0] == [] && BigEndian(b[..1]) == b[0];
  }

  lemma BigEndianOfFour(high: Bytes, q: Bytes)
    requires |q| == 4
    ensures BigEndian(high + q) == 0x1_0000_0000 * BigEndian(high) + Quad(q)
  {
    var n := |high|;
    var b := high + q;
    assert b[..n + 3][..n + 2] == b[..n + 2] && b[..n + 2][..n + 1] == b[..n + 1] && b[..n + 1][..n] == high;
    assert BigEndian(b[..n + 1]) == 0x100 * BigEndian(high) + q[0];
    assert BigEndian(b[..n + 2]) == 0x100 * BigEndian(b[..n + 1]) + q[1];
    assert BigEndian(b[..n + 3]) == 0x100 * BigEndian(b[..n + 2]) + q[2];
    assert BigEndian(b) == 0x100 * BigEndian(b[..n + 3]) + q[3];
  }

  lemma BigEndianOfEight(b: Bytes)
    requires |b| == 8
    ensures BigEndian(b) == 0x1_0000_0000 * Quad(b[..4]) + Quad(b[4..])
  {
    assert b == b[..4] + b[4..] && b[..4] == [] + b[..4];
    BigEndianOfFour(b[..4], b[4..]);
    BigEndianOfFour([], b[..4]);
  }

  lemma LengthSaid(code: nat, field: Bytes, n: nat)
    ensures SaysLength(code, field, n) <==>
      code < 128 && |field| == LengthWidth(code) && n == if field == [] then code else BigEndian(field)
  {
    if |field| == 2 { BigEndianOfTwo(field); }
    if |field| == 8 { BigEndianOfEight(field); }
  }

  lemma PayloadSaid(body: Bytes, payload: Bytes, mask: Option<Mask>)
    ensures SaysPayload(body, payload, mask) <==> body == if mask.Some? then Masked(payload, mask.value) else payload
  {
    if mask.Some? && |body| == |payload| {
      forall i | 0 <= i < |body|
        ensures DiffersBy(body[i], payload[i], mask.value[i % 4]) <==> body[i] == Xor(payload[i], mask.value[i % 4])
      {
        XorDiffersBy(payload[i], mask.value[i % 4]);
        if DiffersBy(body[i], payload[i], mask.value[i % 4]) {
          DiffersByOnce(body[i], payload[i], mask.value[i % 4]);
        }
      }
    }
  }

  /** The mask and the masked payload, or the payload. */
  function Rest(f: Frame, mask: Option<Mask>): Bytes {
    match mask
    case Some(m) => m + Masked(f.payload, m)
    case None => f.payload
  }

  /** The bytes of a frame, as the readers take them apart. */
  predicate InPieces(bytes: Bytes, f: Frame, mask: Option<Mask>, field: Bytes) {
    |bytes| >= 2 && bytes[0] >= 0x80 && bytes[0] / 16 % 8 == 0 && f.opcode == bytes[0] % 16 &&
    (bytes[1] >= 0x80 <==> mask.Some?) && |field| == LengthWidth(bytes[1] % 128) &&
    |f.payload| == (if field == [] then bytes[1] % 128 else BigEndian(field)) &&
    bytes[2..] == field + Rest(f, mask)
  }

  lemma SpelledInPieces(bytes: Bytes, f: Frame, mask: Option<Mask>, field: Bytes, body: Bytes)
    requires body == if mask.Some? then Masked(f.payload, mask.value) else f.payload
    ensures Spells(bytes, f, mask, field, body) <==> InPieces(bytes, f, mask, field)
  {
    assert field + Rest(f, mask) == field + (if mask.Some? then mask.value else []) + body;
    if |bytes| >= 2 {
      HighBits(bytes[0]);
      HighBits(bytes[1]);
      LengthSaid(bytes[1] % 128, field, |f.payload|);
      PayloadSaid(body, f.payload, mask);
    }
  }

  lemma HeadInPieces(bytes: Bytes, f: Frame, mask: Option<Mask>, code: nat, field: Bytes)
    requires f.opcode < 16 && code < 128
    requires bytes == [0x80 + f.opcode, (if mask.Some? then 0x80 else 0) + code] + (field + Rest(f, mask))
    requires |field| == LengthWidth(code) && |f.payload| == if field == [] then code else BigEndian(field)
    ensures InPieces(bytes, f, mask, field)
  {
    HeaderFields(f.opcode, code, if mask.Some? then 0x80 else 0);
    assert bytes[2..] == field + Rest(f, mask);
  }

  lemma WireInPieces(f: Frame, mask: Option<Mask>, field: Bytes)
    requires Sendable(f) && field == ToBigEndian(|f.payload|, LengthWidth(LengthCode(|f.payload|)))
    ensures InPieces(Wire(f, mask), f, mask, field)
  {
    var code := LengthCode(|f.payload|);
    LengthRead(|f.payload|);
    var head: Bytes := [0x80 + f.opcode, (if mask.Some? then 0x80 else 0) + code];
    assert Wire(f, mask) == head + field + Rest(f, mask) == head + (field + Rest(f, mask));
    HeadInPieces(Wire(f, mask), f, mask, code, field);
  }

  lemma WireIsSpelled(f: Frame, mask: Option<Mask>)
    requires Sendable(f)
    ensures OnWire(Wire(f, mask), f, mask)
  {
    var field := ToBigEndian(|f.payload|, LengthWidth(LengthCode(|f.payload|)));
    WireInPieces(f, mask, field);
    SpelledInPieces(Wire(f, mask), f, mask, field,
                    if mask.Some? then Masked(f.payload, mask.value) else f.payload);
  }

  lemma LengthTaken(opcode: nat, code: nat, masked: bool, field: Bytes, tail: Bytes)
    requires code < 128 && |field| == LengthWidth(code)
    ensures ReadLength(opcode, code, masked, field + tail) ==
            ReadPayload(opcode, if field == [] then code else BigEndian(field), masked, tail)
  {
    assert (field + tail)[..|field|] == field && (field + tail)[|field|..] == tail;
  }

  lemma PiecesAreRead(bytes: Bytes, f: Frame, mask: Option<Mask>, field: Bytes, rest: Bytes)
    requires InPieces(bytes, f, mask, field) && Small(f)
    ensures ReadFrame(mask.Some?, bytes + rest) == Got(f, rest)
  {
    var tail := Rest(f, mask) + rest;
    assert bytes[2..] + rest == field + tail;
    HeadRead(bytes, mask.Some?, field, tail, rest);
    PayloadRead(f, mask, rest);
  }

  /** Bytes that spell a small frame are read as that frame, whichever form its length has and whatever follows. */
  lemma SpelledIsRead(bytes: Bytes, f: Frame, mask: Option<Mask>, field: Bytes, body: Bytes, rest: Bytes)
    requires Spells(bytes, f, mask, field, body) && Small(f)
    ensures ReadFrame(mask.Some?, bytes + rest) == Got(f, rest)
  {
    PayloadSaid(body, f.payload, mask);
    SpelledInPieces(bytes, f, mask, field, body);
    PiecesAreRead(bytes, f, mask, field, rest);
  }

  lemma HeadRead(bytes: Bytes, masked: bool, field: Bytes, tail: Bytes, rest: Bytes)
    requires |bytes| >= 2 && bytes[0] >= 0x80 && bytes[0] / 16 % 8 == 0 && (bytes[1] >= 0x80 <==> masked)
    requires |field| == LengthWidth(bytes[1] % 128) && bytes[2..] + rest == field + tail
    ensures var code := bytes[1] % 128;
      ReadFrame(masked, bytes + rest) ==
      ReadPayload(bytes[0] % 16, if field == [] then code else BigEndian(field), masked, tail)
  {
    assert (bytes + rest)[2..] == field + tail;
    LengthTaken(bytes[0] % 16, bytes[1] % 128, masked, field, tail);
  }

  lemma PayloadTaken(opcode: nat, n: nat, masked: bool, bytes: Bytes)
    requires ReadPayload(opcode, n, masked, bytes).Got?
    ensures var r, at := ReadPayload(opcode, n, masked, bytes), if masked then 4 else 0;
      |bytes| >= at + n && r.rest == bytes[at + n..] && r.frame.opcode == opcode && |r.frame.payload| == n &&
      Small(r.frame) &&
      bytes[..at] + bytes[at..at + n] == Rest(r.frame, if masked then Some(bytes[..4]) else None)
  {
    if masked {
      MaskedTwice(bytes[4..4 + n], bytes[..4]);
    } else {
      assert bytes[..0] + bytes[..n] == bytes[..n];
    }
  }

  /** What is read was spelled by the bytes taken off the front. */
  lemma ReadIsSpelled(masked: bool, bytes: Bytes)
    requires ReadFrame(masked, bytes).Got?
    ensures TakenOff(bytes, ReadFrame(masked, bytes).rest, ReadFrame(masked, bytes).frame, masked)
  {
    var f, rest := ReadFrame(masked, bytes).frame, ReadFrame(masked, bytes).rest;
    var used, mask, field := ReadInPieces(masked, bytes);
    var body := if mask.Some? then Masked(f.payload, mask.value) else f.payload;
    SpelledInPieces(used, f, mask, field, body);
  }

  lemma ReadInPieces(masked: bool, bytes: Bytes) returns (used: Bytes, mask: Option<Mask>, field: Bytes)
    requires ReadFrame(masked, bytes).Got?
    ensures var f, rest := ReadFrame(masked, bytes).frame, ReadFrame(masked, bytes).rest;
      InPieces(used, f, mask, field) && mask.Some? == masked && Small(f) && |rest| <= |bytes| &&
      used == bytes[..|bytes| - |rest|] && rest == bytes[|bytes| - |rest|..]
  {
    var f := ReadFrame(masked, bytes).frame;
    var tail, n;
    field, tail, n := HeaderTaken(masked, bytes);
    PayloadTaken(bytes[0] % 16, n, masked, tail);
    var at := if masked then 4 else 0;
    mask := if masked then Some(tail[..4]) else None;
    used := bytes[..2 + |field| + at + n];
    TakenInPieces(bytes, f, mask, field, tail, at, n);
  }

  lemma TakenInPieces(
    bytes: Bytes, f: Frame, mask: Option<Mask>, field: Bytes, tail: Bytes, at: nat, n: nat)
    requires |bytes| >= 2 && bytes[0] >= 0x80 && bytes[0] / 16 % 8 == 0 && (bytes[1] >= 0x80 <==> mask.Some?)
    requires f.opcode == bytes[0] % 16 && |f.payload| == n && |field| == LengthWidth(bytes[1] % 128)
    requires n == if field == [] then bytes[1] % 128 else BigEndian(field)
    requires bytes[2..] == field + tail && at + n <= |tail| && tail[..at] + tail[at..at + n] == Rest(f, mask)
    ensures var end := 2 + |field| + at + n;
      end <= |bytes| && InPieces(bytes[..end], f, mask, field) && end == |bytes| - |tail[at + n..]| &&
      bytes[end..] == tail[at + n..]
  {
    UsedInPieces(bytes, field, tail, at, n);
    var used := bytes[..2 + |field| + at + n];
    assert used[0] == bytes[0] && used[1] == bytes[1];
    Regroup(field, tail[..at], tail[at..at + n]);
  }

  lemma Regroup(a: Bytes, b: Bytes, c: Bytes)
    ensures a + b + c == a + (b + c)
  {
  }

  /** The header of a frame that is read, and what is left of the bytes after it. */
  lemma HeaderTaken(masked: bool, bytes: Bytes) returns (field: Bytes, tail: Bytes, n: nat)
    requires ReadFrame(masked, bytes).Got?
    ensures |bytes| >= 2 && bytes[0] >= 0x80 && bytes[0] / 16 % 8 == 0 && (bytes[1] >= 0x80 <==> masked)
    ensures bytes[2..] == field + tail && |field| == LengthWidth(bytes[1] % 128)
    ensures n == if field == [] then bytes[1] % 128 else BigEndian(field)
    ensures ReadFrame(masked, bytes) == ReadPayload(bytes[0] % 16, n, masked, tail)
  {
    var code, after := bytes[1] % 128, bytes[2..];
    assert ReadFrame(masked, bytes) == ReadLength(bytes[0] % 16, code, masked, after);
    field, tail := after[..LengthWidth(code)], after[LengthWidth(code)..];
    n := if field == [] then code else BigEndian(field);
  }

  lemma UsedInPieces(bytes: Bytes, field: Bytes, tail: Bytes, at: nat, n: nat)
    requires |bytes| >= 2 && bytes[2..] == field + tail && at + n <= |tail|
    ensures var end := 2 + |field| + at + n;
      end <= |bytes| && bytes[..end][2..] == field + tail[..at] + tail[at..at + n] && bytes[end..] == tail[at + n..] &&
      bytes[..end] == bytes[..|bytes| - |tail[at + n..]|] && end == |bytes| - |tail[at + n..]|
  {
    var end := 2 + |field| + at + n;
    assert |bytes| == 2 + |field| + |tail|;
    assert bytes[..end][2..] == bytes[2..][..end - 2];
    assert bytes[end..] == bytes[2..][end - 2..];
  }

  /**
   * A reader takes a frame off the front exactly when the bytes there spell a
   * small frame that is masked as it should be; and then it takes just those.
   */
  lemma ReadExactlyWhenSpelled(masked: bool, bytes: Bytes, f: Frame, rest: Bytes)
    ensures ReadFrame(masked, bytes) == Got(f, rest) <==> TakenOff(bytes, rest, f, masked)
  {
    if ReadFrame(masked, bytes) == Got(f, rest) { ReadIsSpelled(masked, bytes); }
    if TakenOff(bytes, rest, f, masked) {
      var used := bytes[..|bytes| - |rest|];
      assert bytes == used + rest;
      FrontIsRead(used, f, masked, rest);
    }
  }

  lemma FrontIsRead(used: Bytes, f: Frame, masked: bool, rest: Bytes)
    requires IsSpelled(used, f, masked) && Small(f)
    ensures ReadFrame(masked, used + rest) == Got(f, rest)
  {
    var mask: Option<Mask>, field: Bytes, body: Bytes :|
      Spells(used, f, mask, field, body) && mask.Some? == masked;
    SpelledIsRead(used, f, mask, field, body, rest);
  }

  /** Why a reader turns a header down, in the order of the header's bits. */
  lemma HeadersTurnedDown(masked: bool, bytes: Bytes)
    ensures bytes == [] <==> ReadFrame(masked, bytes) == Closed
    ensures |bytes| == 1 ==> ReadFrame(masked, bytes) == Bad(UnexpectedEof)
    ensures |bytes| >= 2 && !Bit(bytes[0], 7) ==> ReadFrame(masked, bytes) == Bad(Fragmented)
    ensures |bytes| >= 2 && Bit(bytes[0], 7) && (Bit(bytes[0], 6) || Bit(bytes[0], 5) || Bit(bytes[0], 4)) ==>
      ReadFrame(masked, bytes) == Bad(ExtensionBits)
    ensures |bytes| >= 2 && FirstByte(bytes[0], bytes[0] % 16) && Bit(bytes[1], 7) != masked ==>
      ReadFrame(masked, bytes) == Bad(WrongMasking)
  {
    if |bytes| >= 2 {
      HighBits(bytes[0]);
      HighBits(bytes[1]);
    }
  }

  /**
   * What follows a header a reader lets through: a length over the limit is
   * turned down before anything more is read, and one within it when too few
   * bytes are left for mask and payload.
   */
  lemma PayloadsTurnedDown(masked: bool, bytes: Bytes, opcode: nat, field: Bytes, rest: Bytes, n: nat)
    requires |bytes| >= 2 && FirstByte(bytes[0], opcode) && Bit(bytes[1], 7) == masked
    requires bytes[2..] == field + rest && SaysLength(bytes[1] % 128, field, n)
    ensures n > 1_048_576 || (opcode >= 8 && n > 125) ==> ReadFrame(masked, bytes) == Bad(FrameTooLarge)
    ensures n <= 1_048_576 && (opcode >= 8 ==> n <= 125) && |rest| < n + (if masked then 4 else 0) ==>
      ReadFrame(masked, bytes) == Bad(UnexpectedEof)
  {
    HighBits(bytes[0]);
    HighBits(bytes[1]);
    LengthSaid(bytes[1] % 128, field, n);
    assert bytes + [] == bytes && bytes[2..] + [] == field + rest;
    HeadRead(bytes, masked, field, rest, []);
  }

  /* ---- the four routines ---- */

  /** A connection, as the bytes not yet read from it. */
  class Connection {
    var pending: Bytes

    constructor (pending: Bytes)
      ensures this.pending == pending
    {
      this.pending := pending;
    }

    /** `read_exact`: `None` when the connection ends first. */
    method ReadExact(n: nat) returns (bytes: Option<Bytes>)
      modifies this
      ensures bytes == if n <= |old(pending)| then Some(old(pending)[..n]) else None
      ensures bytes.Some? ==> pending == old(pending)[n..]
    {
      if |pending| < n {
        pending := [];
        return None;
      }
      bytes := Some(pending[..n]);
      pending := pending[n..];
    }
  }

  /** What a call of a reader returns. */
  datatype Received = Message(frame: Frame) | End | Failure(error: ReadError)

  /** The reader did what the specification says of the bytes it found. */
  predicate Agrees(spec: Read, r: Received, pending: Bytes) {
    match spec
    case Got(f, rest) => r == Message(f) && pending == rest
    case Closed => r == End
    case Bad(e) => r == Failure(e)
  }

  /** Applies the mask in place, byte by byte. */
  method MaskInPlace(payload: array<byte>, mask: Mask)
    modifies payload
    ensures payload[..] == Masked(old(payload[..]), mask)
    ensures forall i :: 0 <= i < payload.Length ==> DiffersBy(payload[i], old(payload[i]), mask[i % 4])
  {
    var index := 0;
    while index < payload.Length
      invariant index <= payload.Length
      invariant forall i :: 0 <= i < index ==> payload[i] == Xor(old(payload[i]), mask[i % 4])
      invariant forall i :: index <= i < payload.Length ==> payload[i] == old(payload[i])
    {
      payload[index] := Xor(payload[index], mask[index % 4]);
      index := index + 1;
    }
    forall i | 0 <= i < payload.Length ensures DiffersBy(payload[i], old(payload[i]), mask[i % 4]) {
      XorDiffersBy(old(payload[i]), mask[i % 4]);
    }
  }

  /** The length a code stands for, reading the extended field when there is one. */
  method ReadExtendedLength(c: Connection, code: nat) returns (length: Option<nat>)
    requires code < 128
    modifies c
    ensures length == if LengthWidth(code) == 0 then Some(code)
                      else if |old(c.pending)| < LengthWidth(code) then None
                      else Some(BigEndian(old(c.pending)[..LengthWidth(code)]))
    ensures length.Some? ==> c.pending == old(c.pending)[LengthWidth(code)..]
  {
    if code <= 125 { return Some(code); }
    var field := c.ReadExact(if code == 126 then 2 else 8);
    if field.None? { return None; }
    length := Some(BigEndian(field.value));
  }

  /** The mask and the payload of a client's frame. */
  method ReadMaskedPayload(c: Connection, opcode: nat, length: nat) returns (r: Received)
    modifies c
    ensures Agrees(ReadPayload(opcode, length, true, old(c.pending)), r, c.pending)
  {
    if !Permitted(opcode, length) { return Failure(FrameTooLarge); }
    var mask := c.ReadExact(4);
    if mask.None? { return Failure(UnexpectedEof); }
    var bytes := c.ReadExact(length);
    if bytes.None? { return Failure(UnexpectedEof); }
    var payload := new byte[length](i requires 0 <= i < |bytes.value| => bytes.value[i]);
    assert payload[..] == bytes.value == old(c.pending)[4..4 + length];
    MaskInPlace(payload, mask.value);
    r := Message(Frame(opcode, payload[..]));
  }

  /** The server's `websocket_read_frame`. */
  method ServerReadFrame(c: Connection) returns (r: Received)
    modifies c
    ensures Agrees(ReadFrame(true, old(c.pending)), r, c.pending)
    ensures r.Message? ==> TakenOff(old(c.pending), c.pending, r.frame, true)
  {
    if ReadFrame(true, c.pending).Got? { ReadIsSpelled(true, c.pending); }
    var first := c.ReadExact(1);
    if first.None? { return End; }
    var second := c.ReadExact(1);
    if second.None? { return Failure(UnexpectedEof); }
    if first.value[0] < 0x80 { return Failure(Fragmented); }
    if first.value[0] / 16 % 8 != 0 { return Failure(ExtensionBits); }
    var opcode := first.value[0] % 16;
    if second.value[0] < 0x80 { return Failure(WrongMasking); }
    var length := ReadExtendedLength(c, second.value[0] % 128);
    if length.None? { return Failure(UnexpectedEof); }
    r := ReadMaskedPayload(c, opcode, length.value);
  }

  /** The agent's `websocket_read_frame`. */
  method ClientReadFrame(c: Connection) returns (r: Received)
    modifies c
    ensures Agrees(ReadFrame(false, old(c.pending)), r, c.pending)
    ensures r.Message? ==> TakenOff(old(c.pending), c.pending, r.frame, false)
  {
    if ReadFrame(false, c.pending).Got? { ReadIsSpelled(false, c.pending); }
    var first := c.ReadExact(1);
    if first.None? { return End; }
    var second := c.ReadExact(1);
    if second.None? { return Failure(UnexpectedEof); }
    if first.value[0] < 0x80 { return Failure(Fragmented); }
    if first.value[0] / 16 % 8 != 0 { return Failure(ExtensionBits); }
    if second.value[0] >= 0x80 { return Failure(WrongMasking); }
    var length := ReadExtendedLength(c, second.value[0] % 128);
    if length.None? { return Failure(UnexpectedEof); }
    var opcode := first.value[0] % 16;
    if !Permitted(opcode, length.value) { return Failure(FrameTooLarge); }
    var payload := c.ReadExact(length.value);
    if payload.None? { return Failure(UnexpectedEof); }
    r := Message(Frame(opcode, payload.value));
  }

  /** The two bytes and the extended length a frame starts with. */
  method Header(opcode: nat, length: nat, maskBit: nat) returns (header: Bytes)
    requires length <= MAX_PAYLOAD && (maskBit == 0 || maskBit == 0x80)
    ensures header == [0x80 + opcode % 16, maskBit + LengthCode(length)] +
                      ToBigEndian(length, LengthWidth(LengthCode(length)))
  {
    header := [0x80 + opcode % 16];
    if length <= 125 {
      header := header + [maskBit + length];
    } else if length <= 0xFFFF {
      header := header + [maskBit + 126];
      header := header + ToBigEndian(length, 2);
    } else {
      header := header + [maskBit + 127];
      header := header + ToBigEndian(length, 8);
    }
  }

  /** The agent's `websocket_write_frame`, with the mask it drew; `None` for a frame too large to send. */
  method ClientWriteFrame(opcode: nat, payload: Bytes, mask: Mask) returns (sent: Option<Bytes>)
    ensures sent == if Permitted(opcode, |payload|) then Some(Wire(Frame(opcode % 16, payload), Some(mask))) else None
    ensures sent.Some? ==> OnWire(sent.value, Frame(opcode % 16, payload), Some(mask))
    ensures sent.None? <==> |payload| > 1_048_576 || (opcode >= 8 && |payload| > 125)
  {
    if |payload| > MAX_PAYLOAD || (opcode >= 8 && |payload| > MAX_CONTROL_PAYLOAD) { return None; }
    var header := Header(opcode, |payload|, 0x80);
    header := header + mask;
    var masked := new byte[|payload|](i requires 0 <= i < |payload| => payload[i]);
    assert masked[..] == payload;
    MaskInPlace(masked, mask);
    assert header + masked[..] == Wire(Frame(opcode % 16, payload), Some(mask));
    WireIsSpelled(Frame(opcode % 16, payload), Some(mask));
    sent := Some(header + masked[..]);
  }

  /** The server's `websocket_write_frame`. */
  method ServerWriteFrame(opcode: nat, payload: Bytes) returns (sent: Option<Bytes>)
    ensures sent == if Permitted(opcode, |payload|) then Some(Wire(Frame(opcode % 16, payload), None)) else None
    ensures sent.Some? ==> OnWire(sent.value, Frame(opcode % 16, payload), None)
    ensures sent.None? <==> |payload| > 1_048_576 || (opcode >= 8 && |payload| > 125)
  {
    if |payload| > MAX_PAYLOAD || (opcode >= 8 && |payload| > MAX_CONTROL_PAYLOAD) { return None; }
    var header := Header(opcode, |payload|, 0);
    WireIsSpelled(Frame(opcode % 16, payload), None);
    sent := Some(header + payload);
  }
}
