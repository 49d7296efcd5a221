/** The framed wire protocol: encode_frame and decode_frame (src/wire.cpp). */
module Wire {
  import opened Errors
  import opened CanonicalBytes
  import Crc32c

  const MAGIC: Bytes := [74, 79, 87, 49] // "JOW1"
  const PROTOCOL_VERSION: U32 := 1
  const HEADER_BYTES: nat := 20
  const MAX_FRAME_BYTES: nat := 4194304

  datatype MessageType = Hello | HelloAck | Batch | BatchAck | Bye | ErrorMessage

  function TypeCode(t: MessageType): U16 {
    match t
    case Hello => 1
    case HelloAck => 2
    case Batch => 3
    case BatchAck => 4
    case Bye => 5
    case ErrorMessage => 6
  }

  function TypeOfCode(code: nat): Option<MessageType> {
    match code
    case 1 => Some(Hello)
    case 2 => Some(HelloAck)
    case 3 => Some(Batch)
    case 4 => Some(BatchAck)
    case 5 => Some(Bye)
    case 6 => Some(ErrorMessage)
    case _ => None
  }

  lemma TypeCodes(t: MessageType, code: nat)
    ensures TypeOfCode(TypeCode(t)) == Some(t)
    ensures TypeOfCode(code) == Some(t) ==> code == TypeCode(t)
  {
  }

  datatype Frame = Frame(kind: MessageType, payload: Bytes)
  datatype Decoded = Decoded(frame: Frame, consumed: nat)

  /** The twenty header bytes. */
  function Header(crc: Bytes -> U32, f: Frame): (b: Bytes)
    ensures |b| == HEADER_BYTES
  {
    (MAGIC + EncU32(PROTOCOL_VERSION) + EncU16(TypeCode(f.kind))) +
    (EncU16(0) + BigEndian(4, |f.payload|) + EncU32(crc(f.payload)))
  }

  function EncodeFrame(crc: Bytes -> U32, f: Frame): (b: Bytes)
    ensures |b| == HEADER_BYTES + |f.payload|
  {
    Header(crc, f) + f.payload
  }

  function DecodeFrame(crc: Bytes -> U32, b: Bytes): (r: Result<Decoded>)
    ensures r.Ok? ==> HEADER_BYTES <= r.value.consumed <= |b|
  {
    if |b| < HEADER_BYTES then Err(NotReady)
    else if b[..4] != MAGIC then Err(ProtocolViolation)
    else if ValueOf(b[4..8]) != PROTOCOL_VERSION then Err(VersionUnsupported)
    else
      var kind := TypeOfCode(ValueOf(b[8..10]));
      if kind.None? then Err(ProtocolViolation)
      else if ValueOf(b[10..12]) != 0 then Err(ProtocolViolation)
      else
        var length := ValueOf(b[12..16]);
        if length > MAX_FRAME_BYTES then Err(LimitExceeded)
        else if |b| < HEADER_BYTES + length then Err(NotReady)
        else
          var payload := b[HEADER_BYTES..HEADER_BYTES + length];
          if crc(payload) != ValueOf(b[16..20]) then Err(IntegrityFailure)
          else Ok(Decoded(Frame(kind.value, payload), HEADER_BYTES + length))
  }

  // ---------------------------------------------------------------------------
  // Decoding inverts encoding, on exactly the encoded bytes
  // ---------------------------------------------------------------------------

  lemma HeaderLayout(crc: Bytes -> U32, f: Frame)
    requires |f.payload| <= MAX_FRAME_BYTES
    ensures var b := Header(crc, f);
      && b[..4] == MAGIC && ValueOf(b[4..8]) == PROTOCOL_VERSION
      && ValueOf(b[8..10]) == TypeCode(f.kind) && ValueOf(b[10..12]) == 0
      && ValueOf(b[12..16]) == |f.payload| && ValueOf(b[16..20]) == crc(f.payload)
  {
    hide TypeCode;
    PowersOf256();
    ValueOfBigEndian(4, PROTOCOL_VERSION);
    ValueOfBigEndian(2, TypeCode(f.kind));
    ValueOfBigEndian(2, 0);
    ValueOfBigEndian(4, |f.payload|);
    ValueOfBigEndian(4, crc(f.payload));
    hide BigEndian, ValueOf;
    SixPieces(MAGIC, EncU32(PROTOCOL_VERSION), EncU16(TypeCode(f.kind)),
              EncU16(0), BigEndian(4, |f.payload|), EncU32(crc(f.payload)));
  }

  lemma SixPieces(a: Bytes, b: Bytes, c: Bytes, d: Bytes, e: Bytes, g: Bytes)
    requires |a| == |b| == |e| == |g| == 4 && |c| == |d| == 2
    ensures var all := (a + b + c) + (d + e + g);
      && all[..4] == a && all[4..8] == b && all[8..10] == c
      && all[10..12] == d && all[12..16] == e && all[16..20] == g
  {
    var front, back := a + b + c, d + e + g;
    var all := front + back;
    assert all[..4] == front[..4] && all[4..8] == front[4..8] && all[8..10] == front[8..10];
    assert all[10..12] == back[..2] && all[12..16] == back[2..6] && all[16..20] == back[6..10];
  }

  // A buffer that starts with a frame's header shows its fields.
  lemma HeaderFields(crc: Bytes -> U32, f: Frame, b: Bytes)
    requires |f.payload| <= MAX_FRAME_BYTES
    requires Header(crc, f) <= b
    ensures b[..4] == MAGIC && ValueOf(b[4..8]) == PROTOCOL_VERSION
    ensures ValueOf(b[8..10]) == TypeCode(f.kind) && ValueOf(b[10..12]) == 0
    ensures ValueOf(b[12..16]) == |f.payload| && ValueOf(b[16..20]) == crc(f.payload)
  {
    hide Header;
    HeaderLayout(crc, f);
    var h := Header(crc, f);
    assert b[..4] == h[..4];
    assert b[4..8] == h[4..8];
    assert b[8..10] == h[8..10];
    assert b[10..12] == h[10..12];
    assert b[12..16] == h[12..16];
    assert b[16..20] == h[16..20];
  }

  /** A frame is recovered from the front of any stream it starts. */
  lemma FrameRoundTrip(crc: Bytes -> U32, f: Frame, rest: Bytes)
    requires |f.payload| <= MAX_FRAME_BYTES
    ensures DecodeFrame(crc, EncodeFrame(crc, f) + rest) == Ok(Decoded(f, |EncodeFrame(crc, f)|))
  {
    hide Header, TypeOfCode, TypeCode;
    var b := EncodeFrame(crc, f) + rest;
    HeaderFields(crc, f, b);
    TypeCodes(f.kind, 0);
    assert b[HEADER_BYTES..HEADER_BYTES + |f.payload|] == f.payload;
  }

  /** Every proper prefix of a frame asks for more bytes. */
  lemma PrefixNotReady(crc: Bytes -> U32, f: Frame, b: Bytes)
    requires |f.payload| <= MAX_FRAME_BYTES
    requires b < EncodeFrame(crc, f)
    ensures DecodeFrame(crc, b) == Err(NotReady)
  {
    hide Header, TypeOfCode, TypeCode;
    if |b| >= HEADER_BYTES {
      HeaderFields(crc, f, b);
      TypeCodes(f.kind, 0);
    }
  }

  /** Any other answer is final: bytes behind it change nothing. */
  lemma AnswerStable(crc: Bytes -> U32, b: Bytes, more: Bytes)
    requires DecodeFrame(crc, b) != Err(NotReady)
    ensures DecodeFrame(crc, b + more) == DecodeFrame(crc, b)
  {
    hide TypeOfCode;
    var c := b + more;
    assert c[..4] == b[..4] && c[4..8] == b[4..8] && c[8..10] == b[8..10];
    assert c[10..12] == b[10..12] && c[12..16] == b[12..16] && c[16..20] == b[16..20];
    var length := ValueOf(b[12..16]);
    if |b| >= HEADER_BYTES + length {
      assert c[HEADER_BYTES..HEADER_BYTES + length] == b[HEADER_BYTES..HEADER_BYTES + length];
    }
  }

  lemma Reassembled(b: Bytes)
    requires |b| == 20
    ensures b == (b[..4] + b[4..8] + b[8..10]) + (b[10..12] + b[12..16] + b[16..])
  {
    assert b[..10] == b[..4] + b[4..8] + b[8..10];
    assert b[10..] == b[10..12] + b[12..16] + b[16..];
  }

  /** Only encodings decode: the bytes a decoded frame consumed are that frame's encoding. */
  lemma OnlyEncodingsDecode(crc: Bytes -> U32, b: Bytes)
    requires DecodeFrame(crc, b).Ok?
    ensures var d := DecodeFrame(crc, b).value; b[..d.consumed] == EncodeFrame(crc, d.frame)
  {
    hide TypeOfCode, TypeCode;
    var d := DecodeFrame(crc, b).value;
    BigEndianOfValue(b[4..8]);
    BigEndianOfValue(b[8..10]);
    BigEndianOfValue(b[10..12]);
    BigEndianOfValue(b[12..16]);
    BigEndianOfValue(b[16..20]);
    TypeCodes(d.frame.kind, ValueOf(b[8..10]));
    Reassembled(b[..20]);
    assert b[..20][..4] == b[..4] && b[..20][4..8] == b[4..8] && b[..20][8..10] == b[8..10];
    assert b[..20][10..12] == b[10..12] && b[..20][12..16] == b[12..16] && b[..20][16..] == b[16..20];
    assert b[..d.consumed] == b[..20] + d.frame.payload;
  }

  /** Damage confined to four consecutive payload bytes is rejected, whatever follows. */
  lemma FrameBurstRejected(f: Frame, payload: Bytes, rest: Bytes, start: nat)
    requires |f.payload| == |payload| <= MAX_FRAME_BYTES && payload != f.payload
    requires forall i :: 0 <= i < |payload| && !(start <= i < start + 4) ==> payload[i] == f.payload[i]
    ensures DecodeFrame(Crc32c.Crc, Header(Crc32c.Crc, f) + payload + rest) == Err(IntegrityFailure)
  {
    hide Header, TypeOfCode, TypeCode, Crc32c.Crc;
    var b := Header(Crc32c.Crc, f) + payload + rest;
    HeaderFields(Crc32c.Crc, f, b);
    TypeCodes(f.kind, 0);
    Crc32c.BurstDetected(f.payload, payload, start);
    assert b[HEADER_BYTES..HEADER_BYTES + |payload|] == payload;
  }
}
