/** The on-disk format of the store: header, records, integrity chain (src/persistence.cpp). */
module StoreFormat {
  import opened Errors
  import opened CanonicalBytes

  /** The two integrity functions. Every result below holds whatever functions these are. */
  datatype Checks = Checks(crc: Bytes -> U32, digest: Bytes -> Digest)

  const MAGIC: Bytes := [74, 73, 84, 84, 69, 82, 79, 66] // "JITTEROB"
  const FORMAT_VERSION: U32 := 1
  const HEADER_BYTES: nat := 80
  const PREFIX_BYTES: nat := 12 // length, type, flags, payload crc
  const SUFFIX_BYTES: nat := 36 // record crc, chain digest
  const MAX_PAYLOAD_BYTES: nat := 1048576
  const MAX_STORE_RECORDS: nat := 4194304
  const MAX_STORE_BYTES: nat := 0x4_0000_0000
  const TRAILER_PAYLOAD_BYTES: nat := 40

  datatype RecordType =
    | ClockDomain | Equivalence | Source | Series | Path | Generation | Sample
    | Baseline | Episode | ConflictRecord | Marker | Trailer | SourceGuard

  function TypeCode(t: RecordType): U16 {
    match t
    case ClockDomain => 1
    case Equivalence => 2
    case Source => 3
    case Series => 4
    case Path => 5
    case Generation => 6
    case Sample => 7
    case Baseline => 8
    case Episode => 9
    case ConflictRecord => 10
    case Marker => 11
    case Trailer => 12
    case SourceGuard => 13
  }

  function TypeOfCode(code: nat): Option<RecordType> {
    match code
    case 1 => Some(ClockDomain)
    case 2 => Some(Equivalence)
    case 3 => Some(Source)
    case 4 => Some(Series)
    case 5 => Some(Path)
    case 6 => Some(Generation)
    case 7 => Some(Sample)
    case 8 => Some(Baseline)
    case 9 => Some(Episode)
    case 10 => Some(ConflictRecord)
    case 11 => Some(Marker)
    case 12 => Some(Trailer)
    case 13 => Some(SourceGuard)
    case _ => None
  }

  lemma TypeCodeKnown(t: RecordType)
    ensures TypeOfCode(TypeCode(t)) == Some(t)
  {
  }

  /** No other code is known. */
  lemma KnownTypeCode(code: nat)
    requires TypeOfCode(code).Some?
    ensures TypeCode(TypeOfCode(code).value) == code
  {
  }

  // ---------------------------------------------------------------------------
  // Header
  // ---------------------------------------------------------------------------

  datatype StoreHeader = StoreHeader(
    formatVersion: U32, storeEpoch: U64, createdAtUtcNs: I64, bootId: U64, storeId: Digest)

  /** Everything the header checksum covers. */
  function HeaderFields(h: StoreHeader): (b: Bytes)
    ensures |b| == HEADER_BYTES - 4
  {
    MAGIC + (EncU32(h.formatVersion) + (EncU32(HEADER_BYTES) + (EncU64(h.storeEpoch) +
    (EncI64(h.createdAtUtcNs) + (EncU64(h.bootId) + (h.storeId + EncU32(0)))))))
  }

  function EncodeHeader(chk: Checks, h: StoreHeader): (b: Bytes)
    ensures |b| == HEADER_BYTES
  {
    HeaderFields(h) + EncU32(chk.crc(HeaderFields(h)))
  }

  // The fields behind the magic, read in order; a short read cannot happen in 68 bytes.
  function DecodeHeaderFields(b: Bytes): Parse<StoreHeader> {
    var (version, r1) :- DecU32(b);
    if version != FORMAT_VERSION then Malformed(VersionUnsupported) else
    var (size, r2) :- DecU32(r1);
    if size != HEADER_BYTES then Malformed(Corrupt) else
    var (epoch, r3) :- DecU64(r2);
    var (created, r4) :- DecI64(r3);
    var (boot, r5) :- DecU64(r4);
    var (id, r6) :- DecDigest(r5);
    var (reserved, r7) :- DecU32(r6);
    if reserved != 0 then Malformed(Corrupt) else
    Parsed(StoreHeader(version, epoch, created, boot, id), r7)
  }

  function DecodeHeader(chk: Checks, b: Bytes): Result<StoreHeader> {
    if |b| < HEADER_BYTES then Err(Corrupt)
    else if b[..8] != MAGIC then Err(Corrupt)
    else if chk.crc(b[..HEADER_BYTES - 4]) != ValueOf(b[HEADER_BYTES - 4..HEADER_BYTES]) then
      Err(IntegrityFailure)
    else
      match DecodeHeaderFields(b[8..HEADER_BYTES - 4])
      case Parsed(h, _) => Ok(h)
      case Malformed(e) => Err(e)
  }

  lemma HeaderFieldsRoundTrip(h: StoreHeader)
    requires h.formatVersion == FORMAT_VERSION
    ensures DecodeHeaderFields(HeaderFields(h)[8..]) == Parsed(h, [])
  {
    var f7 := EncU32(0);
    var f6 := h.storeId + f7;
    var f5 := EncU64(h.bootId) + f6;
    var f4 := EncI64(h.createdAtUtcNs) + f5;
    var f3 := EncU64(h.storeEpoch) + f4;
    var f2 := EncU32(HEADER_BYTES) + f3;
    assert HeaderFields(h)[8..] == EncU32(h.formatVersion) + f2;
    U32RoundTrip(h.formatVersion, f2);
    U32RoundTrip(HEADER_BYTES, f3);
    U64RoundTrip(h.storeEpoch, f4);
    I64RoundTrip(h.createdAtUtcNs, f5);
    U64RoundTrip(h.bootId, f6);
    DigestRoundTrip(h.storeId, f7);
    U32RoundTrip(0, []);
    assert f7 + [] == f7;
  }

  /** A written header reads back, from the front of any file it starts. */
  lemma HeaderRoundTrip(chk: Checks, h: StoreHeader, rest: Bytes)
    requires h.formatVersion == FORMAT_VERSION
    ensures DecodeHeader(chk, EncodeHeader(chk, h) + rest) == Ok(h)
  {
    hide HeaderFields, DecodeHeaderFields;
    var b := EncodeHeader(chk, h) + rest;
    var fields := HeaderFields(h);
    assert b[..HEADER_BYTES - 4] == fields;
    assert b[HEADER_BYTES - 4..HEADER_BYTES] == EncU32(chk.crc(fields));
    PowersOf256();
    ValueOfBigEndian(4, chk.crc(fields));
    assert b[8..HEADER_BYTES - 4] == fields[8..];
    HeaderStartsWithMagic(h);
    assert b[..8] == fields[..8];
    HeaderFieldsRoundTrip(h);
  }

  lemma HeaderStartsWithMagic(h: StoreHeader)
    ensures HeaderFields(h)[..8] == MAGIC
  {
  }

  // The fields behind the magic are read from their encoding only.
  lemma OnlyFieldsDecode(b: Bytes)
    requires |b| == HEADER_BYTES - 12 && DecodeHeaderFields(b).Parsed?
    ensures var h := DecodeHeaderFields(b).value;
      h.formatVersion == FORMAT_VERSION && MAGIC + b == HeaderFields(h)
  {
    hide DecU32, DecU64, DecI64, BigEndian, EncU32, EncU64, EncI64;
    var (version, r1) := DecU32(b).Extract();
    U32Consumed(b);
    var (size, r2) := DecU32(r1).Extract();
    U32Consumed(r1);
    var (epoch, r3) := DecU64(r2).Extract();
    U64Consumed(r2);
    var (created, r4) := DecI64(r3).Extract();
    I64Consumed(r3);
    var (boot, r5) := DecU64(r4).Extract();
    U64Consumed(r4);
    var (id, r6) := DecDigest(r5).Extract();
    var (reserved, r7) := DecU32(r6).Extract();
    U32Consumed(r6);
    FieldLengths(version, epoch, created);
    FieldLengths(size, boot, created);
    FieldLengths(reserved, boot, created);
    assert r7 == [] && r6 == EncU32(0);
  }

  lemma FieldLengths(a: U32, b: U64, c: I64)
    ensures |EncU32(a)| == 4 && |EncU64(b)| == 8 && |EncI64(c)| == 8
  {
  }

  /** Only written headers read: the bytes that give a header are that header's encoding, checksum
      included. */
  lemma OnlyHeadersDecode(chk: Checks, b: Bytes)
    requires DecodeHeader(chk, b).Ok?
    ensures var h := DecodeHeader(chk, b).value;
      h.formatVersion == FORMAT_VERSION && b[..HEADER_BYTES] == EncodeHeader(chk, h)
  {
    hide HeaderFields, DecodeHeaderFields;
    var fields, sum := b[..HEADER_BYTES - 4], b[HEADER_BYTES - 4..HEADER_BYTES];
    OnlyFieldsDecode(b[8..HEADER_BYTES - 4]);
    assert fields == b[..8] + b[8..HEADER_BYTES - 4];
    BigEndianOfValue(sum);
    assert b[..HEADER_BYTES] == fields + sum;
  }

  /** A header of another format version is told apart from a damaged one. */
  lemma OtherVersionRefused(chk: Checks, h: StoreHeader, rest: Bytes)
    requires h.formatVersion != FORMAT_VERSION
    ensures DecodeHeader(chk, EncodeHeader(chk, h) + rest) == Err(VersionUnsupported)
  {
    hide HeaderFields, DecodeHeaderFields;
    var b := EncodeHeader(chk, h) + rest;
    var fields := HeaderFields(h);
    assert b[..HEADER_BYTES - 4] == fields;
    assert b[HEADER_BYTES - 4..HEADER_BYTES] == EncU32(chk.crc(fields));
    PowersOf256();
    ValueOfBigEndian(4, chk.crc(fields));
    assert b[8..HEADER_BYTES - 4] == fields[8..];
    HeaderStartsWithMagic(h);
    assert b[..8] == fields[..8];
    OtherVersionFields(h);
  }

  lemma OtherVersionFields(h: StoreHeader)
    requires h.formatVersion != FORMAT_VERSION
    ensures DecodeHeaderFields(HeaderFields(h)[8..]) == Malformed(VersionUnsupported)
  {
    var rest := HeaderFields(h)[12..];
    assert HeaderFields(h)[8..] == EncU32(h.formatVersion) + rest;
    U32RoundTrip(h.formatVersion, rest);
  }

  // ---------------------------------------------------------------------------
  // Records
  // ---------------------------------------------------------------------------

  datatype Rec = Rec(kind: RecordType, payload: Bytes)

  predicate Fits(r: Rec) {
    |r.payload| <= MAX_PAYLOAD_BYTES
  }

  function Prefix(chk: Checks, r: Rec): (b: Bytes)
    ensures |b| == PREFIX_BYTES
  {
    BigEndian(4, |r.payload|) + EncU16(TypeCode(r.kind)) + EncU16(0) + EncU32(chk.crc(r.payload))
  }

  /** The bytes the record checksum and the chain digest cover. */
  function Covered(chk: Checks, r: Rec): (b: Bytes)
    ensures |b| == PREFIX_BYTES + |r.payload|
  {
    Prefix(chk, r) + r.payload
  }

  function ChainStep(chk: Checks, previous: Digest, covered: Bytes): Digest {
    chk.digest(previous + covered)
  }

  function RecordBytes(chk: Checks, chain: Digest, r: Rec): (b: Bytes)
    ensures |b| == PREFIX_BYTES + |r.payload| + SUFFIX_BYTES
  {
    var covered := Covered(chk, r);
    covered + (EncU32(chk.crc(covered)) + ChainStep(chk, chain, covered))
  }

  function Seed(chk: Checks, h: StoreHeader): Digest {
    chk.digest(EncodeHeader(chk, h))
  }

  /** The chain digest after the records rs. */
  function ChainAfter(chk: Checks, h: StoreHeader, rs: seq<Rec>): Digest {
    if rs == [] then
      Seed(chk, h)
    else
      ChainStep(chk, ChainAfter(chk, h, rs[..|rs| - 1]), Covered(chk, rs[|rs| - 1]))
  }

  /** The file that holds the header and the records rs. */
  function Image(chk: Checks, h: StoreHeader, rs: seq<Rec>): (b: Bytes)
    ensures |b| >= HEADER_BYTES
  {
    if rs == [] then
      EncodeHeader(chk, h)
    else
      var front := rs[..|rs| - 1];
      Image(chk, h, front) + RecordBytes(chk, ChainAfter(chk, h, front), rs[|rs| - 1])
  }

  function TrailerPayload(count: U64, root: Digest): (b: Bytes)
    ensures |b| == TRAILER_PAYLOAD_BYTES
  {
    EncU64(count) + root
  }

  /** The number of records that are not trailers. */
  function DataCount(rs: seq<Rec>): (n: nat)
    ensures n <= |rs|
  {
    if rs == [] then 0
    else DataCount(rs[..|rs| - 1]) + (if rs[|rs| - 1].kind.Trailer? then 0 else 1)
  }

  /** Byte offset at which record k starts; End(|rs|) is the size of the file. */
  function Offset(chk: Checks, h: StoreHeader, rs: seq<Rec>, k: nat): (n: nat)
    requires k <= |rs|
    ensures n >= HEADER_BYTES
  {
    |Image(chk, h, rs[..k])|
  }

  lemma ImageStep(chk: Checks, h: StoreHeader, rs: seq<Rec>, k: nat)
    requires k < |rs|
    ensures Image(chk, h, rs[..k + 1]) ==
      Image(chk, h, rs[..k]) + RecordBytes(chk, ChainAfter(chk, h, rs[..k]), rs[k])
    ensures Offset(chk, h, rs, k + 1) ==
      Offset(chk, h, rs, k) + PREFIX_BYTES + |rs[k].payload| + SUFFIX_BYTES
    ensures ChainAfter(chk, h, rs[..k + 1]) ==
      ChainStep(chk, ChainAfter(chk, h, rs[..k]), Covered(chk, rs[k]))
  {
    assert rs[..k + 1][..k] == rs[..k];
  }

  /** The first records of a file are a prefix of it. */
  lemma {:induction false} ImagePrefix(chk: Checks, h: StoreHeader, rs: seq<Rec>, k: nat)
    requires k <= |rs|
    ensures Image(chk, h, rs[..k]) <= Image(chk, h, rs)
    decreases |rs| - k
  {
    hide EncodeHeader, RecordBytes, ChainAfter;
    if k == |rs| {
      assert rs[..k] == rs;
    } else {
      ImageStep(chk, h, rs, k);
      ImagePrefix(chk, h, rs, k + 1);
    }
  }

  /** Record k sits at its offset. */
  lemma RecordInImage(chk: Checks, h: StoreHeader, rs: seq<Rec>, k: nat)
    requires k < |rs|
    ensures Offset(chk, h, rs, k) <= Offset(chk, h, rs, k + 1) <= |Image(chk, h, rs)|
    ensures Image(chk, h, rs)[Offset(chk, h, rs, k)..Offset(chk, h, rs, k + 1)] ==
      RecordBytes(chk, ChainAfter(chk, h, rs[..k]), rs[k])
  {
    hide EncodeHeader, RecordBytes, ChainAfter;
    ImageStep(chk, h, rs, k);
    ImagePrefix(chk, h, rs, k + 1);
    var front, all := Image(chk, h, rs[..k]), Image(chk, h, rs);
    assert all[..|Image(chk, h, rs[..k + 1])|] == Image(chk, h, rs[..k + 1]);
  }
}
