/** Damage inside a stored payload is found by the CRC-32C of the record, at the right place; damage
    to a stored length can pass for a file that was cut. */
module StoreDamage {
  import opened CanonicalBytes
  import opened Errors
  import opened StoreFormat
  import opened StoreLoader
  import opened StoreRecovery
  import Crc32c
  import W = StoreWriter

  // ---------------------------------------------------------------------------
  // Slices
  // ---------------------------------------------------------------------------

  lemma SamePart(f: Bytes, g: Bytes, n: nat, a: nat, b: nat)
    requires n <= |f| && n <= |g| && f[..n] == g[..n] && a <= b <= n
    ensures f[a..b] == g[a..b]
  {
    assert f[a..b] == f[..n][a..b];
    assert g[a..b] == g[..n][a..b];
  }

  lemma PartOfPart(f: Bytes, x: nat, n: nat, a: nat, b: nat)
    requires x + n <= |f| && a <= b <= n
    ensures f[x..x + n][a..b] == f[x + a..x + b]
  {
    var part := f[x..x + n];
    forall i | 0 <= i < b - a
      ensures part[a..b][i] == f[x + a..x + b][i]
    {
      assert part[a + i] == f[x + (a + i)];
    }
    assert part[a..b] == f[x + a..x + b];
  }

  function Spliced(f: Bytes, at: nat, p: Bytes): (g: Bytes)
    requires at + |p| <= |f|
    ensures |g| == |f| && g[..at] == f[..at] && g[at..at + |p|] == p
  {
    f[..at] + p + f[at + |p|..]
  }

  // ---------------------------------------------------------------------------
  // The scan of a file that starts like a written one
  // ---------------------------------------------------------------------------

  ghost predicate StartsLike(chk: Checks, h: StoreHeader, rs: seq<Rec>, file: Bytes, k: nat) {
    && k <= |rs| && Offset(chk, h, rs, k) <= |file| && Offset(chk, h, rs, k) <= |Image(chk, h, rs)|
    && file[..Offset(chk, h, rs, k)] == Image(chk, h, rs)[..Offset(chk, h, rs, k)]
  }

  lemma {:induction false} WalkPrefix(chk: Checks, h: StoreHeader, rs: seq<Rec>, file: Bytes, j: nat, k: nat)
    requires Written(chk, h, rs) && j <= k && StartsLike(chk, h, rs, file, k) && NoTrailer(rs, k)
    requires HEADER_BYTES <= |file|
    ensures Offset(chk, h, rs, j) <= |file|
    ensures Walk(chk, file, ScanAt(chk, h, rs, j, |file|)) == Walk(chk, file, ScanAt(chk, h, rs, k, |file|))
    decreases k - j
  {
    hide ReadRecord, Image, ChainAfter, Stored, Keep, Offset;
    OffsetsGrow(chk, h, rs, j, k);
    if j < k {
      OffsetsGrow(chk, h, rs, j + 1, k);
      ReadPrefix(chk, h, rs, file, j, k);
      KeepData(chk, h, rs, |file|, j, chk.digest(file[..HEADER_BYTES]));
      StoredExtends(chk, h, rs, j);
      WalkPrefix(chk, h, rs, file, j + 1, k);
    }
  }

  lemma ReadPrefix(chk: Checks, h: StoreHeader, rs: seq<Rec>, file: Bytes, j: nat, k: nat)
    requires Written(chk, h, rs) && j < k && StartsLike(chk, h, rs, file, k)
    ensures Offset(chk, h, rs, j) <= |file|
    ensures ReadRecord(chk, file, Offset(chk, h, rs, j), ChainAfter(chk, h, rs[..j])) ==
      Good(Stored(chk, h, rs, j + 1)[j], Offset(chk, h, rs, j + 1))
  {
    hide RecordBytes, ReadRecord, Image;
    OffsetsGrow(chk, h, rs, j + 1, k);
    ImageStep(chk, h, rs, j);
    RecordInImage(chk, h, rs, j);
    SamePart(file, Image(chk, h, rs), Offset(chk, h, rs, k), Offset(chk, h, rs, j), Offset(chk, h, rs, j + 1));
    ReadWhole(chk, file, Offset(chk, h, rs, j), ChainAfter(chk, h, rs[..j]), rs[j]);
  }

  /** The written file with the payload of record k replaced by another of the same length. */
  function Altered(chk: Checks, h: StoreHeader, rs: seq<Rec>, k: nat, payload: Bytes): (b: Bytes)
    requires k < |rs| && Offset(chk, h, rs, k) + PREFIX_BYTES + |payload| <= |Image(chk, h, rs)|
    ensures |b| == |Image(chk, h, rs)|
  {
    Spliced(Image(chk, h, rs), Offset(chk, h, rs, k) + PREFIX_BYTES, payload)
  }

  // A record whose payload fails its checksum is refused.
  lemma ReadBadPayload(chk: Checks, file: Bytes, offset: nat, chain: Digest, r: Rec, payload: Bytes)
    requires Fits(r) && |payload| == |r.payload| && chk.crc(payload) != chk.crc(r.payload)
    requires offset + PREFIX_BYTES + |payload| + SUFFIX_BYTES <= |file|
    requires file[offset..offset + PREFIX_BYTES] == Prefix(chk, r)
    requires file[offset + PREFIX_BYTES..offset + PREFIX_BYTES + |payload|] == payload
    ensures ReadRecord(chk, file, offset, chain) ==
      Refused(offset + PREFIX_BYTES + |payload| + SUFFIX_BYTES < |file|)
  {
    hide TypeOfCode, ChainStep, Prefix;
    PrefixFields(chk, r);
    PartOfPart(file, offset, PREFIX_BYTES + |payload| + SUFFIX_BYTES, PREFIX_BYTES, PREFIX_BYTES + |payload|);
  }

  lemma ReadAltered(chk: Checks, h: StoreHeader, rs: seq<Rec>, k: nat, payload: Bytes)
    requires Written(chk, h, rs) && k < |rs| && |payload| == |rs[k].payload|
    requires chk.crc(payload) != chk.crc(rs[k].payload)
    ensures Offset(chk, h, rs, k + 1) == Offset(chk, h, rs, k) + PREFIX_BYTES + |payload| + SUFFIX_BYTES
    ensures Offset(chk, h, rs, k + 1) <= |Image(chk, h, rs)|
    ensures StartsLike(chk, h, rs, Altered(chk, h, rs, k, payload), k)
    ensures ReadRecord(chk, Altered(chk, h, rs, k, payload), Offset(chk, h, rs, k), ChainAfter(chk, h, rs[..k])) ==
      Refused(Offset(chk, h, rs, k + 1) < |Image(chk, h, rs)|)
  {
    hide Image, ChainAfter, RecordBytes, ReadRecord, Spliced, Prefix, Offset;
    RecordInImage(chk, h, rs, k);
    ImageStep(chk, h, rs, k);
    var all, at := Image(chk, h, rs), Offset(chk, h, rs, k);
    var file, chain := Altered(chk, h, rs, k, payload), ChainAfter(chk, h, rs[..k]);
    RecordStartsWithPrefix(chk, chain, rs[k]);
    PartOfPart(all, at, |RecordBytes(chk, chain, rs[k])|, 0, PREFIX_BYTES);
    SamePart(file, all, at + PREFIX_BYTES, at, at + PREFIX_BYTES);
    SamePart(file, all, at + PREFIX_BYTES, 0, at);
    ReadBadPayload(chk, file, at, chain, rs[k], payload);
  }

  /** Damage confined to four consecutive bytes of one payload never goes unnoticed and never
      costs an earlier record: exactly the records before the damaged one are returned, and it
      is reported as mid-file corruption if anything follows it, as a corrupt tail otherwise. */
  lemma PayloadBurstFound(chk: Checks, h: StoreHeader, rs: seq<Rec>, k: nat, payload: Bytes, start: nat)
    requires forall b: Bytes :: chk.crc(b) == Crc32c.Crc(b)
    requires Written(chk, h, rs) && k < |rs| && NoTrailer(rs, k)
    requires |payload| == |rs[k].payload| && payload != rs[k].payload
    requires forall i :: 0 <= i < |payload| && !(start <= i < start + 4) ==> payload[i] == rs[k].payload[i]
    ensures Offset(chk, h, rs, k) + PREFIX_BYTES + |payload| <= |Image(chk, h, rs)|
    ensures Loaded(chk, Altered(chk, h, rs, k, payload)).Ok?
    ensures var l := Loaded(chk, Altered(chk, h, rs, k, payload)).value;
      && l.records == Stored(chk, h, rs, k)
      && l.recovery.validBytes == Offset(chk, h, rs, k)
      && l.recovery.validBytes + l.recovery.bytesDiscarded == |Image(chk, h, rs)|
      && l.recovery.midFileCorruption == (Offset(chk, h, rs, k + 1) < |Image(chk, h, rs)|)
      && l.recovery.corruptTailRecord == !l.recovery.midFileCorruption
      && !l.recovery.clean
  {
    hide Image, Offset, ReadRecord, ChainAfter, Stored, EncodeHeader, DecodeHeader, Crc32c.Crc, Altered;
    Crc32c.BurstDetected(payload, rs[k].payload, start);
    ReadAltered(chk, h, rs, k, payload);
    var file := Altered(chk, h, rs, k, payload);
    FirstOffset(chk, h, rs);
    OffsetsGrow(chk, h, rs, 0, k);
    WalkPrefix(chk, h, rs, file, 0, k);
    FileSeed(chk, h, rs, Offset(chk, h, rs, k));
    assert file[..HEADER_BYTES] == file[..Offset(chk, h, rs, k)][..HEADER_BYTES];
    assert EncodeHeader(chk, h) + [] == EncodeHeader(chk, h);
    HeaderRoundTrip(chk, h, []);
  }

  /** Such a file is never reopened as it is. With records behind the damage it is refused as corrupt,
      repair or not; in the last record it is refused without repair, and repair drops that record
      and nothing else. */
  lemma PayloadBurstReopened(
    chk: Checks, h: StoreHeader, rs: seq<Rec>, k: nat, payload: Bytes, start: nat, repair: bool)
    requires forall b: Bytes :: chk.crc(b) == Crc32c.Crc(b)
    requires Written(chk, h, rs) && k < |rs| && NoTrailer(rs, k)
    requires |payload| == |rs[k].payload| && payload != rs[k].payload
    requires forall i :: 0 <= i < |payload| && !(start <= i < start + 4) ==> payload[i] == rs[k].payload[i]
    ensures Offset(chk, h, rs, k) + PREFIX_BYTES + |payload| <= |Image(chk, h, rs)|
    ensures var r := W.Reopened(chk, Altered(chk, h, rs, k, payload), repair);
      && (k + 1 < |rs| ==> r == Err(Corrupt))
      && (k + 1 == |rs| && !repair ==> r == Err(IntegrityFailure))
      && (k + 1 == |rs| && repair ==>
            && r.Ok? && r.value.state.file == Image(chk, h, rs[..k])
            && r.value.repairBytes == |Image(chk, h, rs)| - Offset(chk, h, rs, k))
  {
    hide Image, ChainAfter, Altered, Loaded, RecordBytes, EncodeHeader, Offset, Stored, W.LastDataChain, W.DataRecords,
      W.TrailerOffset;
    PayloadBurstFound(chk, h, rs, k, payload, start);
    OffsetsGrow(chk, h, rs, k, k + 1);
    OffsetsGrow(chk, h, rs, k + 1, |rs|);
    WholeOffset(chk, h, rs);
    NoTrailerStored(chk, h, rs, k);
    AlteredPrefix(chk, h, rs, k, payload);
  }

  lemma AlteredPrefix(chk: Checks, h: StoreHeader, rs: seq<Rec>, k: nat, payload: Bytes)
    requires k < |rs| && Offset(chk, h, rs, k) + PREFIX_BYTES + |payload| <= |Image(chk, h, rs)|
    ensures Altered(chk, h, rs, k, payload)[..Offset(chk, h, rs, k)] == Image(chk, h, rs[..k])
  {
    hide ChainAfter, RecordBytes, Spliced;
    var at, all := Offset(chk, h, rs, k), Image(chk, h, rs);
    ImagePrefix(chk, h, rs, k);
    SamePart(Altered(chk, h, rs, k, payload), all, at + PREFIX_BYTES, 0, at);
  }

  // ---------------------------------------------------------------------------
  // Damage to the header
  // ---------------------------------------------------------------------------

  /** The bytes b are a written header with damage confined to four consecutive bytes from start. */
  ghost predicate HeaderBurst(chk: Checks, h: StoreHeader, b: Bytes, start: nat) {
    && |b| == HEADER_BYTES && b != EncodeHeader(chk, h)
    && forall i :: 0 <= i < HEADER_BYTES && !(start <= i < start + 4) ==> b[i] == EncodeHeader(chk, h)[i]
  }

  lemma EncodedParts(chk: Checks, h: StoreHeader)
    ensures var e := EncodeHeader(chk, h);
      && e[..HEADER_BYTES - 4] == HeaderFields(h)
      && e[HEADER_BYTES - 8..HEADER_BYTES - 4] == EncU32(0)
      && e[HEADER_BYTES - 4..] == EncU32(chk.crc(HeaderFields(h)))
  {
    hide EncU32, EncU64, EncI64;
    FieldLengths(h.formatVersion, h.storeEpoch, h.createdAtUtcNs);
    FieldLengths(HEADER_BYTES, h.bootId, h.createdAtUtcNs);
    FieldLengths(0, h.bootId, h.createdAtUtcNs);
    var e := EncodeHeader(chk, h);
    assert e[HEADER_BYTES - 8..HEADER_BYTES - 4] == HeaderFields(h)[HEADER_BYTES - 8..];
    ReservedLast(h);
  }

  lemma ReservedLast(h: StoreHeader)
    ensures HeaderFields(h)[HEADER_BYTES - 8..] == EncU32(0)
  {
    hide BigEndian;
    FieldLengths(h.formatVersion, h.storeEpoch, h.createdAtUtcNs);
    FieldLengths(HEADER_BYTES, h.bootId, h.createdAtUtcNs);
    FieldLengths(0, h.bootId, h.createdAtUtcNs);
    var front := MAGIC + EncU32(h.formatVersion) + EncU32(HEADER_BYTES) + EncU64(h.storeEpoch) +
      EncI64(h.createdAtUtcNs) + EncU64(h.bootId) + h.storeId;
    assert HeaderFields(h) == front + EncU32(0);
  }

  // The stored checksum no longer agrees with the bytes it covers, unless the damage spans both.
  lemma HeaderSumDiffers(chk: Checks, h: StoreHeader, b: Bytes, start: nat)
    requires forall d: Bytes :: chk.crc(d) == Crc32c.Crc(d)
    requires HeaderBurst(chk, h, b, start)
    requires start + 4 <= HEADER_BYTES - 4 || b[..HEADER_BYTES - 4] == HeaderFields(h)
    ensures chk.crc(b[..HEADER_BYTES - 4]) != ValueOf(b[HEADER_BYTES - 4..])
  {
    hide EncodeHeader, HeaderFields, Crc32c.Crc;
    EncodedParts(chk, h);
    var fields, sum := b[..HEADER_BYTES - 4], b[HEADER_BYTES - 4..];
    assert b == fields + sum;
    assert EncodeHeader(chk, h) == HeaderFields(h) + EncodeHeader(chk, h)[HEADER_BYTES - 4..];
    if fields == HeaderFields(h) {
      BigEndianOfValue(sum);
    } else {
      assert sum == EncodeHeader(chk, h)[HEADER_BYTES - 4..];
      PowersOf256();
      ValueOfBigEndian(4, chk.crc(HeaderFields(h)));
      Crc32c.BurstDetected(fields, HeaderFields(h), start);
    }
  }

  /** Damage confined to four consecutive bytes of the header never goes unnoticed: no such file
      loads or is reopened. It is reported as no store at all if the magic is touched, and as an
      integrity failure if not, except where the damage spans the end of the reserved field and the
      start of the checksum; there the reserved field may be what gives it away. */
  lemma HeaderBurstFound(chk: Checks, h: StoreHeader, file: Bytes, start: nat, repair: bool)
    requires forall d: Bytes :: chk.crc(d) == Crc32c.Crc(d)
    requires |file| >= HEADER_BYTES && HeaderBurst(chk, h, file[..HEADER_BYTES], start)
    ensures Loaded(chk, file).Err? && W.Reopened(chk, file, repair).Err?
    ensures file[..8] != MAGIC ==> Loaded(chk, file) == Err(Corrupt)
    ensures file[..8] == MAGIC && (start + 4 <= HEADER_BYTES - 4 || HEADER_BYTES - 4 <= start) ==>
      Loaded(chk, file) == Err(IntegrityFailure)
  {
    hide EncodeHeader, HeaderFields, Crc32c.Crc, DecodeHeaderFields, Walk, StartScan;
    var b := file[..HEADER_BYTES];
    EncodedParts(chk, h);
    assert b[..8] == file[..8];
    assert b[HEADER_BYTES - 4..HEADER_BYTES] == b[HEADER_BYTES - 4..];
    if start + 4 <= HEADER_BYTES - 4 {
      HeaderSumDiffers(chk, h, b, start);
    } else if HEADER_BYTES - 4 <= start {
      assert b[..HEADER_BYTES - 4] == EncodeHeader(chk, h)[..HEADER_BYTES - 4];
      HeaderSumDiffers(chk, h, b, start);
    } else if DecodeHeader(chk, b).Ok? {
      OnlyHeadersDecode(chk, b);
      assert b[..HEADER_BYTES] == b;
      EncodedParts(chk, DecodeHeader(chk, b).value);
      SameBeforeSum(b, EncodeHeader(chk, h));
      HeaderSumDiffers(chk, h, b, start);
      assert false;
    }
  }

  lemma SameBeforeSum(b: Bytes, e: Bytes)
    requires |b| == |e| == HEADER_BYTES
    requires b[HEADER_BYTES - 8..HEADER_BYTES - 4] == e[HEADER_BYTES - 8..HEADER_BYTES - 4]
    requires forall i :: 0 <= i < HEADER_BYTES - 8 ==> b[i] == e[i]
    ensures b[..HEADER_BYTES - 4] == e[..HEADER_BYTES - 4]
  {
    forall i | 0 <= i < HEADER_BYTES - 4
      ensures b[i] == e[i]
    {
      if i >= HEADER_BYTES - 8 {
        assert b[HEADER_BYTES - 8..HEADER_BYTES - 4][i - (HEADER_BYTES - 8)] == b[i];
      }
    }
  }

  // ---------------------------------------------------------------------------
  // Damage to the length
  // ---------------------------------------------------------------------------

  /** The written file with another payload length in the prefix of record k. */
  function Relabelled(chk: Checks, h: StoreHeader, rs: seq<Rec>, k: nat, length: U32): (b: Bytes)
    requires k < |rs| && Offset(chk, h, rs, k) + PREFIX_BYTES <= |Image(chk, h, rs)|
    ensures |b| == |Image(chk, h, rs)|
  {
    Spliced(Image(chk, h, rs), Offset(chk, h, rs, k), EncU32(length))
  }

  /** A length that a record may have, but that reaches past the end of the file. */
  predicate RunsPast(offset: nat, length: U32, total: nat) {
    length <= MAX_PAYLOAD_BYTES && offset + PREFIX_BYTES + length + SUFFIX_BYTES > total
  }

  // Reading a record whose prefix states this length.
  lemma ReadLength(chk: Checks, file: Bytes, offset: nat, chain: Digest, length: U32)
    requires offset + PREFIX_BYTES <= |file| && file[offset..offset + 4] == EncU32(length)
    ensures ReadRecord(chk, file, offset, chain).Short? <==> RunsPast(offset, length, |file|)
    ensures !ReadRecord(chk, file, offset, chain).AtEnd?
  {
    hide ChainStep, TypeOfCode;
    PartOfPart(file, offset, PREFIX_BYTES, 0, 4);
    PowersOf256();
    ValueOfBigEndian(4, length);
  }

  lemma {:induction false} WalkExtends(chk: Checks, file: Bytes, s: Scan)
    requires |file| >= HEADER_BYTES && s.offset <= |file|
    ensures |Walk(chk, file, s).records| >= |s.records|
    decreases |file| - s.offset
  {
    hide ReadRecord, ReadTrailer;
    var o := ReadRecord(chk, file, s.offset, s.chain);
    if o.Good? && !o.record.kind.Trailer? {
      WalkExtends(chk, file, Keep(s, chk.digest(file[..HEADER_BYTES]), o.record, o.next));
    }
  }

  // Where the scan stands decides what it reports there.
  lemma StopsShort(chk: Checks, file: Bytes, s: Scan)
    requires |file| >= HEADER_BYTES && s.offset <= |file| && !s.recovery.truncatedTail
    requires !ReadRecord(chk, file, s.offset, s.chain).AtEnd?
    ensures var w := Walk(chk, file, s);
      (w.records == s.records && w.recovery.truncatedTail) <==> ReadRecord(chk, file, s.offset, s.chain).Short?
    ensures ReadRecord(chk, file, s.offset, s.chain).Short? ==>
      Walk(chk, file, s) == s.(recovery := s.recovery.(truncatedTail := true, bytesDiscarded := |file| - s.offset))
  {
    hide ReadRecord, ReadTrailer;
    var o := ReadRecord(chk, file, s.offset, s.chain);
    if o.Good? && !o.record.kind.Trailer? {
      WalkExtends(chk, file, Keep(s, chk.digest(file[..HEADER_BYTES]), o.record, o.next));
    }
  }

  /** A wrong length in the prefix of record k passes for a file cut inside that record exactly when
      it is a length a record may have and reaches past the end of the file. Then nothing is
      reported as corrupt, whatever whole records follow, and cutting the file where loading says
      its valid bytes end, as a repair does, leaves the file of the first k records. */
  lemma LengthDamageIff(chk: Checks, h: StoreHeader, rs: seq<Rec>, k: nat, length: U32)
    requires Written(chk, h, rs) && k < |rs| && NoTrailer(rs, k)
    ensures Offset(chk, h, rs, k) + PREFIX_BYTES <= |Image(chk, h, rs)|
    ensures Loaded(chk, Relabelled(chk, h, rs, k, length)).Ok?
    ensures var file := Relabelled(chk, h, rs, k, length); var l := Loaded(chk, file).value;
      && ((l.records == Stored(chk, h, rs, k) && l.recovery.truncatedTail) <==>
            RunsPast(Offset(chk, h, rs, k), length, |Image(chk, h, rs)|))
      && (RunsPast(Offset(chk, h, rs, k), length, |Image(chk, h, rs)|) ==>
            && l.recovery.validBytes == Offset(chk, h, rs, k) && l.recovery.validBytes <= |file|
            && !l.recovery.midFileCorruption && !l.recovery.corruptTailRecord
            && file[..l.recovery.validBytes] == Image(chk, h, rs[..k]))
  {
    hide Image, Offset, ReadRecord, ChainAfter, Stored, EncodeHeader, DecodeHeader, Relabelled, RunsPast, Walk,
      RecordBytes;
    var at := Offset(chk, h, rs, k);
    RecordInImage(chk, h, rs, k);
    ImageStep(chk, h, rs, k);
    RelabelledParts(chk, h, rs, k, length);
    var file := Relabelled(chk, h, rs, k, length);
    FirstOffset(chk, h, rs);
    OffsetsGrow(chk, h, rs, 0, k);
    WalkPrefix(chk, h, rs, file, 0, k);
    FileSeed(chk, h, rs, at);
    assert file[..HEADER_BYTES] == file[..at][..HEADER_BYTES];
    assert EncodeHeader(chk, h) + [] == EncodeHeader(chk, h);
    HeaderRoundTrip(chk, h, []);
    ReadLength(chk, file, at, ChainAfter(chk, h, rs[..k]), length);
    StopsShort(chk, file, ScanAt(chk, h, rs, k, |file|));
  }

  lemma RelabelledParts(chk: Checks, h: StoreHeader, rs: seq<Rec>, k: nat, length: U32)
    requires k < |rs| && Offset(chk, h, rs, k) + PREFIX_BYTES <= |Image(chk, h, rs)|
    ensures var file := Relabelled(chk, h, rs, k, length); var at := Offset(chk, h, rs, k);
      && StartsLike(chk, h, rs, file, k) && file[at..at + 4] == EncU32(length)
      && file[..at] == Image(chk, h, rs[..k])
  {
    hide ChainAfter, RecordBytes;
    ImagePrefix(chk, h, rs, k);
    assert Image(chk, h, rs)[..|Image(chk, h, rs[..k])|] == Image(chk, h, rs[..k]);
  }

  /** Reopening such a file with repair cuts it there: record k and every whole record behind it are
      gone, and without repair it is refused as unclean, not as corrupt. */
  lemma RepairCutsRecords(chk: Checks, h: StoreHeader, rs: seq<Rec>, k: nat, length: U32)
    requires Written(chk, h, rs) && k < |rs| && NoTrailer(rs, k)
    requires RunsPast(Offset(chk, h, rs, k), length, |Image(chk, h, rs)|)
    ensures Offset(chk, h, rs, k) + PREFIX_BYTES <= |Image(chk, h, rs)|
    ensures var file := Relabelled(chk, h, rs, k, length);
      && W.Reopened(chk, file, false) == Err(IntegrityFailure)
      && W.Reopened(chk, file, true).Ok?
      && W.Reopened(chk, file, true).value.state.file == Image(chk, h, rs[..k])
      && W.Reopened(chk, file, true).value.repairBytes == |Image(chk, h, rs)| - Offset(chk, h, rs, k)
  {
    hide Image, ChainAfter, EncodeHeader, DecodeHeader, Relabelled, RunsPast, Walk, RecordBytes, Loaded,
      W.LastDataChain, W.TrailerOffset, Stored;
    LengthDamageIff(chk, h, rs, k, length);
    OffsetsGrow(chk, h, rs, k, |rs|);
    NoTrailerStored(chk, h, rs, k);
    assert rs[..|rs|] == rs;
  }

  lemma {:induction false} NoTrailerStored(chk: Checks, h: StoreHeader, rs: seq<Rec>, k: nat)
    requires k <= |rs| && NoTrailer(rs, k)
    ensures W.TrailerOffset(Stored(chk, h, rs, k)) == None
  {
    hide Offset, ChainAfter;
    if k > 0 {
      NoTrailerStored(chk, h, rs, k - 1);
      assert Stored(chk, h, rs, k)[..k - 1] == Stored(chk, h, rs, k - 1);
    }
  }
}
