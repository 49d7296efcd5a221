/** What recovery finds in a file that a writer produced and a crash may have cut. */
module StoreRecovery {
  import opened Errors
  import opened CanonicalBytes
  import opened StoreFormat
  import opened StoreLoader

  /** A log the writer can have produced: every payload within bounds, every trailer stating
      the number of records before it and the chain digest at that point. */
  ghost predicate Written(chk: Checks, h: StoreHeader, rs: seq<Rec>) {
    && h.formatVersion == FORMAT_VERSION
    && (forall i :: 0 <= i < |rs| ==> Fits(rs[i]))
    && (forall i :: 0 <= i < |rs| && rs[i].kind.Trailer? ==> TrailerStates(chk, h, rs[..i], rs[i]))
  }

  ghost predicate TrailerStates(chk: Checks, h: StoreHeader, before: seq<Rec>, t: Rec) {
    && DataCount(before) < 0x1_0000_0000_0000_0000
    && t.payload == TrailerPayload(DataCount(before), ChainAfter(chk, h, before))
  }

  /** No trailer among the first k records. */
  ghost predicate NoTrailer(rs: seq<Rec>, k: nat)
    requires k <= |rs|
  {
    forall i :: 0 <= i < k ==> !rs[i].kind.Trailer?
  }

  /** How record i of a log appears when loaded. */
  function LoadedRecord(chk: Checks, h: StoreHeader, rs: seq<Rec>, i: nat): StoredRecord
    requires i < |rs|
  {
    StoredRecord(rs[i].kind, Offset(chk, h, rs, i), |rs[i].payload|, ChainAfter(chk, h, rs[..i + 1]),
                 rs[i].payload)
  }

  /** How the first k records of a log appear when loaded. */
  function Stored(chk: Checks, h: StoreHeader, rs: seq<Rec>, k: nat): (s: seq<StoredRecord>)
    requires k <= |rs|
    ensures |s| == k
  {
    if k == 0 then []
    else
      Stored(chk, h, rs, k - 1) + [LoadedRecord(chk, h, rs, k - 1)]
  }

  // The scan state between record k - 1 and record k of an n-byte file.
  function ScanAt(chk: Checks, h: StoreHeader, rs: seq<Rec>, k: nat, n: nat): Scan
    requires k <= |rs|
  {
    Scan(Offset(chk, h, rs, k), ChainAfter(chk, h, rs[..k]), Stored(chk, h, rs, k),
         Recovery(true, false, false, false, false, false, k,
                  0, if k == 0 then 0 else Offset(chk, h, rs, k), n),
         0, ZERO_DIGEST)
  }

  // ---------------------------------------------------------------------------
  // Reading one written record
  // ---------------------------------------------------------------------------

  lemma PrefixFields(chk: Checks, r: Rec)
    requires Fits(r)
    ensures ValueOf(Prefix(chk, r)[..4]) == |r.payload|
    ensures ValueOf(Prefix(chk, r)[4..6]) == TypeCode(r.kind)
    ensures ValueOf(Prefix(chk, r)[8..12]) == chk.crc(r.payload)
  {
    var p := Prefix(chk, r);
    PowersOf256();
    ValueOfBigEndian(4, |r.payload|);
    ValueOfBigEndian(2, TypeCode(r.kind));
    ValueOfBigEndian(4, chk.crc(r.payload));
    assert p[..4] == BigEndian(4, |r.payload|);
    assert p[4..6] == EncU16(TypeCode(r.kind));
    assert p[8..12] == EncU32(chk.crc(r.payload));
  }

  /** A whole written record reads back, with its successor's offset. */
  lemma ReadWhole(chk: Checks, file: Bytes, offset: nat, chain: Digest, r: Rec)
    requires Fits(r)
    requires offset + PREFIX_BYTES + |r.payload| + SUFFIX_BYTES <= |file|
    requires file[offset..offset + PREFIX_BYTES + |r.payload| + SUFFIX_BYTES] == RecordBytes(chk, chain, r)
    ensures ReadRecord(chk, file, offset, chain) ==
      Good(StoredRecord(r.kind, offset, |r.payload|, ChainStep(chk, chain, Covered(chk, r)), r.payload),
           offset + PREFIX_BYTES + |r.payload| + SUFFIX_BYTES)
  {
    hide Prefix, ChainStep, TypeOfCode, TypeCode;
    var body, covered := RecordBytes(chk, chain, r), Covered(chk, r);
    assert file[offset..offset + PREFIX_BYTES] == body[..PREFIX_BYTES] == Prefix(chk, r);
    PrefixFields(chk, r);
    assert body[..PREFIX_BYTES + |r.payload|] == covered;
    assert body[PREFIX_BYTES..PREFIX_BYTES + |r.payload|] == r.payload;
    var suffix := body[PREFIX_BYTES + |r.payload|..];
    assert suffix[..4] == EncU32(chk.crc(covered));
    assert suffix[4..] == ChainStep(chk, chain, covered);
    PowersOf256();
    ValueOfBigEndian(4, chk.crc(covered));
    TypeCodeKnown(r.kind);
  }

  /** A written record that runs past the end of the file is reported as a short tail. */
  lemma ReadCut(chk: Checks, file: Bytes, offset: nat, chain: Digest, r: Rec)
    requires Fits(r)
    requires offset < |file| < offset + PREFIX_BYTES + |r.payload| + SUFFIX_BYTES
    requires offset + PREFIX_BYTES <= |file| ==> file[offset..offset + PREFIX_BYTES] == Prefix(chk, r)
    ensures ReadRecord(chk, file, offset, chain) == Short
  {
    if offset + PREFIX_BYTES <= |file| {
      PrefixFields(chk, r);
    }
  }

  // The bytes of record k in the first n bytes of the file.
  lemma CutContent(chk: Checks, h: StoreHeader, rs: seq<Rec>, n: nat, k: nat)
    requires k < |rs| && Offset(chk, h, rs, k) <= n <= |Image(chk, h, rs)|
    ensures Offset(chk, h, rs, k + 1) ==
      Offset(chk, h, rs, k) + PREFIX_BYTES + |rs[k].payload| + SUFFIX_BYTES
    ensures Offset(chk, h, rs, k + 1) <= n ==>
      Image(chk, h, rs)[..n][Offset(chk, h, rs, k)..Offset(chk, h, rs, k + 1)] ==
      RecordBytes(chk, ChainAfter(chk, h, rs[..k]), rs[k])
    ensures Offset(chk, h, rs, k) + PREFIX_BYTES <= n ==>
      Image(chk, h, rs)[..n][Offset(chk, h, rs, k)..Offset(chk, h, rs, k) + PREFIX_BYTES] ==
      Prefix(chk, rs[k])
  {
    hide Image, ChainAfter, RecordBytes;
    RecordInImage(chk, h, rs, k);
    ImageStep(chk, h, rs, k);
    var all, at := Image(chk, h, rs), Offset(chk, h, rs, k);
    var body := RecordBytes(chk, ChainAfter(chk, h, rs[..k]), rs[k]);
    assert all[at..at + |body|] == body;
    RecordStartsWithPrefix(chk, ChainAfter(chk, h, rs[..k]), rs[k]);
    CutSlice(all, n, at, |body|, |body|);
    CutSlice(all, n, at, |body|, PREFIX_BYTES);
  }

  // The first p of the m bytes at position a, seen in a cut file.
  lemma CutSlice(all: Bytes, n: nat, a: nat, m: nat, p: nat)
    requires a + m <= |all| && n <= |all| && p <= m
    ensures a + p <= n ==> all[..n][a..a + p] == all[a..a + m][..p]
  {
  }

  lemma RecordStartsWithPrefix(chk: Checks, chain: Digest, r: Rec)
    ensures RecordBytes(chk, chain, r)[..PREFIX_BYTES] == Prefix(chk, r)
  {
  }

  // ---------------------------------------------------------------------------
  // The scan over a cut file
  // ---------------------------------------------------------------------------

  /** Where the scan of the first n bytes stops: behind a trailer, at the end of the log, or
      before the first record that is not whole. */
  ghost predicate StopsAt(chk: Checks, h: StoreHeader, rs: seq<Rec>, n: nat, k: nat) {
    && k <= |rs|
    && Offset(chk, h, rs, k) <= n <= |Image(chk, h, rs)|
    && NoTrailer(rs, if k == 0 then 0 else k - 1)
    && (EndsWithTrailer(rs, k) || k == |rs| || n < Offset(chk, h, rs, k + 1))
  }

  predicate EndsWithTrailer(rs: seq<Rec>, k: nat)
    requires k <= |rs|
  {
    k > 0 && rs[k - 1].kind.Trailer?
  }

  /** What is reported when k records of the first n bytes are recovered. */
  function Report(chk: Checks, h: StoreHeader, rs: seq<Rec>, n: nat, k: nat): LoadedStore
    requires k <= |rs| && Offset(chk, h, rs, k) <= n
  {
    var end, closed := Offset(chk, h, rs, k), EndsWithTrailer(rs, k);
    var truncated := !closed && end < n;
    LoadedStore(h, Stored(chk, h, rs, k),
      Recovery(!truncated, truncated, false, false, closed, false,
               k, if truncated then n - end else 0, end, n),
      if closed then k - 1 else 0,
      if closed then ChainAfter(chk, h, rs[..k - 1]) else ZERO_DIGEST)
  }

  lemma WalkStep(chk: Checks, h: StoreHeader, rs: seq<Rec>, n: nat, k: nat)
    requires Written(chk, h, rs) && k < |rs|
    requires Offset(chk, h, rs, k + 1) <= n <= |Image(chk, h, rs)|
    ensures Offset(chk, h, rs, k) <= n
    ensures ReadRecord(chk, Image(chk, h, rs)[..n], Offset(chk, h, rs, k), ChainAfter(chk, h, rs[..k])) ==
      Good(Stored(chk, h, rs, k + 1)[k], Offset(chk, h, rs, k + 1))
  {
    hide RecordBytes, ReadRecord, Image;
    ImageStep(chk, h, rs, k);
    CutContent(chk, h, rs, n, k);
    ReadWhole(chk, Image(chk, h, rs)[..n], Offset(chk, h, rs, k), ChainAfter(chk, h, rs[..k]), rs[k]);
  }

  lemma KeepData(chk: Checks, h: StoreHeader, rs: seq<Rec>, n: nat, k: nat, seed: Digest)
    requires k < |rs| && !rs[k].kind.Trailer?
    ensures Keep(ScanAt(chk, h, rs, k, n), seed, Stored(chk, h, rs, k + 1)[k], Offset(chk, h, rs, k + 1)) ==
      ScanAt(chk, h, rs, k + 1, n)
  {
    hide Offset, ChainAfter;
  }

  lemma {:induction false} DataCountAll(rs: seq<Rec>)
    requires NoTrailer(rs, |rs|)
    ensures DataCount(rs) == |rs|
  {
    if rs != [] {
      DataCountAll(rs[..|rs| - 1]);
    }
  }

  lemma {:induction false} LastStored(chk: Checks, h: StoreHeader, rs: seq<Rec>, k: nat)
    requires 0 < k <= |rs|
    ensures Stored(chk, h, rs, k)[k - 1].chain == ChainAfter(chk, h, rs[..k])
  {
  }

  // A trailer that closes the log agrees with the records read before it.
  lemma KeepTrailer(chk: Checks, h: StoreHeader, rs: seq<Rec>, n: nat, k: nat)
    requires Written(chk, h, rs) && k < |rs| && rs[k].kind.Trailer? && NoTrailer(rs, k)
    requires Offset(chk, h, rs, k + 1) <= n
    ensures Conclude(h, Keep(ScanAt(chk, h, rs, k, n), Seed(chk, h), Stored(chk, h, rs, k + 1)[k],
                             Offset(chk, h, rs, k + 1))) ==
      Report(chk, h, rs, n, k + 1)
  {
    hide Offset, Seed, ChainAfter;
    DataCountAll(rs[..k]);
    PowersOf256();
    ValueOfBigEndian(8, k);
    var payload := TrailerPayload(k, ChainAfter(chk, h, rs[..k]));
    assert payload[..8] == EncU64(k);
    assert payload[8..] == ChainAfter(chk, h, rs[..k]);
    if k > 0 {
      LastStored(chk, h, rs, k);
    } else {
      FirstOffset(chk, h, rs);
    }
  }

  // The scan ends where the log or the cut ends.
  lemma WalkStops(chk: Checks, h: StoreHeader, rs: seq<Rec>, n: nat, k: nat)
    requires Written(chk, h, rs) && StopsAt(chk, h, rs, n, k) && !EndsWithTrailer(rs, k)
    ensures Conclude(h, Walk(chk, Image(chk, h, rs)[..n], ScanAt(chk, h, rs, k, n))) ==
      Report(chk, h, rs, n, k)
  {
    hide ReadRecord, Image, ChainAfter, Stored;
    var file := Image(chk, h, rs)[..n];
    FirstOffset(chk, h, rs);
    if Offset(chk, h, rs, k) < n {
      WalkCut(chk, h, rs, n, k);
    } else {
      assert |file| == Offset(chk, h, rs, k);
      EndRead(chk, file, ChainAfter(chk, h, rs[..k]));
    }
  }

  lemma {:induction false} WalkWritten(chk: Checks, h: StoreHeader, rs: seq<Rec>, n: nat, k: nat, stop: nat)
    requires Written(chk, h, rs) && StopsAt(chk, h, rs, n, stop)
    requires k < stop || (k == stop && !EndsWithTrailer(rs, stop))
    ensures Offset(chk, h, rs, k) <= n
    ensures Conclude(h, Walk(chk, Image(chk, h, rs)[..n], ScanAt(chk, h, rs, k, n))) ==
      Report(chk, h, rs, n, stop)
    decreases stop - k
  {
    hide ReadRecord, Image, ChainAfter, Stored, Seed, Keep, Report, Conclude, Offset, EncodeHeader, RecordBytes;
    OffsetsGrow(chk, h, rs, k, stop);
    if k == stop {
      WalkStops(chk, h, rs, n, k);
    } else {
      FileSeed(chk, h, rs, n);
      OffsetsGrow(chk, h, rs, k + 1, stop);
      WalkStep(chk, h, rs, n, k);
      StoredExtends(chk, h, rs, k);
      SeedIs(chk, h);
      if rs[k].kind.Trailer? {
        assert k + 1 == stop;
        KeepTrailer(chk, h, rs, n, k);
      } else {
        KeepData(chk, h, rs, n, k, Seed(chk, h));
        WalkWritten(chk, h, rs, n, k + 1, stop);
      }
    }
  }

  lemma SeedIs(chk: Checks, h: StoreHeader)
    ensures Seed(chk, h) == chk.digest(EncodeHeader(chk, h))
  {
  }

  lemma StoredExtends(chk: Checks, h: StoreHeader, rs: seq<Rec>, k: nat)
    requires k < |rs|
    ensures Stored(chk, h, rs, k + 1)[k].kind == rs[k].kind
  {
  }

  lemma EndRead(chk: Checks, file: Bytes, chain: Digest)
    ensures ReadRecord(chk, file, |file|, chain) == AtEnd
  {
  }

  lemma FileSeed(chk: Checks, h: StoreHeader, rs: seq<Rec>, n: nat)
    requires HEADER_BYTES <= n <= |Image(chk, h, rs)|
    ensures Image(chk, h, rs)[..n][..HEADER_BYTES] == EncodeHeader(chk, h)
  {
    hide EncodeHeader, RecordBytes, ChainAfter;
    ImagePrefix(chk, h, rs, 0);
    assert Image(chk, h, rs)[..n][..HEADER_BYTES] == Image(chk, h, rs)[..HEADER_BYTES];
  }

  lemma {:induction false} OffsetsGrow(chk: Checks, h: StoreHeader, rs: seq<Rec>, i: nat, j: nat)
    requires i <= j <= |rs|
    ensures Offset(chk, h, rs, i) + (j - i) <= Offset(chk, h, rs, j)
    decreases j - i
  {
    if i < j {
      ImageStep(chk, h, rs, i);
      OffsetsGrow(chk, h, rs, i + 1, j);
    }
  }

  // The record after the last whole one runs past the cut.
  lemma WalkCut(chk: Checks, h: StoreHeader, rs: seq<Rec>, n: nat, k: nat)
    requires Written(chk, h, rs) && StopsAt(chk, h, rs, n, k) && !EndsWithTrailer(rs, k)
    requires Offset(chk, h, rs, k) < n
    ensures ReadRecord(chk, Image(chk, h, rs)[..n], Offset(chk, h, rs, k), ChainAfter(chk, h, rs[..k])) == Short
  {
    hide ReadRecord, Image, RecordBytes, Prefix, ChainAfter;
    assert rs[..|rs|] == rs;
    if k < |rs| {
      CutContent(chk, h, rs, n, k);
      ReadCut(chk, Image(chk, h, rs)[..n], Offset(chk, h, rs, k), ChainAfter(chk, h, rs[..k]), rs[k]);
    }
  }

  /** Loading the first n bytes of a written file reports exactly what the format says it
      holds, wherever the cut falls. */
  lemma LoadCut(chk: Checks, h: StoreHeader, rs: seq<Rec>, n: nat, stop: nat)
    requires Written(chk, h, rs) && StopsAt(chk, h, rs, n, stop)
    ensures Loaded(chk, Image(chk, h, rs)[..n]) == Ok(Report(chk, h, rs, n, stop))
  {
    hide Image, EncodeHeader, DecodeHeader, Walk, Report, Conclude;
    var file := Image(chk, h, rs)[..n];
    OffsetsGrow(chk, h, rs, 0, stop);
    FileSeed(chk, h, rs, n);
    assert EncodeHeader(chk, h) + [] == EncodeHeader(chk, h);
    HeaderRoundTrip(chk, h, []);
    FirstOffset(chk, h, rs);
    WalkWritten(chk, h, rs, n, 0, stop);
  }

  lemma FirstOffset(chk: Checks, h: StoreHeader, rs: seq<Rec>)
    ensures Offset(chk, h, rs, 0) == HEADER_BYTES
    ensures ChainAfter(chk, h, rs[..0]) == Seed(chk, h)
  {
    hide EncodeHeader, Seed;
    assert rs[..0] == [];
  }

  // ---------------------------------------------------------------------------
  // The results
  // ---------------------------------------------------------------------------

  /** The number of records that lie wholly in the first n bytes. */
  function Survivors(chk: Checks, h: StoreHeader, rs: seq<Rec>, n: nat): (k: nat)
    ensures k <= |rs|
  {
    SurvivorsUpTo(chk, h, rs, n, |rs|)
  }

  function SurvivorsUpTo(chk: Checks, h: StoreHeader, rs: seq<Rec>, n: nat, k: nat): (r: nat)
    requires k <= |rs|
    ensures r <= k
  {
    if k == 0 || Offset(chk, h, rs, k) <= n then k else SurvivorsUpTo(chk, h, rs, n, k - 1)
  }

  lemma {:induction false} SurvivorsWhole(chk: Checks, h: StoreHeader, rs: seq<Rec>, n: nat, k: nat)
    requires k <= |rs| && Offset(chk, h, rs, 0) <= n
    requires k == |rs| || n < Offset(chk, h, rs, k + 1)
    ensures var r := SurvivorsUpTo(chk, h, rs, n, k);
      && Offset(chk, h, rs, r) <= n
      && (r == |rs| || n < Offset(chk, h, rs, r + 1))
  {
    hide Offset;
    if k > 0 && n < Offset(chk, h, rs, k) {
      SurvivorsWhole(chk, h, rs, n, k - 1);
    }
  }

  ghost predicate RecordBoundary(chk: Checks, h: StoreHeader, rs: seq<Rec>, n: nat) {
    exists i: nat :: i <= |rs| && Offset(chk, h, rs, i) == n
  }

  lemma {:induction false} StoredAt(chk: Checks, h: StoreHeader, rs: seq<Rec>, k: nat, i: nat)
    requires i < k <= |rs|
    ensures Stored(chk, h, rs, k)[i] == LoadedRecord(chk, h, rs, i)
  {
    hide Offset, ChainAfter;
    if i < k - 1 {
      StoredAt(chk, h, rs, k - 1, i);
    }
  }

  // Offsets tell which records survive a cut and whether the cut is a boundary.
  lemma CutPosition(chk: Checks, h: StoreHeader, rs: seq<Rec>, n: nat, k: nat)
    requires k <= |rs| && Offset(chk, h, rs, k) <= n
    requires k == |rs| || n < Offset(chk, h, rs, k + 1)
    ensures forall i: nat :: i <= |rs| ==> (i <= k <==> Offset(chk, h, rs, i) <= n)
    ensures n <= Offset(chk, h, rs, |rs|) ==>
      (RecordBoundary(chk, h, rs, n) <==> Offset(chk, h, rs, k) == n)
  {
    hide Offset;
    forall i: nat | i <= |rs|
      ensures i <= k ==> Offset(chk, h, rs, i) <= n
      ensures i > k ==> n < Offset(chk, h, rs, i)
      ensures i < k ==> Offset(chk, h, rs, i) < Offset(chk, h, rs, k)
    {
      if i <= k {
        OffsetsGrow(chk, h, rs, i, k);
      } else {
        OffsetsGrow(chk, h, rs, k + 1, i);
      }
    }
  }

  /** Crash recovery. Cut a closed or unclosed log anywhere behind its header: the records
      wholly below the cut come back with their payloads and chain digests, nothing else does,
      the tail is called truncated exactly when the cut is not a record boundary, no
      corruption is ever claimed, and every byte is accounted for. */
  lemma CrashRecovery(chk: Checks, h: StoreHeader, rs: seq<Rec>, n: nat)
    requires Written(chk, h, rs) && (rs == [] || NoTrailer(rs, |rs| - 1))
    requires HEADER_BYTES <= n <= |Image(chk, h, rs)|
    ensures Loaded(chk, Image(chk, h, rs)[..n]).Ok?
    ensures var loaded := Loaded(chk, Image(chk, h, rs)[..n]).value;
      && loaded.header == h
      && |loaded.records| <= |rs|
      && (forall i: nat :: i <= |rs| ==> (i <= |loaded.records| <==> Offset(chk, h, rs, i) <= n))
      && (forall i :: 0 <= i < |loaded.records| ==> loaded.records[i] == LoadedRecord(chk, h, rs, i))
      && !loaded.recovery.midFileCorruption
      && !loaded.recovery.corruptTailRecord
      && !loaded.recovery.trailerMismatch
      && (loaded.recovery.truncatedTail <==> !RecordBoundary(chk, h, rs, n))
      && loaded.recovery.clean == !loaded.recovery.truncatedTail
      && loaded.recovery.validBytes + loaded.recovery.bytesDiscarded == n
  {
    hide Offset, Image, Loaded, ChainAfter, Stored, RecordBoundary;
    var k := Survivors(chk, h, rs, n);
    FirstOffset(chk, h, rs);
    SurvivorsWhole(chk, h, rs, n, |rs|);
    SurvivorsStop(chk, h, rs, n);
    LoadCut(chk, h, rs, n, k);
    CutPosition(chk, h, rs, n, k);
    WholeOffset(chk, h, rs);
    forall i | 0 <= i < k
      ensures Stored(chk, h, rs, k)[i] == LoadedRecord(chk, h, rs, i)
    {
      StoredAt(chk, h, rs, k, i);
    }
  }

  lemma WholeOffset(chk: Checks, h: StoreHeader, rs: seq<Rec>)
    ensures Offset(chk, h, rs, |rs|) == |Image(chk, h, rs)|
  {
    assert rs[..|rs|] == rs;
  }

  lemma SurvivorsStop(chk: Checks, h: StoreHeader, rs: seq<Rec>, n: nat)
    requires rs == [] || NoTrailer(rs, |rs| - 1)
    requires HEADER_BYTES <= n <= |Image(chk, h, rs)|
    ensures StopsAt(chk, h, rs, n, Survivors(chk, h, rs, n))
    ensures EndsWithTrailer(rs, Survivors(chk, h, rs, n)) ==>
      Offset(chk, h, rs, Survivors(chk, h, rs, n)) == n
  {
    hide Offset, Image, SurvivorsUpTo;
    FirstOffset(chk, h, rs);
    SurvivorsWhole(chk, h, rs, n, |rs|);
    WholeOffset(chk, h, rs);
  }

  /** Every cut behind the header has a place where the scan stops. */
  lemma EveryCutStops(chk: Checks, h: StoreHeader, rs: seq<Rec>, n: nat) returns (stop: nat)
    requires HEADER_BYTES <= n <= |Image(chk, h, rs)|
    ensures StopsAt(chk, h, rs, n, stop)
  {
    hide Offset, Image, SurvivorsUpTo;
    FirstOffset(chk, h, rs);
    SurvivorsWhole(chk, h, rs, n, |rs|);
    var k := Survivors(chk, h, rs, n);
    stop := 0;
    while stop < k && !EndsWithTrailer(rs, stop)
      invariant stop <= k && NoTrailer(rs, if stop == 0 then 0 else stop - 1)
    {
      stop := stop + 1;
    }
    OffsetsGrow(chk, h, rs, stop, k);
  }

  /** Bytes behind a trailer are neither read nor reported: for a log whose first trailer is
      record t, the counts of valid and discarded bytes add up to the file size exactly when
      the cut does not pass the trailer, and past it the file still counts as clean. */
  lemma BytesBehindTrailer(chk: Checks, h: StoreHeader, rs: seq<Rec>, t: nat, n: nat)
    requires Written(chk, h, rs) && t < |rs| && rs[t].kind.Trailer? && NoTrailer(rs, t)
    requires HEADER_BYTES <= n <= |Image(chk, h, rs)|
    ensures Loaded(chk, Image(chk, h, rs)[..n]).Ok?
    ensures var r := Loaded(chk, Image(chk, h, rs)[..n]).value.recovery;
      && (r.validBytes + r.bytesDiscarded == n <==> n <= Offset(chk, h, rs, t + 1))
      && (n > Offset(chk, h, rs, t + 1) ==> r.clean && r.recordsRecovered == t + 1)
  {
    hide Offset, Image, Loaded, ChainAfter, Stored, RecordBoundary, SurvivorsUpTo, Written;
    var k := Survivors(chk, h, rs, n);
    FirstOffset(chk, h, rs);
    SurvivorsWhole(chk, h, rs, n, |rs|);
    CutPosition(chk, h, rs, n, k);
    if n >= Offset(chk, h, rs, t + 1) {
      LoadCut(chk, h, rs, n, t + 1);
    } else {
      LoadCut(chk, h, rs, n, k);
    }
  }
}
