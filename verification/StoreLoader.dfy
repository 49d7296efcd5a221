/** load_store: the recovery scan over any file (src/persistence.cpp). */
module StoreLoader {
  import opened Errors
  import opened CanonicalBytes
  import opened StoreFormat

  datatype StoredRecord = StoredRecord(
    kind: RecordType, offset: nat, payloadBytes: nat, chain: Digest, payload: Bytes)

  datatype Recovery = Recovery(
    clean: bool, truncatedTail: bool, corruptTailRecord: bool, midFileCorruption: bool,
    trailerPresent: bool, trailerMismatch: bool,
    recordsRecovered: nat, bytesDiscarded: nat, validBytes: nat, fileBytes: nat)

  datatype LoadedStore = LoadedStore(
    header: StoreHeader, records: seq<StoredRecord>, recovery: Recovery,
    trailerRecordCount: nat, trailerChainRoot: Digest)

  // ---------------------------------------------------------------------------
  // One record
  // ---------------------------------------------------------------------------

  datatype ReadOutcome =
    | AtEnd
    | Short                     // prefix or body runs past the end of the file
    | Refused(dataFollows: bool) // too long, failed its checks, or of an unknown type
    | Good(record: StoredRecord, next: nat)

  function ReadRecord(chk: Checks, file: Bytes, offset: nat, chain: Digest): (o: ReadOutcome)
    requires offset <= |file|
    ensures o.Good? ==> offset < o.next <= |file|
  {
    var left := |file| - offset;
    if left == 0 then AtEnd
    else if left < PREFIX_BYTES then Short
    else
      var prefix := file[offset..offset + PREFIX_BYTES];
      var length := ValueOf(prefix[..4]);
      var needed := PREFIX_BYTES + length + SUFFIX_BYTES;
      if length > MAX_PAYLOAD_BYTES then Refused(left > needed)
      else if left < needed then Short
      else
        var body := file[offset..offset + needed];
        var payload := body[PREFIX_BYTES..PREFIX_BYTES + length];
        var covered := body[..PREFIX_BYTES + length];
        var suffix := body[PREFIX_BYTES + length..];
        var stored: Digest := suffix[4..];
        if chk.crc(payload) != ValueOf(prefix[8..12])
          || chk.crc(covered) != ValueOf(suffix[..4])
          || ChainStep(chk, chain, covered) != stored
        then Refused(left > needed)
        else
          match TypeOfCode(ValueOf(prefix[4..6]))
          case None => Refused(left > needed)
          case Some(kind) =>
            Good(StoredRecord(kind, offset, length, stored, payload), offset + needed)
  }

  // ---------------------------------------------------------------------------
  // The scan
  // ---------------------------------------------------------------------------

  /** What the loop carries from record to record. */
  datatype Scan = Scan(
    offset: nat, chain: Digest, records: seq<StoredRecord>, recovery: Recovery,
    trailerRecordCount: nat, trailerChainRoot: Digest)

  function StartScan(chk: Checks, file: Bytes): Scan
    requires |file| >= HEADER_BYTES
  {
    Scan(HEADER_BYTES, chk.digest(file[..HEADER_BYTES]), [],
         Recovery(true, false, false, false, false, false, 0, 0, 0, |file|), 0, ZERO_DIGEST)
  }

  /** What a trailer states, and whether that disagrees with the records before it. */
  datatype Closing = Closing(mismatch: bool, count: nat, root: Digest)

  function ReadTrailer(payload: Bytes, before: seq<StoredRecord>, seed: Digest): Closing {
    if |payload| != TRAILER_PAYLOAD_BYTES then
      Closing(true, 0, ZERO_DIGEST)
    else
      var count, root: Digest := ValueOf(payload[..8]), payload[8..];
      var previous := if before == [] then seed else before[|before| - 1].chain;
      Closing(count != |before| || root != previous, count, root)
  }

  /** Keep a good record; a trailer is checked against the records before it. */
  function Keep(s: Scan, seed: Digest, r: StoredRecord, next: nat): Scan {
    var recovery := s.recovery.(recordsRecovered := s.recovery.recordsRecovered + 1, validBytes := next);
    var records := s.records + [r];
    if !r.kind.Trailer? then
      Scan(next, r.chain, records, recovery, s.trailerRecordCount, s.trailerChainRoot)
    else
      var c := ReadTrailer(r.payload, s.records, seed);
      Scan(next, r.chain, records,
           recovery.(trailerPresent := true, trailerMismatch := c.mismatch), c.count, c.root)
  }

  function Walk(chk: Checks, file: Bytes, s: Scan): Scan
    requires |file| >= HEADER_BYTES && s.offset <= |file|
    decreases |file| - s.offset
  {
    match ReadRecord(chk, file, s.offset, s.chain)
    case AtEnd => s
    case Short =>
      s.(recovery := s.recovery.(truncatedTail := true, bytesDiscarded := |file| - s.offset))
    case Refused(dataFollows) =>
      s.(recovery := s.recovery.(bytesDiscarded := |file| - s.offset,
                                 midFileCorruption := dataFollows,
                                 corruptTailRecord := !dataFollows))
    case Good(r, next) =>
      var kept := Keep(s, chk.digest(file[..HEADER_BYTES]), r, next);
      if r.kind.Trailer? then kept else Walk(chk, file, kept)
  }

  function Conclude(h: StoreHeader, s: Scan): LoadedStore {
    var r := s.recovery;
    LoadedStore(h, s.records,
      r.(validBytes := if r.validBytes == 0 then HEADER_BYTES else r.validBytes,
         clean := !r.truncatedTail && !r.corruptTailRecord && !r.midFileCorruption && !r.trailerMismatch),
      s.trailerRecordCount, s.trailerChainRoot)
  }

  /** What loading this file reports. */
  function Loaded(chk: Checks, file: Bytes): Result<LoadedStore> {
    if |file| < HEADER_BYTES then Err(Corrupt) else
    var h :- DecodeHeader(chk, file[..HEADER_BYTES]);
    Ok(Conclude(h, Walk(chk, file, StartScan(chk, file))))
  }

  /** A file loads if and only if it starts with the encoding of a header of this format version, and
      that is the header it loads with. What follows the header never makes loading fail. */
  lemma LoadsIff(chk: Checks, file: Bytes)
    ensures Loaded(chk, file).Ok? <==>
      && |file| >= HEADER_BYTES
      && exists h: StoreHeader :: h.formatVersion == FORMAT_VERSION && file[..HEADER_BYTES] == EncodeHeader(chk, h)
    ensures |file| >= HEADER_BYTES ==>
      forall h: StoreHeader | h.formatVersion == FORMAT_VERSION && file[..HEADER_BYTES] == EncodeHeader(chk, h) ::
        Loaded(chk, file).Ok? && Loaded(chk, file).value.header == h
  {
    hide DecodeHeader, EncodeHeader, Walk, StartScan;
    if |file| >= HEADER_BYTES {
      var b := file[..HEADER_BYTES];
      assert b[..HEADER_BYTES] == b;
      forall h: StoreHeader | h.formatVersion == FORMAT_VERSION && b == EncodeHeader(chk, h)
        ensures Loaded(chk, file).Ok? && Loaded(chk, file).value.header == h
      {
        assert b + [] == b;
        HeaderRoundTrip(chk, h, []);
      }
      if DecodeHeader(chk, b).Ok? {
        OnlyHeadersDecode(chk, b);
      }
    }
  }

  /** load_store, as the loop it is. */
  method LoadStore(chk: Checks, file: Bytes) returns (result: Result<LoadedStore>)
    ensures result == Loaded(chk, file)
  {
    hide ReadRecord, DecodeHeader, ReadTrailer;
    var total := |file|;
    if total < HEADER_BYTES {
      return Err(Corrupt);
    }
    var header :- DecodeHeader(chk, file[..HEADER_BYTES]);
    var scan := ScanRecords(chk, file);
    result := Ok(Conclude(header, scan));
  }

  // The record loop.
  method ScanRecords(chk: Checks, file: Bytes) returns (scan: Scan)
    requires |file| >= HEADER_BYTES
    ensures scan == Walk(chk, file, StartScan(chk, file))
  {
    hide ReadRecord, ReadTrailer;
    var total := |file|;
    var seed := chk.digest(file[..HEADER_BYTES]);
    var chain: Digest := seed;
    var offset: nat := HEADER_BYTES;
    var records: seq<StoredRecord> := [];
    var recovery := Recovery(true, false, false, false, false, false, 0, 0, 0, total);
    var count: nat := 0;
    var root: Digest := ZERO_DIGEST;
    var stopped := false;
    ghost var goal := Walk(chk, file, StartScan(chk, file));
    while !stopped
      invariant offset <= total
      invariant stopped ==> goal == Scan(offset, chain, records, recovery, count, root)
      invariant !stopped ==> goal == Walk(chk, file, Scan(offset, chain, records, recovery, count, root))
      decreases !stopped, total - offset
    {
      var outcome := ReadRecord(chk, file, offset, chain);
      match outcome {
        case AtEnd =>
          stopped := true;
        case Short =>
          recovery := recovery.(truncatedTail := true, bytesDiscarded := total - offset);
          stopped := true;
        case Refused(dataFollows) =>
          recovery := recovery.(bytesDiscarded := total - offset,
                                midFileCorruption := dataFollows,
                                corruptTailRecord := !dataFollows);
          stopped := true;
        case Good(record, next) =>
          offset := next;
          chain := record.chain;
          recovery := recovery.(recordsRecovered := recovery.recordsRecovered + 1, validBytes := offset);
          if record.kind.Trailer? {
            var closing := ReadTrailer(record.payload, records, seed);
            recovery := recovery.(trailerPresent := true, trailerMismatch := closing.mismatch);
            count := closing.count;
            root := closing.root;
            stopped := true;
          }
          records := records + [record];
      }
    }
    scan := Scan(offset, chain, records, recovery, count, root);
  }
}
