/** StoreWriter: create, append, append_trailer and reopen (src/persistence.cpp). */
module StoreWriter {
  import opened Errors
  import opened CanonicalBytes
  import opened StoreFormat
  import opened StoreLoader

  // ---------------------------------------------------------------------------
  // The writer's transitions on values
  // ---------------------------------------------------------------------------

  /** The writer's fields together with the file it appends to. */
  datatype State = State(header: StoreHeader, file: Bytes, chain: Digest, recordCount: nat, byteSize: nat)

  datatype Outcome<T> = Outcome(state: T, status: Status)

  /** The checks of append in their order; a refused append changes nothing. */
  function AppendRefusal(s: State, kind: RecordType, payload: Bytes): Status {
    if kind.Trailer? then Failure(InvalidArgument)
    else if |payload| > MAX_PAYLOAD_BYTES then Failure(LimitExceeded)
    else if s.recordCount + 1 > MAX_STORE_RECORDS then Failure(LimitExceeded)
    else SizeRefusal(s, PREFIX_BYTES + |payload| + SUFFIX_BYTES)
  }

  // Checked 64-bit addition, then the bound on the file.
  function SizeRefusal(s: State, recordBytes: nat): Status {
    if s.byteSize + recordBytes >= 0x1_0000_0000_0000_0000 then Failure(Overflow)
    else if s.byteSize + recordBytes > MAX_STORE_BYTES then Failure(LimitExceeded)
    else Success
  }

  function Grow(chk: Checks, s: State, r: Rec, count: nat): State {
    var body := RecordBytes(chk, s.chain, r);
    State(s.header, s.file + body, ChainStep(chk, s.chain, Covered(chk, r)), count, s.byteSize + |body|)
  }

  function Appended(chk: Checks, s: State, kind: RecordType, payload: Bytes): Outcome<State> {
    var refusal := AppendRefusal(s, kind, payload);
    if refusal.Failure? then Outcome(s, refusal)
    else Outcome(Grow(chk, s, Rec(kind, payload), s.recordCount + 1), Success)
  }

  function TrailerRecord(s: State): Rec
    requires s.recordCount < 0x1_0000_0000_0000_0000
  {
    Rec(Trailer, TrailerPayload(s.recordCount, s.chain))
  }

  function Closed(chk: Checks, s: State): Outcome<State>
    requires s.recordCount < 0x1_0000_0000_0000_0000
  {
    var refusal := SizeRefusal(s, PREFIX_BYTES + TRAILER_PAYLOAD_BYTES + SUFFIX_BYTES);
    if refusal.Failure? then Outcome(s, refusal)
    else Outcome(Grow(chk, s, TrailerRecord(s), s.recordCount), Success)
  }

  function Created(chk: Checks, h: StoreHeader): State {
    State(h, EncodeHeader(chk, h), Seed(chk, h), 0, HEADER_BYTES)
  }

  function CreateRefusal(h: StoreHeader, exists_: bool, truncateExisting: bool): Status {
    if exists_ && !truncateExisting then Failure(Duplicate)
    else if h.formatVersion != FORMAT_VERSION then Failure(VersionUnsupported)
    else if h.storeId == ZERO_DIGEST then Failure(InvalidArgument)
    else Success
  }

  datatype Reopening = Reopening(state: State, repairBytes: nat)

  /** The number of loaded records that are not trailers. */
  function DataRecords(rs: seq<StoredRecord>): nat {
    if rs == [] then 0
    else DataRecords(rs[..|rs| - 1]) + (if rs[|rs| - 1].kind.Trailer? then 0 else 1)
  }

  /** The chain digest of the last record that is not a trailer. */
  function LastDataChain(rs: seq<StoredRecord>, seed: Digest): Digest {
    if rs == [] then seed
    else if rs[|rs| - 1].kind.Trailer? then LastDataChain(rs[..|rs| - 1], seed)
    else rs[|rs| - 1].chain
  }

  /** The offset of the last trailer. */
  function TrailerOffset(rs: seq<StoredRecord>): Option<nat> {
    if rs == [] then None
    else if rs[|rs| - 1].kind.Trailer? then Some(rs[|rs| - 1].offset)
    else TrailerOffset(rs[..|rs| - 1])
  }

  /** Where the reopened file ends: before its trailer, or behind its last valid byte. */
  function ReopenTarget(l: LoadedStore): nat {
    var trailer := TrailerOffset(l.records);
    if trailer.Some? && trailer.value < l.recovery.validBytes then trailer.value
    else l.recovery.validBytes
  }

  function Resumed(chk: Checks, file: Bytes, l: LoadedStore): Reopening {
    var target := ReopenTarget(l);
    var kept := if target < |file| then file[..target] else file;
    Reopening(State(l.header, kept, LastDataChain(l.records, Seed(chk, l.header)),
                    DataRecords(l.records), target),
              if target < |file| then |file| - target else 0)
  }

  function Reopened(chk: Checks, file: Bytes, repair: bool): Result<Reopening> {
    var loaded :- Loaded(chk, file);
    if loaded.recovery.midFileCorruption then Err(Corrupt)
    else if loaded.recovery.validBytes < |file| && !repair then Err(IntegrityFailure)
    else Ok(Resumed(chk, file, loaded))
  }

  // ---------------------------------------------------------------------------
  // The writer itself
  // ---------------------------------------------------------------------------

  class StoreFile {
    var bytes: Bytes

    constructor (bytes: Bytes)
      ensures this.bytes == bytes
    {
      this.bytes := bytes;
    }
  }

  class Writer {
    const chk: Checks
    const file: StoreFile
    var open: bool
    var header: StoreHeader
    var chain: Digest
    var recordCount: nat
    var byteSize: nat
    var repairBytes: nat

    function Abstract(): State
      reads this, file
    {
      State(header, file.bytes, chain, recordCount, byteSize)
    }

    constructor (chk: Checks, file: StoreFile, s: State, repairBytes: nat)
      ensures this.chk == chk && this.file == file && open && this.repairBytes == repairBytes
      ensures header == s.header && chain == s.chain
      ensures recordCount == s.recordCount && byteSize == s.byteSize
    {
      this.chk := chk;
      this.file := file;
      open := true;
      header := s.header;
      chain := s.chain;
      recordCount := s.recordCount;
      byteSize := s.byteSize;
      this.repairBytes := repairBytes;
    }

    static method Create(chk: Checks, file: StoreFile, header: StoreHeader, fileExists: bool, truncateExisting: bool)
      returns (result: Result<Writer>)
      modifies file
      ensures CreateRefusal(header, fileExists, truncateExisting) == Success ==>
        && result.Ok? && fresh(result.value) && result.value.open
        && result.value.chk == chk && result.value.file == file
        && result.value.Abstract() == Created(chk, header)
      ensures CreateRefusal(header, fileExists, truncateExisting).Failure? ==>
        && result == Err(CreateRefusal(header, fileExists, truncateExisting).error)
        && file.bytes == old(file.bytes)
    {
      if fileExists && !truncateExisting {
        return Err(Duplicate);
      }
      if header.formatVersion != FORMAT_VERSION {
        return Err(VersionUnsupported);
      }
      if header.storeId == ZERO_DIGEST {
        return Err(InvalidArgument);
      }
      var headerBytes := EncodeHeader(chk, header);
      file.bytes := headerBytes;
      var writer := new Writer(chk, file,
        State(header, headerBytes, chk.digest(headerBytes), 0, HEADER_BYTES), 0);
      result := Ok(writer);
    }

    // The bytes of one record, assembled as prefix, payload and suffix.
    method Frame(kind: RecordType, payload: Bytes) returns (body: Bytes, next: Digest)
      requires |payload| <= MAX_PAYLOAD_BYTES
      ensures body == RecordBytes(chk, chain, Rec(kind, payload))
      ensures next == ChainStep(chk, chain, Covered(chk, Rec(kind, payload)))
    {
      hide TypeCode;
      var prefix := new ByteWriter();
      prefix.U32(|payload|);
      prefix.U16(TypeCode(kind));
      prefix.U16(0);
      prefix.U32(chk.crc(payload));
      body := prefix.data + payload;
      assert body == Covered(chk, Rec(kind, payload));
      var recordCrc := chk.crc(body);
      next := ChainStep(chk, chain, body);
      var suffix := new ByteWriter();
      suffix.U32(recordCrc);
      suffix.Raw(next);
      body := body + suffix.data;
    }

    method Append(kind: RecordType, payload: Bytes) returns (status: Status)
      modifies this, file
      ensures open == old(open) && header == old(header)
      ensures !old(open) ==> status == Failure(NotReady) && Abstract() == old(Abstract())
      ensures old(open) ==> Outcome(Abstract(), status) == Appended(chk, old(Abstract()), kind, payload)
    {
      hide RecordBytes, ChainStep, Covered;
      if !open {
        return Failure(NotReady);
      }
      var refusal := AppendRefusal(Abstract(), kind, payload);
      if refusal.Failure? {
        return refusal;
      }
      var body, next := Frame(kind, payload);
      file.bytes := file.bytes + body;
      chain := next;
      recordCount := recordCount + 1;
      byteSize := byteSize + |body|;
      status := Success;
    }

    method AppendTrailer() returns (status: Status)
      requires recordCount < 0x1_0000_0000_0000_0000
      modifies this, file
      ensures open == old(open) && header == old(header)
      ensures !old(open) ==> status == Failure(NotReady) && Abstract() == old(Abstract())
      ensures old(open) ==> Outcome(Abstract(), status) == Closed(chk, old(Abstract()))
    {
      hide RecordBytes, ChainStep, Covered;
      var payload := new ByteWriter();
      payload.U64(recordCount);
      payload.Raw(chain);
      assert payload.data == TrailerPayload(recordCount, chain);
      if !open {
        return Failure(NotReady);
      }
      var refusal := SizeRefusal(Abstract(), PREFIX_BYTES + |payload.data| + SUFFIX_BYTES);
      if refusal.Failure? {
        return refusal;
      }
      var body, next := Frame(Trailer, payload.data);
      file.bytes := file.bytes + body;
      chain := next;
      byteSize := byteSize + |body|;
      status := Success;
    }

    static method Reopen(chk: Checks, file: StoreFile, repair: bool) returns (result: Result<Writer>)
      modifies file
      ensures match Reopened(chk, old(file.bytes), repair)
        case Err(e) => result == Err(e) && file.bytes == old(file.bytes)
        case Ok(r) =>
          && result.Ok? && fresh(result.value) && result.value.open
          && result.value.chk == chk && result.value.file == file
          && result.value.Abstract() == r.state && result.value.repairBytes == r.repairBytes
    {
      hide Loaded;
      var loaded :- LoadStore(chk, file.bytes);
      if loaded.recovery.midFileCorruption {
        return Err(Corrupt);
      }
      var seed := chk.digest(EncodeHeader(chk, loaded.header));
      var chain: Digest := seed;
      var count: nat := 0;
      var trailer: Option<nat> := None;
      for i := 0 to |loaded.records|
        invariant count == DataRecords(loaded.records[..i])
        invariant chain == LastDataChain(loaded.records[..i], seed)
        invariant trailer == TrailerOffset(loaded.records[..i])
        invariant file.bytes == old(file.bytes)
      {
        var record := loaded.records[i];
        assert loaded.records[..i + 1][..i] == loaded.records[..i];
        if record.kind.Trailer? {
          trailer := Some(record.offset);
        } else {
          count := count + 1;
          chain := record.chain;
        }
      }
      assert loaded.records[..|loaded.records|] == loaded.records;
      var valid, total := loaded.recovery.validBytes, |file.bytes|;
      if valid < total && !repair {
        return Err(IntegrityFailure);
      }
      var target := if trailer.Some? && trailer.value < valid then trailer.value else valid;
      var repaired := 0;
      if target < total {
        file.bytes := file.bytes[..target];
        repaired := total - target;
      }
      var writer := new Writer(chk, file, State(loaded.header, file.bytes, chain, count, target), repaired);
      result := Ok(writer);
    }
  }
}
