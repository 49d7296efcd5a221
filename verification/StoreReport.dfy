/** What a load report says about any file whatever, in terms of the bytes of that file. */
module StoreReport {
  import opened CanonicalBytes
  import opened StoreFormat
  import opened StoreLoader
  import opened StoreChain

  // ---------------------------------------------------------------------------
  // One record
  // ---------------------------------------------------------------------------

  /** The payload length that the four bytes at this place state. */
  function StatedLength(file: Bytes, at: nat): nat
    requires at + 4 <= |file|
  {
    ValueOf(file[at..at + 4])
  }

  /** Where the record that starts here would end by its own account. */
  function StatedEnd(file: Bytes, at: nat): nat
    requires at + 4 <= |file|
  {
    at + PREFIX_BYTES + StatedLength(file, at) + SUFFIX_BYTES
  }

  /** The file ends before the prefix here does, or before the record of an allowed length does. */
  predicate RunsOut(file: Bytes, at: nat) {
    |file| < at + PREFIX_BYTES || (StatedLength(file, at) <= MAX_PAYLOAD_BYTES && |file| < StatedEnd(file, at))
  }

  lemma PartsOfBody(file: Bytes, at: nat, length: nat)
    requires at + PREFIX_BYTES + length + SUFFIX_BYTES <= |file|
    ensures var body := file[at..at + PREFIX_BYTES + length + SUFFIX_BYTES];
      && file[at..at + PREFIX_BYTES] == body[..PREFIX_BYTES]
      && file[at..at + 4] == body[..4]
      && file[at..at + PREFIX_BYTES + length] == body[..PREFIX_BYTES + length]
      && file[at + PREFIX_BYTES + length..at + PREFIX_BYTES + length + SUFFIX_BYTES] == body[PREFIX_BYTES + length..]
  {
  }

  /** A record is read exactly where the file holds it and its checks agree. */
  lemma CheckedReads(chk: Checks, file: Bytes, r: StoredRecord, before: Digest)
    requires Checked(chk, file, r, before)
    ensures r.offset <= |file| && ReadRecord(chk, file, r.offset, before) == Good(r, RecordEnd(r))
  {
    hide ChainStep, TypeOfCode, TypeCode, EncU32;
    PartsOfBody(file, r.offset, r.payloadBytes);
    var body := file[r.offset..RecordEnd(r)];
    var covered, suffix := body[..PREFIX_BYTES + r.payloadBytes], body[PREFIX_BYTES + r.payloadBytes..];
    assert body[..PREFIX_BYTES] == covered[..PREFIX_BYTES];
    assert body[PREFIX_BYTES..PREFIX_BYTES + r.payloadBytes] == covered[PREFIX_BYTES..];
    assert covered[..PREFIX_BYTES][..4] == covered[..4] && covered[..PREFIX_BYTES][4..6] == covered[4..6];
    assert covered[..PREFIX_BYTES][8..12] == covered[8..12];
    TypeCodeKnown(r.kind);
    WordReadsBack(chk.crc(r.payload));
    WordReadsBack(chk.crc(covered));
    assert suffix[..4] == EncU32(chk.crc(covered)) && suffix[4..] == r.chain;
  }

  lemma WordReadsBack(v: U32)
    ensures |EncU32(v)| == 4 && ValueOf(EncU32(v)) == v
  {
    PowersOf256();
    ValueOfBigEndian(4, v);
  }

  // What the other answers say about the bytes at the place.
  lemma AnswerMeans(chk: Checks, file: Bytes, at: nat, chain: Digest)
    requires at <= |file|
    ensures var o := ReadRecord(chk, file, at, chain);
      && (o.AtEnd? <==> at == |file|)
      && (o.Short? <==> at < |file| && RunsOut(file, at))
      && (o.Refused? ==> at + 4 <= |file| && (o.dataFollows <==> StatedEnd(file, at) < |file|))
  {
    hide ChainStep, TypeOfCode;
    if at + PREFIX_BYTES <= |file| {
      assert file[at..at + PREFIX_BYTES][..4] == file[at..at + 4];
    }
  }

  // ---------------------------------------------------------------------------
  // The whole scan
  // ---------------------------------------------------------------------------

  /** No record but the last is a trailer. */
  predicate TrailerLast(rs: seq<StoredRecord>) {
    forall i :: 0 <= i < |rs| - 1 ==> !rs[i].kind.Trailer?
  }

  predicate ClosedBy(rs: seq<StoredRecord>) {
    rs != [] && rs[|rs| - 1].kind.Trailer?
  }

  /** The payload is a record count and a chain root, and these are the ones given. */
  predicate States(payload: Bytes, count: nat, root: Digest) {
    |payload| == TRAILER_PAYLOAD_BYTES && ValueOf(payload[..8]) == count && payload[8..] == root
  }

  /** What the flags say once the scan has stopped at the end of these records. */
  ghost predicate Accounted(
    chk: Checks, file: Bytes, seed: Digest, rs: seq<StoredRecord>, end: nat, chain: Digest, r: Recovery)
  {
    && end <= |file| && TrailerLast(rs)
    && (r.trailerPresent <==> ClosedBy(rs))
    && (r.trailerPresent ==>
          && !r.truncatedTail && !r.midFileCorruption && !r.corruptTailRecord && r.bytesDiscarded == 0
          && (r.trailerMismatch <==>
                !States(rs[|rs| - 1].payload, |rs| - 1, ChainBefore(seed, rs, |rs| - 1))))
    && (!r.trailerPresent ==>
          && !r.trailerMismatch && r.bytesDiscarded == |file| - end
          && (end == |file| || NothingAt(chk, file, end, chain))
          && (r.truncatedTail <==> end < |file| && RunsOut(file, end))
          && (r.midFileCorruption <==> end < |file| && !RunsOut(file, end) && StatedEnd(file, end) < |file|)
          && (r.corruptTailRecord <==> end < |file| && !RunsOut(file, end) && |file| <= StatedEnd(file, end)))
  }

  /** No record continues the chain here. */
  ghost predicate NothingAt(chk: Checks, file: Bytes, at: nat, before: Digest) {
    forall r: StoredRecord | r.offset == at :: !Checked(chk, file, r, before)
  }

  /** What the scan carries while it runs. */
  predicate Running(file: Bytes, s: Scan) {
    && s.offset <= |file| && TrailerLast(s.records) && !ClosedBy(s.records)
    && var r := s.recovery;
       && !r.trailerPresent && !r.trailerMismatch && !r.truncatedTail && !r.midFileCorruption
       && !r.corruptTailRecord && r.bytesDiscarded == 0
  }

  lemma {:induction false} WalkAccounts(chk: Checks, file: Bytes, s: Scan)
    requires |file| >= HEADER_BYTES && Running(file, s)
    ensures var t := Walk(chk, file, s); var seed: Digest := chk.digest(file[..HEADER_BYTES]);
      && Accounted(chk, file, seed, t.records, t.offset, t.chain, t.recovery)
      && t.recovery.fileBytes == s.recovery.fileBytes
    decreases |file| - s.offset
  {
    hide ReadRecord, Checked, RunsOut, StatedEnd, States;
    var o := ReadRecord(chk, file, s.offset, s.chain);
    AnswerMeans(chk, file, s.offset, s.chain);
    if o.Good? {
      KeepAccounts(chk, file, s);
      if !o.record.kind.Trailer? {
        WalkAccounts(chk, file, Keep(s, chk.digest(file[..HEADER_BYTES]), o.record, o.next));
      }
    } else {
      NothingRead(chk, file, s.offset, s.chain);
    }
  }

  lemma NothingRead(chk: Checks, file: Bytes, at: nat, before: Digest)
    requires at <= |file| && !ReadRecord(chk, file, at, before).Good?
    ensures NothingAt(chk, file, at, before)
  {
    hide ReadRecord, Checked;
    forall r: StoredRecord | r.offset == at
      ensures !Checked(chk, file, r, before)
    {
      if Checked(chk, file, r, before) {
        CheckedReads(chk, file, r, before);
        assert false;
      }
    }
  }

  lemma KeepAccounts(chk: Checks, file: Bytes, s: Scan)
    requires |file| >= HEADER_BYTES && Running(file, s)
    requires ReadRecord(chk, file, s.offset, s.chain).Good?
    ensures var o := ReadRecord(chk, file, s.offset, s.chain);
      var seed: Digest := chk.digest(file[..HEADER_BYTES]);
      var k := Keep(s, seed, o.record, o.next);
      && k.offset > s.offset && k.recovery.fileBytes == s.recovery.fileBytes
      && (!o.record.kind.Trailer? ==> Running(file, k))
      && (o.record.kind.Trailer? ==> Accounted(chk, file, seed, k.records, k.offset, k.chain, k.recovery))
  {
    hide ReadRecord;
    var o := ReadRecord(chk, file, s.offset, s.chain);
    assert (s.records + [o.record])[..|s.records|] == s.records;
  }

  /** The report of any file, in terms of its bytes: the records returned are all that lie linked
      end to end behind the header up to the first trailer, a trailer is reported as a mismatch
      exactly when it does not state the number and the chain of the records before it, and where
      the records end before the file does and before any trailer, the flag says whether what
      follows runs past the end, is followed by more, or is the damaged last record. A report is
      clean exactly when the records end with an agreeing trailer or with the file. */
  lemma ReportExact(chk: Checks, file: Bytes)
    requires Loaded(chk, file).Ok?
    ensures var l := Loaded(chk, file).value; var seed: Digest := chk.digest(file[..HEADER_BYTES]);
      && Linked(chk, file, l.records)
      && l.recovery.validBytes == StartOf(l.records, |l.records|)
      && Accounted(chk, file, seed, l.records, l.recovery.validBytes, FinalChain(chk, file), l.recovery)
      && (l.recovery.clean <==>
            if ClosedBy(l.records) then !l.recovery.trailerMismatch else l.recovery.validBytes == |file|)
      && l.recovery.recordsRecovered == |l.records| && l.recovery.fileBytes == |file|
  {
    hide Walk, DecodeHeader, Linked, RunsOut, StatedEnd, States, NothingAt, ReadTrailer;
    var start := StartScan(chk, file);
    StartConsistent(chk, file);
    WalkLinks(chk, file, start);
    WalkAccounts(chk, file, start);
    LoadedLinks(chk, file);
  }

  lemma StartConsistent(chk: Checks, file: Bytes)
    requires |file| >= HEADER_BYTES
    ensures Consistent(chk, file, StartScan(chk, file))
  {
  }
}
