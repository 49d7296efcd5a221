/** The integrity chain commits to the whole history of a store. */
module StoreChain {
  import opened CanonicalBytes
  import opened StoreFormat
  import opened StoreLoader

  // ---------------------------------------------------------------------------
  // What a scan has checked, whatever file it was given
  // ---------------------------------------------------------------------------

  function RecordEnd(r: StoredRecord): nat {
    r.offset + PREFIX_BYTES + r.payloadBytes + SUFFIX_BYTES
  }

  /** Where record k starts, and where the file read so far ends. */
  function StartOf(rs: seq<StoredRecord>, k: nat): nat
    requires k <= |rs|
  {
    if k == 0 then HEADER_BYTES else RecordEnd(rs[k - 1])
  }

  function ChainBefore(seed: Digest, rs: seq<StoredRecord>, k: nat): Digest
    requires k <= |rs|
  {
    if k == 0 then seed else rs[k - 1].chain
  }

  /** Record r is what the file holds at its offset: the length, the type and the payload it states,
      both checksums and the chain digest. The two bytes of flags may be anything. */
  ghost predicate Checked(chk: Checks, file: Bytes, r: StoredRecord, before: Digest) {
    && r.payloadBytes <= MAX_PAYLOAD_BYTES && RecordEnd(r) <= |file|
    && var covered := file[r.offset..r.offset + PREFIX_BYTES + r.payloadBytes];
    && ValueOf(covered[..4]) == r.payloadBytes
    && ValueOf(covered[4..6]) == TypeCode(r.kind)
    && covered[8..12] == EncU32(chk.crc(r.payload))
    && r.payload == covered[PREFIX_BYTES..]
    && r.chain == ChainStep(chk, before, covered)
    && file[r.offset + PREFIX_BYTES + r.payloadBytes..RecordEnd(r)] == EncU32(chk.crc(covered)) + r.chain
  }

  /** The records lie end to end behind the header, each linked to the one before. */
  ghost predicate Linked(chk: Checks, file: Bytes, rs: seq<StoredRecord>) {
    && |file| >= HEADER_BYTES
    && forall i :: 0 <= i < |rs| ==>
         LinkedAt(chk, file, rs, i)
  }

  ghost predicate LinkedAt(chk: Checks, file: Bytes, rs: seq<StoredRecord>, i: nat)
    requires |file| >= HEADER_BYTES && i < |rs|
  {
    && rs[i].offset == StartOf(rs, i)
    && Checked(chk, file, rs[i], ChainBefore(chk.digest(file[..HEADER_BYTES]), rs, i))
  }

  lemma GoodIsChecked(chk: Checks, file: Bytes, offset: nat, chain: Digest)
    requires offset <= |file| && ReadRecord(chk, file, offset, chain).Good?
    ensures var o := ReadRecord(chk, file, offset, chain);
      && o.record.offset == offset && o.next == RecordEnd(o.record)
      && Checked(chk, file, o.record, chain)
  {
    hide ChainStep, TypeOfCode, TypeCode;
    var prefix := file[offset..offset + PREFIX_BYTES];
    var length := ValueOf(prefix[..4]);
    var body := file[offset..offset + PREFIX_BYTES + length + SUFFIX_BYTES];
    var covered, suffix := body[..PREFIX_BYTES + length], body[PREFIX_BYTES + length..];
    assert covered == file[offset..offset + PREFIX_BYTES + length];
    assert covered[..PREFIX_BYTES] == prefix;
    assert covered[..4] == prefix[..4];
    assert covered[4..6] == covered[..PREFIX_BYTES][4..6];
    assert covered[8..12] == covered[..PREFIX_BYTES][8..12];
    assert covered[PREFIX_BYTES..] == body[PREFIX_BYTES..PREFIX_BYTES + length];
    KnownTypeCode(ValueOf(prefix[4..6]));
    BigEndianOfValue(prefix[8..12]);
    assert suffix == file[offset + PREFIX_BYTES + length..offset + PREFIX_BYTES + length + SUFFIX_BYTES];
    BigEndianOfValue(suffix[..4]);
    assert suffix == suffix[..4] + suffix[4..];
  }

  /** What the scan keeps: linked records up to its offset, counted, their end recorded. */
  ghost predicate Consistent(chk: Checks, file: Bytes, s: Scan) {
    && |file| >= HEADER_BYTES
    && Linked(chk, file, s.records)
    && s.offset == StartOf(s.records, |s.records|) <= |file|
    && s.chain == ChainBefore(chk.digest(file[..HEADER_BYTES]), s.records, |s.records|)
    && s.recovery.recordsRecovered == |s.records|
    && s.recovery.validBytes == (if s.records == [] then 0 else s.offset)
  }

  /** A trailer reported without mismatch states the count and the chain of the records before it. */
  ghost predicate TrailerAgrees(seed: Digest, rs: seq<StoredRecord>, r: Recovery, count: nat, root: Digest) {
    r.trailerPresent && !r.trailerMismatch ==>
      rs != [] && count == |rs| - 1 && root == ChainBefore(seed, rs, |rs| - 1)
  }

  lemma {:induction false} WalkLinks(chk: Checks, file: Bytes, s: Scan)
    requires Consistent(chk, file, s) && !s.recovery.trailerPresent
    ensures Consistent(chk, file, Walk(chk, file, s))
    ensures var t := Walk(chk, file, s);
      TrailerAgrees(chk.digest(file[..HEADER_BYTES]), t.records, t.recovery,
                    t.trailerRecordCount, t.trailerChainRoot)
    decreases |file| - s.offset
  {
    hide ReadRecord, Linked, Keep;
    var o := ReadRecord(chk, file, s.offset, s.chain);
    if o.Good? {
      KeepConsistent(chk, file, s);
      if !o.record.kind.Trailer? {
        WalkLinks(chk, file, Keep(s, chk.digest(file[..HEADER_BYTES]), o.record, o.next));
      }
    }
  }

  lemma KeepConsistent(chk: Checks, file: Bytes, s: Scan)
    requires Consistent(chk, file, s) && !s.recovery.trailerPresent
    requires ReadRecord(chk, file, s.offset, s.chain).Good?
    ensures var o := ReadRecord(chk, file, s.offset, s.chain);
      var seed := chk.digest(file[..HEADER_BYTES]);
      var kept := Keep(s, seed, o.record, o.next);
      && Consistent(chk, file, kept) && kept.offset > s.offset
      && (!o.record.kind.Trailer? ==> !kept.recovery.trailerPresent)
      && TrailerAgrees(seed, kept.records, kept.recovery, kept.trailerRecordCount, kept.trailerChainRoot)
  {
    hide ReadRecord, Checked, Linked;
    var o := ReadRecord(chk, file, s.offset, s.chain);
    GoodIsChecked(chk, file, s.offset, s.chain);
    CheckedFits(chk, file, o.record, s.chain);
    LinkExtends(chk, file, s.records, o.record);
  }

  lemma CheckedFits(chk: Checks, file: Bytes, r: StoredRecord, before: Digest)
    requires Checked(chk, file, r, before)
    ensures RecordEnd(r) <= |file|
  {
  }

  lemma LinkExtends(chk: Checks, file: Bytes, rs: seq<StoredRecord>, r: StoredRecord)
    requires Linked(chk, file, rs) && r.offset == StartOf(rs, |rs|)
    requires Checked(chk, file, r, ChainBefore(chk.digest(file[..HEADER_BYTES]), rs, |rs|))
    ensures Linked(chk, file, rs + [r])
  {
    hide Checked;
    var all := rs + [r];
    forall i | 0 <= i < |all|
      ensures LinkedAt(chk, file, all, i)
    {
      if i < |rs| {
        assert LinkedAt(chk, file, rs, i);
      }
    }
  }

  /** Whatever the file, the records that loading returns are linked and end where the valid
      bytes end, and an agreeing trailer states their number and chain. */
  lemma LoadedLinks(chk: Checks, file: Bytes)
    requires Loaded(chk, file).Ok?
    ensures var l := Loaded(chk, file).value;
      && Linked(chk, file, l.records)
      && l.recovery.recordsRecovered == |l.records|
      && l.recovery.validBytes == StartOf(l.records, |l.records|) <= |file|
      && TrailerAgrees(chk.digest(file[..HEADER_BYTES]), l.records, l.recovery,
                       l.trailerRecordCount, l.trailerChainRoot)
  {
    hide Walk, DecodeHeader;
    WalkLinks(chk, file, StartScan(chk, file));
  }

  // ---------------------------------------------------------------------------
  // Commitment
  // ---------------------------------------------------------------------------

  /** Two linked files whose chains agree behind record k agree on every byte up to there, or
      two different inputs with one digest are found. */
  lemma {:induction false} ChainCommits(
    chk: Checks, f: Bytes, g: Bytes, a: seq<StoredRecord>, b: seq<StoredRecord>, k: nat)
    returns (x: Bytes, y: Bytes)
    requires Linked(chk, f, a) && Linked(chk, g, b) && k <= |a| && k <= |b|
    requires ChainBefore(chk.digest(f[..HEADER_BYTES]), a, k) == ChainBefore(chk.digest(g[..HEADER_BYTES]), b, k)
    ensures StartOf(a, k) <= |f| && StartOf(b, k) <= |g|
    ensures f[..StartOf(a, k)] == g[..StartOf(b, k)] || Collision(chk.digest, x, y)
  {
    if k == 0 {
      x, y := f[..HEADER_BYTES], g[..HEADER_BYTES];
    } else {
      var r, t := a[k - 1], b[k - 1];
      assert LinkedAt(chk, f, a, k - 1) && LinkedAt(chk, g, b, k - 1);
      hide Linked, Checked;
      var p: Bytes := ChainBefore(chk.digest(f[..HEADER_BYTES]), a, k - 1);
      var q: Bytes := ChainBefore(chk.digest(g[..HEADER_BYTES]), b, k - 1);
      var c: Bytes := f[r.offset..r.offset + PREFIX_BYTES + r.payloadBytes];
      var d: Bytes := g[t.offset..t.offset + PREFIX_BYTES + t.payloadBytes];
      CheckedLink(chk, f, r, p);
      CheckedLink(chk, g, t, q);
      if p + c != q + d {
        x, y := p + c, q + d;
      } else {
        SamePieces(p, c, q, d);
        x, y := ChainCommits(chk, f, g, a, b, k - 1);
        if f[..StartOf(a, k - 1)] == g[..StartOf(b, k - 1)] {
          SameRecord(chk, f, g, r, t, p, q);
        }
      }
    }
  }

  lemma CheckedLink(chk: Checks, file: Bytes, r: StoredRecord, before: Digest)
    requires Checked(chk, file, r, before)
    ensures RecordEnd(r) <= |file|
    ensures r.chain == chk.digest(before + file[r.offset..r.offset + PREFIX_BYTES + r.payloadBytes])
  {
  }

  lemma SameRecord(chk: Checks, f: Bytes, g: Bytes, r: StoredRecord, t: StoredRecord, p: Digest, q: Digest)
    requires Checked(chk, f, r, p) && Checked(chk, g, t, q) && r.chain == t.chain
    requires f[..r.offset] == g[..t.offset]
    requires f[r.offset..r.offset + PREFIX_BYTES + r.payloadBytes]
      == g[t.offset..t.offset + PREFIX_BYTES + t.payloadBytes]
    ensures f[..RecordEnd(r)] == g[..RecordEnd(t)]
  {
    hide ChainStep;
    SplitRecord(f, r);
    SplitRecord(g, t);
  }

  lemma SamePieces(p: Bytes, c: Bytes, q: Bytes, d: Bytes)
    requires |p| == |q| && p + c == q + d
    ensures p == q && c == d
  {
    assert p == (p + c)[..|p|] && q == (q + d)[..|q|];
    assert c == (p + c)[|p|..] && d == (q + d)[|q|..];
  }

  lemma SplitRecord(f: Bytes, r: StoredRecord)
    requires RecordEnd(r) <= |f|
    ensures f[..RecordEnd(r)] ==
      f[..r.offset] + f[r.offset..r.offset + PREFIX_BYTES + r.payloadBytes] +
      f[r.offset + PREFIX_BYTES + r.payloadBytes..RecordEnd(r)]
  {
  }

  /** The chain digest a loaded store ends with. */
  function FinalChain(chk: Checks, file: Bytes): Digest
    requires Loaded(chk, file).Ok?
  {
    var l := Loaded(chk, file).value;
    ChainBefore(chk.digest(file[..HEADER_BYTES]), l.records, |l.records|)
  }

  /** The chain commits to the history: two files that load with the same number of records
      and the same last chain digest have the same header and record bytes, or a collision of
      the digest is exhibited. */
  lemma HistoryCommitted(chk: Checks, f: Bytes, g: Bytes) returns (x: Bytes, y: Bytes)
    requires Loaded(chk, f).Ok? && Loaded(chk, g).Ok?
    requires |Loaded(chk, f).value.records| == |Loaded(chk, g).value.records|
    requires FinalChain(chk, f) == FinalChain(chk, g)
    ensures var m, n := Loaded(chk, f).value.recovery.validBytes, Loaded(chk, g).value.recovery.validBytes;
      && m <= |f| && n <= |g|
      && (f[..m] == g[..n] || Collision(chk.digest, x, y))
  {
    hide Linked, Collision;
    var a, b := Loaded(chk, f).value.records, Loaded(chk, g).value.records;
    LoadedLinks(chk, f);
    LoadedLinks(chk, g);
    x, y := ChainCommits(chk, f, g, a, b, |a|);
  }

  ghost predicate BeforeTrailers(f: Bytes, a: seq<StoredRecord>, g: Bytes, b: seq<StoredRecord>) {
    && a != [] && |a| == |b|
    && a[|a| - 1].offset <= |f| && b[|b| - 1].offset <= |g|
  }

  /** The two files hold the same bytes up to their last records. */
  ghost predicate SameUpToTrailer(f: Bytes, a: seq<StoredRecord>, g: Bytes, b: seq<StoredRecord>)
    requires BeforeTrailers(f, a, g, b)
  {
    f[..a[|a| - 1].offset] == g[..b[|b| - 1].offset]
  }

  /** An agreeing trailer pins everything before it: two files whose trailers agree with their
      records and state the same count and root hold the same bytes up to the trailer, or a
      collision of the digest is exhibited. */
  lemma TrailerPinsHistory(chk: Checks, f: Bytes, g: Bytes) returns (x: Bytes, y: Bytes)
    requires Loaded(chk, f).Ok? && Loaded(chk, g).Ok?
    requires var r, t := Loaded(chk, f).value.recovery, Loaded(chk, g).value.recovery;
      r.trailerPresent && !r.trailerMismatch && t.trailerPresent && !t.trailerMismatch
    requires Loaded(chk, f).value.trailerRecordCount == Loaded(chk, g).value.trailerRecordCount
    requires Loaded(chk, f).value.trailerChainRoot == Loaded(chk, g).value.trailerChainRoot
    ensures var a, b := Loaded(chk, f).value.records, Loaded(chk, g).value.records;
      BeforeTrailers(f, a, g, b) && (SameUpToTrailer(f, a, g, b) || Collision(chk.digest, x, y))
  {
    hide Loaded, Checked, Collision;
    var a, b := Loaded(chk, f).value.records, Loaded(chk, g).value.records;
    LoadedLinks(chk, f);
    LoadedLinks(chk, g);
    x, y := ChainCommits(chk, f, g, a, b, |a| - 1);
    assert LinkedAt(chk, f, a, |a| - 1) && LinkedAt(chk, g, b, |b| - 1);
  }
}
