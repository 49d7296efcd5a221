/** Canonical encodings of observations and batches (src/codec.cpp) and the content-addressed
    identities recomputed when they are read back (src/sample.cpp). */
module SampleCodec {
  import opened Errors
  import opened CanonicalBytes
  import opened RecordForms
  import opened Samples

  const MAX_HOPS: nat := 64
  const MAX_METADATA_ENTRIES: nat := 32
  const MAX_METADATA_KEY_BYTES: nat := 96
  const MAX_METADATA_VALUE_BYTES: nat := 512
  const MAX_TOTAL_METADATA_BYTES: nat := 8192
  const MAX_SAMPLES_PER_BATCH: nat := 4096
  const MAX_LATENCY_NS: int := 3_600_000_000_000

  function MeasurementTag(): Bytes { EncStr(Ascii("jitter.measurement.v1")) }
  function BatchTag(): Bytes { EncStr(Ascii("jitter.batch.v1")) }

  // ---------------------------------------------------------------------------
  // Time points and hop timings
  // ---------------------------------------------------------------------------

  function EncTime(t: TimePoint): Bytes { t.domain + EncI64(t.ticks) }

  function DecTime(b: Bytes): Parse<TimePoint> {
    var (domain, r) :- DecId(b);
    var (ticks, r) :- DecI64(r);
    Parsed(TimePoint(domain, ticks), r)
  }

  lemma TimeRoundTrip(t: TimePoint, r: Bytes)
    ensures DecTime(EncTime(t) + r) == Parsed(t, r)
  {
    hide DecId, DecI64, EncI64;
    Assoc(t.domain, EncI64(t.ticks), r);
    IdRoundTrip(t.domain, EncI64(t.ticks) + r);
    I64RoundTrip(t.ticks, r);
  }

  method WriteTime(w: ByteWriter, t: TimePoint)
    modifies w
    ensures w.data == old(w.data) + EncTime(t)
  {
    w.Raw(t.domain);
    w.I64(t.ticks);
    Assoc(old(w.data), t.domain, EncI64(t.ticks));
  }

  method ReadTime(reader: ByteReader) returns (res: Result<TimePoint>)
    requires reader.Valid()
    modifies reader
    ensures reader.Reads(res, DecTime(old(reader.Rest())))
  {
    hide DecId, DecI64;
    var domain :- reader.ReadId();
    var ticks :- reader.I64();
    res := Ok(TimePoint(domain, ticks));
  }

  function EncTiming(t: HopTiming): Bytes { t.hop + EncTime(t.arrived) }

  function DecTiming(b: Bytes): Parse<HopTiming> {
    var (hop, r) :- DecId(b);
    var (arrived, r) :- DecTime(r);
    Parsed(HopTiming(hop, arrived), r)
  }

  lemma TimingReadsBack(t: HopTiming)
    ensures ReadsBack(EncTiming, DecTiming, t)
  {
    hide DecId, DecTime, EncTime;
    forall r: Bytes
      ensures DecTiming(EncTiming(t) + r) == Parsed(t, r)
    {
      Assoc(t.hop, EncTime(t.arrived), r);
      IdRoundTrip(t.hop, EncTime(t.arrived) + r);
      TimeRoundTrip(t.arrived, r);
    }
  }

  function EncTimings(s: seq<HopTiming>): Bytes {
    BigEndian(4, |s|) + EncList(EncTiming, s)
  }

  function DecTimings(b: Bytes): Parse<seq<HopTiming>> {
    var (n, r) :- DecU32(b);
    if n > MAX_HOPS then Malformed(LimitExceeded) else DecList(DecTiming, [], n, r)
  }

  lemma TimingsRoundTrip(s: seq<HopTiming>, r: Bytes)
    requires |s| <= MAX_HOPS
    ensures DecTimings(EncTimings(s) + r) == Parsed(s, r)
  {
    hide DecList, EncList, DecU32, DecTiming, EncTiming, ReadsBack;
    Assoc(EncU32(|s|), EncList(EncTiming, s), r);
    U32RoundTrip(|s|, EncList(EncTiming, s) + r);
    forall i | 0 <= i < |s|
      ensures ReadsBack(EncTiming, DecTiming, s[i])
    {
      TimingReadsBack(s[i]);
    }
    ListRoundTrip(EncTiming, DecTiming, [], s, r);
    assert [] + s == s;
  }

  method WriteTimings(w: ByteWriter, s: seq<HopTiming>)
    modifies w
    ensures w.data == old(w.data) + EncTimings(s)
  {
    hide EncTime;
    w.Fixed(4, |s|);
    ghost var start := w.data;
    for i := 0 to |s|
      invariant start + EncList(EncTiming, s) == w.data + EncList(EncTiming, s[i..])
    {
      ghost var before := w.data;
      w.Raw(s[i].hop);
      WriteTime(w, s[i].arrived);
      Assoc(before, s[i].hop, EncTime(s[i].arrived));
      assert s[i..][1..] == s[i + 1..];
      Assoc(before, EncTiming(s[i]), EncList(EncTiming, s[i + 1..]));
    }
    Assoc(old(w.data), BigEndian(4, |s|), EncList(EncTiming, s));
  }

  method ReadTimings(reader: ByteReader) returns (res: Result<seq<HopTiming>>)
    requires reader.Valid()
    modifies reader
    ensures reader.Reads(res, DecTimings(old(reader.Rest())))
  {
    hide DecId, DecTime, DecU32;
    var n :- reader.U32();
    if n > MAX_HOPS {
      return Err(LimitExceeded);
    }
    ghost var start := reader.Rest();
    var acc: seq<HopTiming> := [];
    for i := 0 to n
      invariant reader.Valid()
      invariant DecList(DecTiming, [], n, start) == DecList(DecTiming, acc, n - i, reader.Rest())
    {
      var hop :- reader.ReadId();
      var arrived :- ReadTime(reader);
      acc := acc + [HopTiming(hop, arrived)];
    }
    res := Ok(acc);
  }

  // ---------------------------------------------------------------------------
  // Metadata: a map kept in key order
  // ---------------------------------------------------------------------------

  ghost predicate KeysAscend(m: seq<Entry>) {
    forall i, j :: 0 <= i < j < |m| ==> LexLess(m[i].key, m[j].key)
  }

  /** std::map::emplace: a key already present keeps its first value. */
  function Emplaced(m: seq<Entry>, e: Entry): seq<Entry> {
    if m == [] || LexLess(e.key, m[0].key) then [e] + m
    else if e.key == m[0].key then m
    else [m[0]] + Emplaced(m[1..], e)
  }

  lemma {:induction false} EmplacedLast(m: seq<Entry>, e: Entry)
    requires forall i :: 0 <= i < |m| ==> LexLess(m[i].key, e.key)
    ensures Emplaced(m, e) == m + [e]
  {
    if m != [] {
      LexTotal(m[0].key, e.key);
      EmplacedLast(m[1..], e);
    }
  }

  function EncEntry(e: Entry): Bytes { EncStr(e.key) + EncStr(e.value) }

  function DecEntry(b: Bytes): Parse<Entry> {
    var (key, r) :- DecStr(b);
    var (value, r) :- DecStr(r);
    Parsed(Entry(key, value), r)
  }

  lemma EntryRoundTrip(e: Entry, r: Bytes)
    requires |e.key| < 0x1_0000_0000 && |e.value| < 0x1_0000_0000
    ensures DecEntry(EncEntry(e) + r) == Parsed(e, r)
  {
    hide DecStr, EncStr;
    Assoc(EncStr(e.key), EncStr(e.value), r);
    StrRoundTrip(e.key, EncStr(e.value) + r);
    StrRoundTrip(e.value, r);
  }

  function DecEntries(acc: seq<Entry>, n: nat, b: Bytes): Parse<seq<Entry>>
    decreases n
  {
    if n == 0 then Parsed(acc, b)
    else
      var (e, r) :- DecEntry(b);
      DecEntries(Emplaced(acc, e), n - 1, r)
  }

  lemma {:induction false} EntriesRoundTrip(acc: seq<Entry>, s: seq<Entry>, r: Bytes)
    requires KeysAscend(acc + s)
    requires forall i :: 0 <= i < |s| ==> |s[i].key| < 0x1_0000_0000 && |s[i].value| < 0x1_0000_0000
    ensures DecEntries(acc, |s|, EncList(EncEntry, s) + r) == Parsed(acc + s, r)
    decreases |s|
  {
    hide DecEntry, EncEntry, LexLess, Emplaced;
    if s == [] {
      assert EncList(EncEntry, s) + r == r;
      assert acc + s == acc;
    } else {
      var rest := EncList(EncEntry, s[1..]) + r;
      Assoc(EncEntry(s[0]), EncList(EncEntry, s[1..]), r);
      EntryRoundTrip(s[0], rest);
      forall i | 0 <= i < |acc|
        ensures LexLess(acc[i].key, s[0].key)
      {
        assert (acc + s)[i] == acc[i] && (acc + s)[|acc|] == s[0];
      }
      EmplacedLast(acc, s[0]);
      assert acc + [s[0]] + s[1..] == acc + s;
      EntriesRoundTrip(acc + [s[0]], s[1..], r);
    }
  }

  ghost predicate HasKey(m: seq<Entry>, key: Bytes) {
    exists i :: 0 <= i < |m| && m[i].key == key
  }

  lemma {:induction false} EmplacedMembers(m: seq<Entry>, e: Entry)
    requires KeysAscend(m)
    ensures KeysAscend(Emplaced(m, e))
    ensures forall x :: x in Emplaced(m, e) <==> x in m || (x == e && !HasKey(m, e.key))
  {
    hide LexLess;
    if m == [] || LexLess(e.key, m[0].key) {
      BeforeAll(m, e);
    } else if e.key != m[0].key {
      LexTotal(e.key, m[0].key);
      EmplacedMembers(m[1..], e);
      assert m == [m[0]] + m[1..];
      var rest := Emplaced(m[1..], e);
      forall i | 0 <= i < |rest|
        ensures LexLess(m[0].key, rest[i].key)
      {
        assert rest[i] in rest;
      }
      assert HasKey(m, e.key) <==> HasKey(m[1..], e.key) by {
        assert forall i :: 0 < i < |m| ==> m[1..][i - 1] == m[i];
      }
    }
  }

  lemma BeforeAll(m: seq<Entry>, e: Entry)
    requires KeysAscend(m) && (m == [] || LexLess(e.key, m[0].key))
    ensures KeysAscend([e] + m) && !HasKey(m, e.key)
  {
    hide LexLess;
    forall i | 0 <= i < |m|
      ensures LexLess(e.key, m[i].key)
    {
      if i > 0 {
        LexTransitive(e.key, m[0].key, m[i].key);
      }
    }
    LexTotal(e.key, e.key);
  }

  /** The entry at i is the first of its key. */
  ghost predicate FirstOfKey(s: seq<Entry>, i: nat)
    requires i < |s|
  {
    !HasKey(s[..i], s[i].key)
  }

  /** m holds, in key order, the first entry of every key of s. */
  ghost predicate FirstOfEach(m: seq<Entry>, s: seq<Entry>) {
    KeysAscend(m) && forall x :: x in m <==> exists i :: 0 <= i < |s| && s[i] == x && FirstOfKey(s, i)
  }

  /** Metadata written in any order and with repeated keys reads back in key order with the first value of
      each key, as a map built by emplace holds it. */
  lemma {:induction false} FirstValueKept(s: seq<Entry>, done: seq<Entry>, acc: seq<Entry>, r: Bytes)
    returns (m: seq<Entry>)
    requires forall i :: 0 <= i < |s| ==> |s[i].key| < 0x1_0000_0000 && |s[i].value| < 0x1_0000_0000
    requires FirstOfEach(acc, done)
    ensures DecEntries(acc, |s|, EncList(EncEntry, s) + r) == Parsed(m, r)
    ensures FirstOfEach(m, done + s)
    decreases |s|
  {
    hide DecEntry, EncEntry, Emplaced, FirstOfEach;
    if s == [] {
      assert EncList(EncEntry, s) + r == r;
      assert done + s == done;
      m := acc;
    } else {
      var rest := EncList(EncEntry, s[1..]) + r;
      Assoc(EncEntry(s[0]), EncList(EncEntry, s[1..]), r);
      EntryRoundTrip(s[0], rest);
      EmplacedFirst(done, acc, s[0]);
      assert (done + [s[0]]) + s[1..] == done + s;
      m := FirstValueKept(s[1..], done + [s[0]], Emplaced(acc, s[0]), r);
    }
  }

  lemma EmplacedFirst(done: seq<Entry>, acc: seq<Entry>, e: Entry)
    requires FirstOfEach(acc, done)
    ensures FirstOfEach(Emplaced(acc, e), done + [e])
  {
    hide KeysAscend, Emplaced;
    EmplacedMembers(acc, e);
    SameKeys(acc, done, e.key);
    var all := done + [e];
    assert all[..|done|] == done && all[|done|] == e;
    forall i | 0 <= i < |done|
      ensures all[i] == done[i] && (FirstOfKey(all, i) <==> FirstOfKey(done, i))
    {
      assert all[..i] == done[..i];
    }
    assert FirstOfKey(all, |done|) <==> !HasKey(done, e.key);
    forall x
      ensures x in Emplaced(acc, e) <==> exists i :: 0 <= i < |all| && all[i] == x && FirstOfKey(all, i)
    {
      if x in acc {
        var i :| 0 <= i < |done| && done[i] == x && FirstOfKey(done, i);
        assert all[i] == x && FirstOfKey(all, i);
      }
      if i :| 0 <= i < |all| && all[i] == x && FirstOfKey(all, i) {
        if i < |done| {
          assert done[i] == x && FirstOfKey(done, i);
        }
      }
    }
  }

  // A key is collected exactly when it occurred.
  lemma SameKeys(acc: seq<Entry>, done: seq<Entry>, key: Bytes)
    requires FirstOfEach(acc, done)
    ensures HasKey(acc, key) <==> HasKey(done, key)
  {
    hide KeysAscend;
    if HasKey(acc, key) {
      var j :| 0 <= j < |acc| && acc[j].key == key;
      assert acc[j] in acc;
    }
    if HasKey(done, key) {
      var i := FirstPlace(done, key);
      assert done[i] in acc;
    }
  }

  lemma {:induction false} FirstPlace(s: seq<Entry>, key: Bytes) returns (i: nat)
    requires HasKey(s, key)
    ensures i < |s| && s[i].key == key && FirstOfKey(s, i)
  {
    var j :| 0 <= j < |s| && s[j].key == key;
    var n := |s| - 1;
    assert j < n ==> s[..n][j].key == key;
    if HasKey(s[..n], key) {
      i := FirstPlace(s[..n], key);
      assert s[..n][..i] == s[..i];
    } else {
      i := n;
    }
  }

  function EncMetadata(s: seq<Entry>): Bytes {
    BigEndian(4, |s|) + EncList(EncEntry, s)
  }

  function DecMetadata(b: Bytes): Parse<seq<Entry>> {
    var (n, r) :- DecU32(b);
    if n > MAX_METADATA_ENTRIES then Malformed(LimitExceeded) else DecEntries([], n, r)
  }

  lemma MetadataRoundTrip(s: seq<Entry>, r: Bytes)
    requires |s| <= MAX_METADATA_ENTRIES && KeysAscend(s)
    requires forall i :: 0 <= i < |s| ==> |s[i].key| < 0x1_0000_0000 && |s[i].value| < 0x1_0000_0000
    ensures DecMetadata(EncMetadata(s) + r) == Parsed(s, r)
  {
    hide DecEntries, EncList, DecU32, EncEntry;
    Assoc(EncU32(|s|), EncList(EncEntry, s), r);
    U32RoundTrip(|s|, EncList(EncEntry, s) + r);
    assert [] + s == s;
    EntriesRoundTrip([], s, r);
  }

  method WriteMetadata(w: ByteWriter, s: seq<Entry>)
    modifies w
    ensures w.data == old(w.data) + EncMetadata(s)
  {
    hide EncStr;
    w.Fixed(4, |s|);
    ghost var start := w.data;
    for i := 0 to |s|
      invariant start + EncList(EncEntry, s) == w.data + EncList(EncEntry, s[i..])
    {
      ghost var before := w.data;
      w.Str(s[i].key);
      w.Str(s[i].value);
      Assoc(before, EncStr(s[i].key), EncStr(s[i].value));
      assert s[i..][1..] == s[i + 1..];
      Assoc(before, EncEntry(s[i]), EncList(EncEntry, s[i + 1..]));
    }
    Assoc(old(w.data), BigEndian(4, |s|), EncList(EncEntry, s));
  }

  method ReadMetadata(reader: ByteReader) returns (res: Result<seq<Entry>>)
    requires reader.Valid()
    modifies reader
    ensures reader.Reads(res, DecMetadata(old(reader.Rest())))
  {
    hide DecStr, DecU32, Emplaced;
    var n :- reader.U32();
    if n > MAX_METADATA_ENTRIES {
      return Err(LimitExceeded);
    }
    ghost var start := reader.Rest();
    var acc: seq<Entry> := [];
    for i := 0 to n
      invariant reader.Valid()
      invariant DecEntries([], n, start) == DecEntries(acc, n - i, reader.Rest())
    {
      var key :- reader.Str();
      var value :- reader.Str();
      acc := Emplaced(acc, Entry(key, value));
    }
    res := Ok(acc);
  }

  // ---------------------------------------------------------------------------
  // Provenance
  // ---------------------------------------------------------------------------

  // The two enumerations and the text that a written provenance can hold.
  predicate ProvenanceFits(v: Provenance) {
    v.authority <= LAST_AUTHORITY && v.origin <= LAST_ORIGIN && |v.ingestPath| < 0x1_0000_0000
  }

  function EncProvenance(v: Provenance): Bytes {
    v.source + (EncU64(v.incarnation) + (EncU64(v.epoch) + (EncU64(v.sequence) +
      ([v.authority] + ([v.origin] + EncStr(v.ingestPath))))))
  }

  function DecProvenance(b: Bytes): Parse<Provenance> {
    var (source, r) :- DecId(b);
    var (incarnation, r) :- DecU64(r);
    var (epoch, r) :- DecU64(r);
    var (sequence, r) :- DecU64(r);
    var (authority, r) :- DecU8(r);
    if authority > LAST_AUTHORITY then Malformed(ProtocolViolation)
    else
      var (origin, r) :- DecU8(r);
      if origin > LAST_ORIGIN then Malformed(ProtocolViolation)
      else
        var (ingestPath, r) :- DecStr(r);
        Parsed(Provenance(source, incarnation, epoch, sequence, authority, origin, ingestPath), r)
  }

  lemma ProvenanceRoundTrip(v: Provenance, r: Bytes)
    requires ProvenanceFits(v)
    ensures DecProvenance(EncProvenance(v) + r) == Parsed(v, r)
  {
    hide DecId, DecU64, DecU8, DecStr, EncU64, EncStr;
    Nest7(v.source, EncU64(v.incarnation), EncU64(v.epoch), EncU64(v.sequence),
          [v.authority], [v.origin], EncStr(v.ingestPath), r);
    var r6 := EncStr(v.ingestPath) + r;
    var r5 := [v.origin] + r6;
    var r4 := [v.authority] + r5;
    var r3 := EncU64(v.sequence) + r4;
    var r2 := EncU64(v.epoch) + r3;
    var r1 := EncU64(v.incarnation) + r2;
    IdRoundTrip(v.source, r1);
    U64RoundTrip(v.incarnation, r2);
    U64RoundTrip(v.epoch, r3);
    U64RoundTrip(v.sequence, r4);
    U8RoundTrip(v.authority, r5);
    U8RoundTrip(v.origin, r6);
    StrRoundTrip(v.ingestPath, r);
  }

  method WriteProvenance(w: ByteWriter, v: Provenance)
    modifies w
    ensures w.data == old(w.data) + EncProvenance(v)
  {
    hide EncU64, EncStr;
    w.Raw(v.source);
    w.U64(v.incarnation);
    w.U64(v.epoch);
    w.U64(v.sequence);
    w.U8(v.authority);
    w.U8(v.origin);
    w.Str(v.ingestPath);
    Chain7(old(w.data), v.source, EncU64(v.incarnation), EncU64(v.epoch), EncU64(v.sequence),
           [v.authority], [v.origin], EncStr(v.ingestPath));
  }

  method ReadProvenance(reader: ByteReader) returns (res: Result<Provenance>)
    requires reader.Valid()
    modifies reader
    ensures reader.Reads(res, DecProvenance(old(reader.Rest())))
  {
    hide DecId, DecU64, DecU8, DecStr;
    var source :- reader.ReadId();
    var incarnation :- reader.U64();
    var epoch :- reader.U64();
    var sequence :- reader.U64();
    var authority :- reader.U8();
    if authority > LAST_AUTHORITY {
      return Err(ProtocolViolation);
    }
    var origin :- reader.U8();
    if origin > LAST_ORIGIN {
      return Err(ProtocolViolation);
    }
    var ingestPath :- reader.Str();
    res := Ok(Provenance(source, incarnation, epoch, sequence, authority, origin, ingestPath));
  }

  // ---------------------------------------------------------------------------
  // Identity and validity of a sample
  // ---------------------------------------------------------------------------

  // Where the sample belongs.
  datatype Place = Place(series: Id, path: Id, generation: Id, ordinal: U64)

  function PlaceOf(s: Sample): Place {
    Place(s.series, s.path, s.generation, s.generationOrdinal)
  }

  function EncPlace(p: Place): Bytes {
    p.series + (p.path + (p.generation + EncU64(p.ordinal)))
  }

  function DecPlace(b: Bytes): Parse<Place> {
    var (series, r) :- DecId(b);
    var (path, r) :- DecId(r);
    var (generation, r) :- DecId(r);
    var (ordinal, r) :- DecU64(r);
    Parsed(Place(series, path, generation, ordinal), r)
  }

  lemma PlaceRoundTrip(p: Place, r: Bytes)
    ensures DecPlace(EncPlace(p) + r) == Parsed(p, r)
  {
    hide DecId, DecU64, EncU64;
    Nest4(p.series, p.path, p.generation, EncU64(p.ordinal), r);
    IdRoundTrip(p.series, p.path + (p.generation + (EncU64(p.ordinal) + r)));
    IdRoundTrip(p.path, p.generation + (EncU64(p.ordinal) + r));
    IdRoundTrip(p.generation, EncU64(p.ordinal) + r);
    U64RoundTrip(p.ordinal, r);
  }

  method WritePlace(w: ByteWriter, p: Place)
    modifies w
    ensures w.data == old(w.data) + EncPlace(p)
  {
    hide EncU64;
    w.Raw(p.series);
    w.Raw(p.path);
    w.Raw(p.generation);
    w.U64(p.ordinal);
    Chain4(old(w.data), p.series, p.path, p.generation, EncU64(p.ordinal));
  }

  method ReadPlace(reader: ByteReader) returns (res: Result<Place>)
    requires reader.Valid()
    modifies reader
    ensures reader.Reads(res, DecPlace(old(reader.Rest())))
  {
    hide DecId, DecU64;
    var series :- reader.ReadId();
    var path :- reader.ReadId();
    var generation :- reader.ReadId();
    var ordinal :- reader.U64();
    res := Ok(Place(series, path, generation, ordinal));
  }

  // The measured values.
  datatype Reading = Reading(latencyNs: I64, observedAt: TimePoint, receivedAt: TimePoint)

  function ReadingOf(s: Sample): Reading {
    Reading(s.latencyNs, s.observedAt, s.receivedAt)
  }

  function EncReading(v: Reading): Bytes {
    EncI64(v.latencyNs) + (EncTime(v.observedAt) + EncTime(v.receivedAt))
  }

  function DecReading(b: Bytes): Parse<Reading> {
    var (latencyNs, r) :- DecI64(b);
    var (observedAt, r) :- DecTime(r);
    var (receivedAt, r) :- DecTime(r);
    Parsed(Reading(latencyNs, observedAt, receivedAt), r)
  }

  lemma ReadingRoundTrip(v: Reading, r: Bytes)
    ensures DecReading(EncReading(v) + r) == Parsed(v, r)
  {
    hide DecI64, DecTime, EncI64, EncTime;
    Nest3(EncI64(v.latencyNs), EncTime(v.observedAt), EncTime(v.receivedAt), r);
    I64RoundTrip(v.latencyNs, EncTime(v.observedAt) + (EncTime(v.receivedAt) + r));
    TimeRoundTrip(v.observedAt, EncTime(v.receivedAt) + r);
    TimeRoundTrip(v.receivedAt, r);
  }

  method WriteReading(w: ByteWriter, v: Reading)
    modifies w
    ensures w.data == old(w.data) + EncReading(v)
  {
    hide EncI64, EncTime;
    w.I64(v.latencyNs);
    WriteTime(w, v.observedAt);
    WriteTime(w, v.receivedAt);
    Chain3(old(w.data), EncI64(v.latencyNs), EncTime(v.observedAt), EncTime(v.receivedAt));
  }

  method ReadReading(reader: ByteReader) returns (res: Result<Reading>)
    requires reader.Valid()
    modifies reader
    ensures reader.Reads(res, DecReading(old(reader.Rest())))
  {
    hide DecI64, DecTime;
    var latencyNs :- reader.I64();
    var observedAt :- ReadTime(reader);
    var receivedAt :- ReadTime(reader);
    res := Ok(Reading(latencyNs, observedAt, receivedAt));
  }

  /** The canonical bytes of a sample; its identity is not among them. */
  function EncSample(s: Sample): Bytes {
    EncPlace(PlaceOf(s)) + (EncProvenance(s.provenance) + (EncReading(ReadingOf(s)) +
      (EncTimings(s.hopTimings) + EncMetadata(s.metadata))))
  }

  function ContentOf(sch: Scheme, s: Sample): Digest {
    sch.digest(MeasurementTag() + EncSample(s))
  }

  function TimingsRefusal(ts: seq<HopTiming>): Option<ErrorCode> {
    if ts == [] then None
    else if ts[0].hop == NIL_ID || ts[0].arrived.domain == NIL_ID then Some(InvalidArgument)
    else TimingsRefusal(ts[1..])
  }

  function EntryRefusal(e: Entry): Option<ErrorCode> {
    if e.key == [] then Some(InvalidArgument)
    else if |e.key| > MAX_METADATA_KEY_BYTES then Some(LimitExceeded)
    else if |e.value| > MAX_METADATA_VALUE_BYTES then Some(LimitExceeded)
    else None
  }

  function MetadataRefusal(m: seq<Entry>, total: nat): Option<ErrorCode> {
    if m == [] then if total > MAX_TOTAL_METADATA_BYTES then Some(LimitExceeded) else None
    else if EntryRefusal(m[0]).Some? then EntryRefusal(m[0])
    else MetadataRefusal(m[1..], total + |m[0].key| + |m[0].value|)
  }

  function FieldsRefusal(
    sch: Scheme, p: Place, v: Provenance, m: Reading, timings: seq<HopTiming>, metadata: seq<Entry>
  ): Option<ErrorCode> {
    if p.series == NIL_ID || p.path == NIL_ID || p.generation == NIL_ID || p.ordinal == 0 then Some(InvalidArgument)
    else if v.source == NIL_ID || v.incarnation == 0 || v.sequence == 0 then Some(InvalidArgument)
    else if v.origin == UNKNOWN_ORIGIN then Some(InvalidArgument)
    else if m.observedAt.domain == NIL_ID || m.receivedAt.domain == NIL_ID then Some(InvalidArgument)
    else if m.receivedAt.domain != sch.localClock then Some(InvalidArgument)
    else if m.latencyNs < -MAX_LATENCY_NS || m.latencyNs > MAX_LATENCY_NS then Some(OutOfRange)
    else if |timings| > MAX_HOPS then Some(LimitExceeded)
    else if TimingsRefusal(timings).Some? then TimingsRefusal(timings)
    else if |metadata| > MAX_METADATA_ENTRIES then Some(LimitExceeded)
    else MetadataRefusal(metadata, 0)
  }

  /** Why validate_sample refuses a sample, if it does. */
  function SampleRefusal(sch: Scheme, s: Sample): Option<ErrorCode> {
    FieldsRefusal(sch, PlaceOf(s), s.provenance, ReadingOf(s), s.hopTimings, s.metadata)
  }

  function MetadataBytes(m: seq<Entry>): nat {
    if m == [] then 0 else |m[0].key| + |m[0].value| + MetadataBytes(m[1..])
  }

  /** What an observation has to be. */
  predicate WellFormed(sch: Scheme, s: Sample) {
    && s.series != NIL_ID && s.path != NIL_ID && s.generation != NIL_ID && s.generationOrdinal != 0
    && s.provenance.source != NIL_ID && s.provenance.incarnation != 0 && s.provenance.sequence != 0
    && s.provenance.origin != UNKNOWN_ORIGIN
    && s.observedAt.domain != NIL_ID && s.receivedAt.domain == sch.localClock != NIL_ID
    && -MAX_LATENCY_NS <= s.latencyNs <= MAX_LATENCY_NS
    && |s.hopTimings| <= MAX_HOPS
    && (forall i :: 0 <= i < |s.hopTimings| ==>
          s.hopTimings[i].hop != NIL_ID && s.hopTimings[i].arrived.domain != NIL_ID)
    && |s.metadata| <= MAX_METADATA_ENTRIES && MetadataBytes(s.metadata) <= MAX_TOTAL_METADATA_BYTES
    && (forall i :: 0 <= i < |s.metadata| ==>
          0 < |s.metadata[i].key| <= MAX_METADATA_KEY_BYTES && |s.metadata[i].value| <= MAX_METADATA_VALUE_BYTES)
  }

  /** validate_sample accepts exactly the well-formed observations. */
  lemma AcceptedIff(sch: Scheme, s: Sample)
    ensures SampleRefusal(sch, s) == None <==> WellFormed(sch, s)
  {
    TimingsAcceptedIff(s.hopTimings);
    MetadataAcceptedIff(s.metadata, 0);
  }

  lemma {:induction false} TimingsAcceptedIff(ts: seq<HopTiming>)
    ensures TimingsRefusal(ts) == None <==>
      forall i :: 0 <= i < |ts| ==> ts[i].hop != NIL_ID && ts[i].arrived.domain != NIL_ID
  {
    if ts != [] {
      TimingsAcceptedIff(ts[1..]);
      assert forall i :: 0 < i < |ts| ==> ts[i] == ts[1..][i - 1];
      assert forall i :: 0 <= i < |ts[1..]| ==> ts[1..][i] == ts[i + 1];
    }
  }

  lemma {:induction false} MetadataAcceptedIff(m: seq<Entry>, total: nat)
    ensures MetadataRefusal(m, total) == None <==>
      && total + MetadataBytes(m) <= MAX_TOTAL_METADATA_BYTES
      && forall i :: 0 <= i < |m| ==>
           0 < |m[i].key| <= MAX_METADATA_KEY_BYTES && |m[i].value| <= MAX_METADATA_VALUE_BYTES
  {
    if m != [] {
      MetadataAcceptedIff(m[1..], total + |m[0].key| + |m[0].value|);
      assert forall i :: 0 < i < |m| ==> m[i] == m[1..][i - 1];
      assert forall i :: 0 <= i < |m[1..]| ==> m[1..][i] == m[i + 1];
    }
  }

  /** make_sample: validate, then derive content digest and identity, refusing a declared identity
      that is not the derived one. */
  function Made(sch: Scheme, s: Sample): Result<Sample> {
    var refusal := SampleRefusal(sch, s);
    if refusal.Some? then Err(refusal.value)
    else
      var content := ContentOf(sch, s);
      if s.id != NIL_ID && s.id != IdOf(content) then Err(InvalidArgument)
      else Ok(s.(content := content, id := IdOf(content)))
  }

  /** A sample that validate_sample accepts, as its types hold it: the enumerations are in range
      and the metadata is in key order. Nothing ties its identity to its content. */
  ghost predicate Acceptable(sch: Scheme, s: Sample) {
    SampleRefusal(sch, s) == None && ProvenanceFits(s.provenance) && KeysAscend(s.metadata)
  }

  /** A sample as make_sample leaves it. */
  ghost predicate Sealed(sch: Scheme, s: Sample) {
    Acceptable(sch, s) && s.content == ContentOf(sch, s) && s.id == IdOf(s.content)
  }

  /** The sample with content digest and identity derived from what it measured. */
  function Resealed(sch: Scheme, s: Sample): Sample {
    s.(content := ContentOf(sch, s), id := IdOf(ContentOf(sch, s)))
  }

  /** The same observation before its identity is known. */
  function Unsealed(s: Sample): Sample {
    s.(id := NIL_ID, content := ZERO_DIGEST)
  }

  lemma IdentityNotEncoded(sch: Scheme, s: Sample)
    ensures EncSample(Unsealed(s)) == EncSample(s)
    ensures SampleRefusal(sch, Unsealed(s)) == SampleRefusal(sch, s)
  {
    hide EncPlace, EncProvenance, EncReading, EncTimings, EncMetadata, FieldsRefusal;
  }

  /** Something that identifies the observation is missing, or it was not received on the local clock. */
  predicate Unidentified(sch: Scheme, s: Sample) {
    || s.series == NIL_ID || s.path == NIL_ID || s.generation == NIL_ID || s.generationOrdinal == 0
    || s.provenance.source == NIL_ID || s.provenance.incarnation == 0 || s.provenance.sequence == 0
    || s.provenance.origin == UNKNOWN_ORIGIN
    || s.observedAt.domain == NIL_ID || s.receivedAt.domain == NIL_ID || s.receivedAt.domain != sch.localClock
    || (exists i :: 0 <= i < |s.hopTimings|
          && (s.hopTimings[i].hop == NIL_ID || s.hopTimings[i].arrived.domain == NIL_ID))
    || exists i :: 0 <= i < |s.metadata| && s.metadata[i].key == []
  }

  predicate TooLarge(s: Sample) {
    || |s.hopTimings| > MAX_HOPS || |s.metadata| > MAX_METADATA_ENTRIES
    || MetadataBytes(s.metadata) > MAX_TOTAL_METADATA_BYTES
    || exists i :: 0 <= i < |s.metadata|
         && (|s.metadata[i].key| > MAX_METADATA_KEY_BYTES || |s.metadata[i].value| > MAX_METADATA_VALUE_BYTES)
  }

  /** The error a refused observation gets names what is wrong with it. */
  lemma RefusalNamesCause(sch: Scheme, s: Sample)
    requires SampleRefusal(sch, s).Some?
    ensures var e := SampleRefusal(sch, s).value;
      && (e == InvalidArgument || e == LimitExceeded || e == OutOfRange)
      && (e == InvalidArgument ==> Unidentified(sch, s))
      && (e == LimitExceeded ==> TooLarge(s))
      && (e == OutOfRange ==> s.latencyNs < -MAX_LATENCY_NS || MAX_LATENCY_NS < s.latencyNs)
  {
    if TimingsRefusal(s.hopTimings).Some? {
      TimingsRefused(s.hopTimings);
    }
    if MetadataRefusal(s.metadata, 0).Some? {
      MetadataRefused(s.metadata, 0);
    }
  }

  lemma {:induction false} TimingsRefused(ts: seq<HopTiming>)
    requires TimingsRefusal(ts).Some?
    ensures TimingsRefusal(ts) == Some(InvalidArgument)
    ensures exists i :: 0 <= i < |ts| && (ts[i].hop == NIL_ID || ts[i].arrived.domain == NIL_ID)
  {
    if ts[0].hop != NIL_ID && ts[0].arrived.domain != NIL_ID {
      TimingsRefused(ts[1..]);
      assert forall i :: 0 <= i < |ts[1..]| ==> ts[1..][i] == ts[i + 1];
    }
  }

  lemma {:induction false} MetadataRefused(m: seq<Entry>, total: nat)
    requires MetadataRefusal(m, total).Some?
    ensures var e := MetadataRefusal(m, total).value;
      && (e == InvalidArgument || e == LimitExceeded)
      && (e == InvalidArgument ==> exists i :: 0 <= i < |m| && m[i].key == [])
      && (e == LimitExceeded ==>
            || total + MetadataBytes(m) > MAX_TOTAL_METADATA_BYTES
            || exists i :: 0 <= i < |m|
                 && (|m[i].key| > MAX_METADATA_KEY_BYTES || |m[i].value| > MAX_METADATA_VALUE_BYTES))
  {
    if m != [] && EntryRefusal(m[0]).None? {
      MetadataRefused(m[1..], total + |m[0].key| + |m[0].value|);
      assert forall i :: 0 <= i < |m[1..]| ==> m[1..][i] == m[i + 1];
    }
  }

  /** make_sample takes exactly the well-formed observations that declare no identity or the one derived from
      their content, and gives them that identity whatever they declared. */
  lemma MadeIff(sch: Scheme, s: Sample)
    ensures Made(sch, s).Ok? <==> WellFormed(sch, s) && (s.id == NIL_ID || s.id == IdOf(ContentOf(sch, s)))
    ensures Made(sch, s).Ok? ==> Made(sch, s).value == Resealed(sch, s)
    ensures WellFormed(sch, s) && Made(sch, s).Err? ==> Made(sch, s) == Err(InvalidArgument)
  {
    hide WellFormed, SampleRefusal;
    AcceptedIff(sch, s);
  }

  /** Whatever make_sample accepts is sealed, and sealing it again changes nothing. */
  lemma MadeIsSealed(sch: Scheme, s: Sample)
    requires ProvenanceFits(s.provenance) && KeysAscend(s.metadata) && Made(sch, s).Ok?
    ensures Sealed(sch, Made(sch, s).value)
    ensures Made(sch, Made(sch, s).value) == Made(sch, s)
    ensures Made(sch, Unsealed(s)) == Made(sch, s)
  {
    hide EncSample, SampleRefusal, KeysAscend;
    var t := Made(sch, s).value;
    assert Unsealed(t) == Unsealed(s);
    IdentityNotEncoded(sch, s);
    IdentityNotEncoded(sch, t);
  }

  lemma {:induction false} MetadataSmall(m: seq<Entry>, total: nat)
    requires MetadataRefusal(m, total) == None
    ensures forall i :: 0 <= i < |m| ==>
      |m[i].key| <= MAX_METADATA_KEY_BYTES && |m[i].value| <= MAX_METADATA_VALUE_BYTES
  {
    if m != [] {
      MetadataSmall(m[1..], total + |m[0].key| + |m[0].value|);
      assert m == [m[0]] + m[1..];
    }
  }

  // ---------------------------------------------------------------------------
  // Reading a sample back
  // ---------------------------------------------------------------------------

  function DecFields(b: Bytes): Parse<Sample> {
    var (place, r) :- DecPlace(b);
    var (provenance, r) :- DecProvenance(r);
    var (reading, r) :- DecReading(r);
    var (hopTimings, r) :- DecTimings(r);
    var (metadata, r) :- DecMetadata(r);
    Parsed(Sample(NIL_ID, place.series, place.path, place.generation, place.ordinal, provenance,
                  reading.latencyNs, reading.observedAt, reading.receivedAt, hopTimings, metadata, ZERO_DIGEST), r)
  }

  function DecSample(sch: Scheme, b: Bytes): Parse<Sample> {
    var (s, r) :- DecFields(b);
    match Made(sch, s)
    case Ok(made) => Parsed(made, r)
    case Err(e) => Malformed(e)
  }

  lemma FieldsRoundTrip(s: Sample, r: Bytes)
    requires ProvenanceFits(s.provenance) && |s.hopTimings| <= MAX_HOPS && |s.metadata| <= MAX_METADATA_ENTRIES
    requires KeysAscend(s.metadata) && MetadataRefusal(s.metadata, 0) == None
    ensures DecFields(EncSample(s) + r) == Parsed(Unsealed(s), r)
  {
    hide EncPlace, EncProvenance, EncReading, EncTimings, EncMetadata;
    hide DecPlace, DecProvenance, DecReading, DecTimings, DecMetadata, KeysAscend, MetadataRefusal;
    var r4 := EncMetadata(s.metadata) + r;
    var r3 := EncTimings(s.hopTimings) + r4;
    var r2 := EncReading(ReadingOf(s)) + r3;
    var r1 := EncProvenance(s.provenance) + r2;
    Nest5(EncPlace(PlaceOf(s)), EncProvenance(s.provenance), EncReading(ReadingOf(s)),
          EncTimings(s.hopTimings), EncMetadata(s.metadata), r);
    PlaceRoundTrip(PlaceOf(s), r1);
    ProvenanceRoundTrip(s.provenance, r2);
    ReadingRoundTrip(ReadingOf(s), r3);
    TimingsRoundTrip(s.hopTimings, r4);
    MetadataSmall(s.metadata, 0);
    MetadataRoundTrip(s.metadata, r);
  }

  /** Whatever the identity an acceptable sample carries, reading its encoding back gives it the
      derived one, and leaves exactly the bytes behind it. */
  lemma ReadsResealed(sch: Scheme, s: Sample, r: Bytes)
    requires Acceptable(sch, s)
    ensures DecSample(sch, EncSample(s) + r) == Parsed(Resealed(sch, s), r)
    ensures Sealed(sch, Resealed(sch, s))
  {
    hide EncSample, DecFields, KeysAscend, SampleRefusal, ProvenanceFits;
    SealedLimits(sch, s);
    FieldsRoundTrip(s, r);
    IdentityNotEncoded(sch, s);
    IdentityNotEncoded(sch, Resealed(sch, s));
    assert Unsealed(Resealed(sch, s)) == Unsealed(s);
  }

  /** An acceptable sample reads back as it was exactly when its digest and identity are the ones
      derived from its content. */
  lemma SampleRoundTripIff(sch: Scheme, s: Sample, r: Bytes)
    requires Acceptable(sch, s)
    ensures DecSample(sch, EncSample(s) + r) == Parsed(s, r) <==>
      s.content == ContentOf(sch, s) && s.id == IdOf(s.content)
  {
    hide EncSample, DecSample, Acceptable, ContentOf;
    ReadsResealed(sch, s, r);
  }

  /** A sealed sample reads back from the front of any byte string its encoding starts, with its
      identity and content digest recomputed, and leaves exactly the bytes behind it. */
  lemma SampleRoundTrip(sch: Scheme, s: Sample, r: Bytes)
    requires Sealed(sch, s)
    ensures DecSample(sch, EncSample(s) + r) == Parsed(s, r)
  {
    hide EncSample, DecSample, Acceptable, ContentOf;
    ReadsResealed(sch, s, r);
  }

  /** Another identity passes validation, but the sample comes back renamed. */
  lemma RenamedComesBack(sch: Scheme, s: Sample, other: Id, r: Bytes)
    requires Sealed(sch, s) && other != s.id
    ensures var renamed := s.(id := other);
      Acceptable(sch, renamed) && DecSample(sch, EncSample(renamed) + r) == Parsed(s, r) && s != renamed
  {
    hide EncSample, DecSample, ContentOf, KeysAscend, SampleRefusal, ProvenanceFits;
    var renamed := s.(id := other);
    assert Unsealed(renamed) == Unsealed(s);
    IdentityNotEncoded(sch, s);
    IdentityNotEncoded(sch, renamed);
    SampleRoundTrip(sch, s, r);
  }

  lemma SealedLimits(sch: Scheme, s: Sample)
    requires SampleRefusal(sch, s) == None
    ensures |s.hopTimings| <= MAX_HOPS && |s.metadata| <= MAX_METADATA_ENTRIES
    ensures MetadataRefusal(s.metadata, 0) == None
  {
    hide TimingsRefusal, MetadataRefusal;
  }

  /** Encodings are self-delimiting: two sealed samples whose encodings start the same byte string
      are the same sample, followed by the same bytes. */
  lemma SampleSelfDelimiting(sch: Scheme, a: Sample, b: Sample, ra: Bytes, rb: Bytes)
    requires Sealed(sch, a) && Sealed(sch, b) && EncSample(a) + ra == EncSample(b) + rb
    ensures a == b && ra == rb
  {
    hide EncSample, DecSample, Sealed;
    SampleRoundTrip(sch, a, ra);
    SampleRoundTrip(sch, b, rb);
  }

  /** Content addressing: samples with the same content digest are the same sample, or their
      encodings are a collision of the digest. */
  lemma SameContentSameSample(sch: Scheme, a: Sample, b: Sample)
    requires Sealed(sch, a) && Sealed(sch, b) && a.content == b.content
    ensures a == b || Collision(sch.digest, MeasurementTag() + EncSample(a), MeasurementTag() + EncSample(b))
  {
    hide EncSample, DecSample, SampleRefusal, KeysAscend, MeasurementTag;
    var tag := MeasurementTag();
    if tag + EncSample(a) == tag + EncSample(b) {
      assert (tag + EncSample(a))[|tag|..] == EncSample(a);
      assert (tag + EncSample(b))[|tag|..] == EncSample(b);
      SampleSelfDelimiting(sch, a, b, [], []);
    }
  }

  method WriteSample(w: ByteWriter, s: Sample)
    modifies w
    ensures w.data == old(w.data) + EncSample(s)
  {
    hide EncPlace, EncProvenance, EncReading, EncTimings, EncMetadata;
    WritePlace(w, PlaceOf(s));
    WriteProvenance(w, s.provenance);
    WriteReading(w, ReadingOf(s));
    WriteTimings(w, s.hopTimings);
    WriteMetadata(w, s.metadata);
    Chain5(old(w.data), EncPlace(PlaceOf(s)), EncProvenance(s.provenance), EncReading(ReadingOf(s)),
           EncTimings(s.hopTimings), EncMetadata(s.metadata));
  }

  method ReadSample(sch: Scheme, reader: ByteReader) returns (res: Result<Sample>)
    requires reader.Valid()
    modifies reader
    ensures reader.Reads(res, DecSample(sch, old(reader.Rest())))
  {
    hide DecPlace, DecProvenance, DecReading, DecTimings, DecMetadata, Made;
    var place :- ReadPlace(reader);
    var provenance :- ReadProvenance(reader);
    var reading :- ReadReading(reader);
    var hopTimings :- ReadTimings(reader);
    var metadata :- ReadMetadata(reader);
    res := Made(sch, Sample(NIL_ID, place.series, place.path, place.generation, place.ordinal, provenance,
                            reading.latencyNs, reading.observedAt, reading.receivedAt,
                            hopTimings, metadata, ZERO_DIGEST));
  }
}
