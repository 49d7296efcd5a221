/** Batches of observations on the wire (src/codec.cpp) and their content-addressed identity
    (src/sample.cpp). */
module BatchCodec {
  import opened Errors
  import opened CanonicalBytes
  import opened RecordForms
  import opened Samples
  import opened SampleCodec

  datatype Header = Header(provenance: Provenance, place: Place, observationClock: Id, protocolRevision: U32)

  datatype Batch = Batch(id: Id, header: Header, samples: seq<Sample>, content: Digest)

  function EncHeader(h: Header): Bytes {
    EncProvenance(h.provenance) + (EncPlace(h.place) + (h.observationClock + EncU32(h.protocolRevision)))
  }

  function DecHeader(b: Bytes): Parse<Header> {
    var (provenance, r) :- DecProvenance(b);
    var (place, r) :- DecPlace(r);
    var (clock, r) :- DecId(r);
    var (revision, r) :- DecU32(r);
    Parsed(Header(provenance, place, clock, revision), r)
  }

  lemma HeaderRoundTrip(h: Header, r: Bytes)
    requires ProvenanceFits(h.provenance)
    ensures DecHeader(EncHeader(h) + r) == Parsed(h, r)
  {
    hide DecProvenance, DecPlace, DecId, DecU32, EncProvenance, EncPlace, EncU32;
    var r3 := EncU32(h.protocolRevision) + r;
    var r2 := h.observationClock + r3;
    var r1 := EncPlace(h.place) + r2;
    Nest4(EncProvenance(h.provenance), EncPlace(h.place), h.observationClock, EncU32(h.protocolRevision), r);
    ProvenanceRoundTrip(h.provenance, r1);
    PlaceRoundTrip(h.place, r2);
    IdRoundTrip(h.observationClock, r3);
    U32RoundTrip(h.protocolRevision, r);
  }

  method WriteHeader(w: ByteWriter, h: Header)
    modifies w
    ensures w.data == old(w.data) + EncHeader(h)
  {
    hide EncProvenance, EncPlace, EncU32;
    WriteProvenance(w, h.provenance);
    WritePlace(w, h.place);
    w.Raw(h.observationClock);
    w.U32(h.protocolRevision);
    Chain4(old(w.data), EncProvenance(h.provenance), EncPlace(h.place), h.observationClock, EncU32(h.protocolRevision));
  }

  method ReadHeader(reader: ByteReader) returns (res: Result<Header>)
    requires reader.Valid()
    modifies reader
    ensures reader.Reads(res, DecHeader(old(reader.Rest())))
  {
    hide DecProvenance, DecPlace, DecId, DecU32;
    var provenance :- ReadProvenance(reader);
    var place :- ReadPlace(reader);
    var clock :- reader.ReadId();
    var revision :- reader.U32();
    res := Ok(Header(provenance, place, clock, revision));
  }

  // ---------------------------------------------------------------------------
  // Validity and identity
  // ---------------------------------------------------------------------------

  function SamplesRefusal(sch: Scheme, h: Header, samples: seq<Sample>): Option<ErrorCode> {
    if samples == [] then None
    else
      var s := samples[0];
      var refusal := SampleRefusal(sch, s);
      if refusal.Some? then refusal
      else if s.series != h.place.series || s.path != h.place.path || s.generation != h.place.generation
        || s.provenance.source != h.provenance.source || s.observedAt.domain != h.observationClock
      then Some(InvalidArgument)
      else SamplesRefusal(sch, h, samples[1..])
  }

  /** Why validate_batch refuses a batch, if it does. */
  function BatchRefusal(sch: Scheme, h: Header, samples: seq<Sample>): Option<ErrorCode> {
    if h.provenance.source == NIL_ID || h.provenance.incarnation == 0 || h.provenance.sequence == 0
    then Some(InvalidArgument)
    else if h.place.series == NIL_ID || h.place.path == NIL_ID || h.place.generation == NIL_ID
    then Some(InvalidArgument)
    else if h.observationClock == NIL_ID || h.provenance.origin == UNKNOWN_ORIGIN then Some(InvalidArgument)
    else if samples == [] then Some(InvalidArgument)
    else if |samples| > MAX_SAMPLES_PER_BATCH then Some(LimitExceeded)
    else SamplesRefusal(sch, h, samples)
  }

  /** s was observed for this batch: at its place, by its source, on its clock. */
  predicate BelongsTo(h: Header, s: Sample) {
    && s.series == h.place.series && s.path == h.place.path && s.generation == h.place.generation
    && s.provenance.source == h.provenance.source && s.observedAt.domain == h.observationClock
  }

  /** validate_batch accepts exactly a batch of one to 4096 well-formed observations that all belong to
      it, whose header carries an incarnation, a sequence number and an origin. Everything else
      the header needs its first observation already answers for. */
  lemma BatchAcceptedIff(sch: Scheme, h: Header, samples: seq<Sample>)
    ensures BatchRefusal(sch, h, samples) == None <==>
      && h.provenance.incarnation != 0 && h.provenance.sequence != 0 && h.provenance.origin != UNKNOWN_ORIGIN
      && 1 <= |samples| <= MAX_SAMPLES_PER_BATCH
      && forall i :: 0 <= i < |samples| ==> WellFormed(sch, samples[i]) && BelongsTo(h, samples[i])
  {
    hide WellFormed, SampleRefusal;
    SamplesAcceptedIff(sch, h, samples);
    if samples != [] && WellFormed(sch, samples[0]) {
      NamesPresent(sch, samples[0]);
    }
  }

  /** The error a refused batch gets names what is wrong with it: too many observations, something missing
      in the header or no observation at all, an observation of another place, source or clock,
      or what is wrong with one observation. */
  lemma BatchRefusalNamesCause(sch: Scheme, h: Header, samples: seq<Sample>)
    requires BatchRefusal(sch, h, samples).Some?
    ensures var e := BatchRefusal(sch, h, samples).value;
      || (e == LimitExceeded && |samples| > MAX_SAMPLES_PER_BATCH)
      || (e == InvalidArgument && (HeaderIncomplete(h) || samples == []))
      || (exists i :: 0 <= i < |samples| && SampleRefusal(sch, samples[i]) == Some(e))
      || (e == InvalidArgument && exists i :: 0 <= i < |samples| && !BelongsTo(h, samples[i]))
  {
    hide SampleRefusal;
    if SamplesRefusal(sch, h, samples).Some? {
      SamplesRefused(sch, h, samples);
    }
  }

  predicate HeaderIncomplete(h: Header) {
    || h.provenance.source == NIL_ID || h.provenance.incarnation == 0 || h.provenance.sequence == 0
    || h.provenance.origin == UNKNOWN_ORIGIN || h.place.series == NIL_ID || h.place.path == NIL_ID
    || h.place.generation == NIL_ID || h.observationClock == NIL_ID
  }

  lemma {:induction false} SamplesRefused(sch: Scheme, h: Header, samples: seq<Sample>)
    requires SamplesRefusal(sch, h, samples).Some?
    ensures var e := SamplesRefusal(sch, h, samples).value;
      || (exists i :: 0 <= i < |samples| && SampleRefusal(sch, samples[i]) == Some(e))
      || (e == InvalidArgument && exists i :: 0 <= i < |samples| && !BelongsTo(h, samples[i]))
  {
    hide SampleRefusal;
    if SampleRefusal(sch, samples[0]).None? && BelongsTo(h, samples[0]) {
      SamplesRefused(sch, h, samples[1..]);
      assert forall i :: 0 <= i < |samples[1..]| ==> samples[1..][i] == samples[i + 1];
    }
  }

  lemma NamesPresent(sch: Scheme, s: Sample)
    requires WellFormed(sch, s)
    ensures s.series != NIL_ID && s.path != NIL_ID && s.generation != NIL_ID && s.provenance.source != NIL_ID
    ensures s.observedAt.domain != NIL_ID
  {
  }

  lemma {:induction false} SamplesAcceptedIff(sch: Scheme, h: Header, samples: seq<Sample>)
    ensures SamplesRefusal(sch, h, samples) == None <==>
      forall i :: 0 <= i < |samples| ==> WellFormed(sch, samples[i]) && BelongsTo(h, samples[i])
  {
    hide WellFormed, SampleRefusal;
    if samples != [] {
      AcceptedIff(sch, samples[0]);
      SamplesAcceptedIff(sch, h, samples[1..]);
      assert forall i :: 0 < i < |samples| ==> samples[i] == samples[1..][i - 1];
      assert forall i :: 0 <= i < |samples[1..]| ==> samples[1..][i] == samples[i + 1];
    }
  }

  function ContentBytes(s: Sample): Bytes { s.content }

  /** The bytes the batch digest covers: the header, the count and each sample's content digest. */
  function IdentityBytes(h: Header, samples: seq<Sample>): Bytes {
    EncHeader(h) + (BigEndian(4, |samples|) + EncList(ContentBytes, samples))
  }

  function BatchContent(sch: Scheme, h: Header, samples: seq<Sample>): Digest {
    sch.digest(BatchTag() + IdentityBytes(h, samples))
  }

  function MadeBatch(sch: Scheme, h: Header, samples: seq<Sample>): Result<Batch> {
    var refusal := BatchRefusal(sch, h, samples);
    if refusal.Some? then Err(refusal.value)
    else
      var content := BatchContent(sch, h, samples);
      Ok(Batch(IdOf(content), h, samples, content))
  }

  /** A batch as make_batch leaves it, its samples as make_sample leaves them. */
  ghost predicate SealedBatch(sch: Scheme, b: Batch) {
    && MadeBatch(sch, b.header, b.samples) == Ok(b)
    && ProvenanceFits(b.header.provenance)
    && forall i :: 0 <= i < |b.samples| ==> Sealed(sch, b.samples[i])
  }

  // ---------------------------------------------------------------------------
  // Encoding
  // ---------------------------------------------------------------------------

  function EncBatch(b: Batch): Bytes {
    EncHeader(b.header) + (BigEndian(4, |b.samples|) + EncList(EncSample, b.samples))
  }

  function SampleDecoder(sch: Scheme): Bytes -> Parse<Sample> {
    b => DecSample(sch, b)
  }

  function DecBatch(sch: Scheme, b: Bytes): Parse<Batch> {
    var (h, r) :- DecHeader(b);
    var (n, r) :- DecU32(r);
    if n == 0 || n > MAX_SAMPLES_PER_BATCH then Malformed(LimitExceeded)
    else
      var (samples, r) :- DecList(SampleDecoder(sch), [], n, r);
      match MadeBatch(sch, h, samples)
      case Ok(batch) => Parsed(batch, r)
      case Err(e) => Malformed(e)
  }

  lemma SampleReadsBack(sch: Scheme, s: Sample)
    requires Sealed(sch, s)
    ensures ReadsBack(EncSample, SampleDecoder(sch), s)
  {
    hide EncSample, DecSample, Sealed;
    forall r: Bytes
      ensures SampleDecoder(sch)(EncSample(s) + r) == Parsed(s, r)
    {
      SampleRoundTrip(sch, s, r);
    }
  }

  lemma SamplesRoundTrip(sch: Scheme, samples: seq<Sample>, r: Bytes)
    requires forall i :: 0 <= i < |samples| ==> Sealed(sch, samples[i])
    ensures DecList(SampleDecoder(sch), [], |samples|, EncList(EncSample, samples) + r) == Parsed(samples, r)
  {
    hide EncSample, SampleDecoder, Sealed, ReadsBack;
    forall i | 0 <= i < |samples|
      ensures ReadsBack(EncSample, SampleDecoder(sch), samples[i])
    {
      SampleReadsBack(sch, samples[i]);
    }
    ListRoundTrip(EncSample, SampleDecoder(sch), [], samples, r);
    assert [] + samples == samples;
  }

  /** A sealed batch reads back with every identity recomputed: its own and its samples'. */
  lemma BatchRoundTrip(sch: Scheme, b: Batch, r: Bytes)
    requires SealedBatch(sch, b)
    ensures DecBatch(sch, EncBatch(b) + r) == Parsed(b, r)
  {
    hide EncHeader, DecHeader, EncList, DecList, DecU32, EncSample, SampleDecoder, Sealed, BatchContent;
    SealedCount(sch, b);
    var r2 := EncList(EncSample, b.samples) + r;
    var r1 := EncU32(|b.samples|) + r2;
    Nest3(EncHeader(b.header), EncU32(|b.samples|), EncList(EncSample, b.samples), r);
    HeaderRoundTrip(b.header, r1);
    U32RoundTrip(|b.samples|, r2);
    SamplesRoundTrip(sch, b.samples, r);
  }

  lemma SealedCount(sch: Scheme, b: Batch)
    requires SealedBatch(sch, b)
    ensures 0 < |b.samples| <= MAX_SAMPLES_PER_BATCH
  {
    hide SamplesRefusal, BatchContent;
  }

  method WriteBatch(w: ByteWriter, b: Batch)
    modifies w
    ensures w.data == old(w.data) + EncBatch(b)
  {
    hide EncHeader, EncSample;
    WriteHeader(w, b.header);
    ghost var afterHeader := w.data;
    w.Fixed(4, |b.samples|);
    ghost var start := w.data;
    for i := 0 to |b.samples|
      invariant start + EncList(EncSample, b.samples) == w.data + EncList(EncSample, b.samples[i..])
    {
      ghost var before := w.data;
      WriteSample(w, b.samples[i]);
      assert b.samples[i..][1..] == b.samples[i + 1..];
      Assoc(before, EncSample(b.samples[i]), EncList(EncSample, b.samples[i + 1..]));
    }
    Chain3(old(w.data), EncHeader(b.header), BigEndian(4, |b.samples|), EncList(EncSample, b.samples));
  }

  method ReadBatch(sch: Scheme, reader: ByteReader) returns (res: Result<Batch>)
    requires reader.Valid()
    modifies reader
    ensures reader.Reads(res, DecBatch(sch, old(reader.Rest())))
  {
    hide DecHeader, DecU32, DecSample, MadeBatch;
    var h :- ReadHeader(reader);
    var n :- reader.U32();
    if n == 0 || n > MAX_SAMPLES_PER_BATCH {
      return Err(LimitExceeded);
    }
    ghost var start := reader.Rest();
    var samples: seq<Sample> := [];
    for i := 0 to n
      invariant reader.Valid()
      invariant DecList(SampleDecoder(sch), [], n, start) == DecList(SampleDecoder(sch), samples, n - i, reader.Rest())
    {
      var s :- ReadSample(sch, reader);
      samples := samples + [s];
    }
    res := MadeBatch(sch, h, samples);
  }

  // ---------------------------------------------------------------------------
  // What a batch identity commits to
  // ---------------------------------------------------------------------------

  lemma {:induction false} SameContents(a: seq<Sample>, b: seq<Sample>)
    requires |a| == |b| && EncList(ContentBytes, a) == EncList(ContentBytes, b)
    ensures forall i :: 0 <= i < |a| ==> a[i].content == b[i].content
  {
    if a != [] {
      var x := EncList(ContentBytes, a[1..]);
      var y := EncList(ContentBytes, b[1..]);
      FirstDigest(a[0].content, x);
      FirstDigest(b[0].content, y);
      SameContents(a[1..], b[1..]);
      assert forall i :: 0 < i < |a| ==> a[i] == a[1..][i - 1] && b[i] == b[1..][i - 1];
    }
  }

  lemma FirstDigest(d: Digest, rest: Bytes)
    ensures (d + rest)[..DIGEST_BYTES] == d && (d + rest)[DIGEST_BYTES..] == rest
  {
  }

  lemma SameIdentityBytes(g: Header, a: seq<Sample>, h: Header, b: seq<Sample>)
    requires ProvenanceFits(g.provenance) && ProvenanceFits(h.provenance)
    requires |a| <= MAX_SAMPLES_PER_BATCH && |b| <= MAX_SAMPLES_PER_BATCH
    requires IdentityBytes(g, a) == IdentityBytes(h, b)
    ensures g == h && |a| == |b| && forall i :: 0 <= i < |a| ==> a[i].content == b[i].content
  {
    hide EncHeader, DecHeader, EncList, ContentBytes, DecU32;
    var x := EncList(ContentBytes, a);
    var y := EncList(ContentBytes, b);
    HeaderRoundTrip(g, EncU32(|a|) + x);
    HeaderRoundTrip(h, EncU32(|b|) + y);
    U32RoundTrip(|a|, x);
    U32RoundTrip(|b|, y);
    SameContents(a, b);
  }

  /** Two sealed batches with the same content digest are the same batch, sample for sample, or a
      collision of the digest is exhibited. */
  lemma SameContentSameBatch(sch: Scheme, a: Batch, b: Batch) returns (x: Bytes, y: Bytes)
    requires SealedBatch(sch, a) && SealedBatch(sch, b) && a.content == b.content
    ensures a == b || Collision(sch.digest, x, y)
  {
    hide IdentityBytes, BatchTag, BatchRefusal, Sealed, EncSample, MeasurementTag;
    x, y := BatchTag() + IdentityBytes(a.header, a.samples), BatchTag() + IdentityBytes(b.header, b.samples);
    if x == y {
      SealedCount(sch, a);
      SealedCount(sch, b);
      var n := |BatchTag()|;
      assert x[n..] == IdentityBytes(a.header, a.samples) && y[n..] == IdentityBytes(b.header, b.samples);
      SameIdentityBytes(a.header, a.samples, b.header, b.samples);
      if a.samples != b.samples {
        var i :| 0 <= i < |a.samples| && a.samples[i] != b.samples[i];
        SameContentSameSample(sch, a.samples[i], b.samples[i]);
        x, y := MeasurementTag() + EncSample(a.samples[i]), MeasurementTag() + EncSample(b.samples[i]);
      }
    }
  }
}
