/** Baselines (src/baseline.cpp) and their canonical encoding (src/codec.cpp). Metric values travel
    as the 64 bits of a double. */
module BaselineCodec {
  import opened Errors
  import opened CanonicalBytes
  import opened Lists
  import opened RecordForms
  import opened Samples
  import opened SampleCodec

  const MAX_BASELINE_METRICS: nat := 128
  const LAST_EVIDENCE_STATE: Byte := 7

  datatype Definition = Definition(key: Byte, name: Bytes, unit: Byte, version: U32)

  datatype MetricValue = MetricValue(id: Id, definition: Definition, bits: U64, sampleCount: U64, termCount: U64)

  datatype Counts = Counts(samples: U64, freshSamples: U64, first: Option<I64>, last: Option<I64>)

  datatype Baseline = Baseline(
    id: Id, name: Bytes, place: Place, window: Id, policy: Id, counts: Counts, evidence: Byte, origin: Byte,
    createdAt: I64, note: Bytes, metrics: seq<MetricValue>, digest: Digest)

  function BaselineTag(): Bytes { EncStr(Ascii("jitter.baseline.v1")) }

  // ---------------------------------------------------------------------------
  // Metric values: only known definitions at the same version read back
  // ---------------------------------------------------------------------------

  function EncMetric(m: MetricValue): Bytes {
    m.id + (EncU32(m.definition.version) + (EncU64(m.bits) + (EncU64(m.sampleCount) + EncU64(m.termCount))))
  }

  function DecMetric(registry: map<Id, Definition>, b: Bytes): Parse<MetricValue> {
    var (id, r) :- DecId(b);
    if id !in registry then Malformed(NotFound)
    else
      var (version, r) :- DecU32(r);
      if version != registry[id].version then Malformed(VersionUnsupported)
      else
        var (bits, r) :- DecU64(r);
        var (sampleCount, r) :- DecU64(r);
        var (termCount, r) :- DecU64(r);
        Parsed(MetricValue(id, registry[id], bits, sampleCount, termCount), r)
  }

  function MetricDecoder(registry: map<Id, Definition>): Bytes -> Parse<MetricValue> {
    b => DecMetric(registry, b)
  }

  predicate Known(registry: map<Id, Definition>, m: MetricValue) {
    m.id in registry && registry[m.id] == m.definition
  }

  lemma MetricReadsBack(registry: map<Id, Definition>, m: MetricValue)
    requires Known(registry, m)
    ensures ReadsBack(EncMetric, MetricDecoder(registry), m)
  {
    forall r: Bytes
      ensures MetricDecoder(registry)(EncMetric(m) + r) == Parsed(m, r)
    {
      MetricRoundTrip(registry, m, r);
    }
  }

  lemma MetricRoundTrip(registry: map<Id, Definition>, m: MetricValue, r: Bytes)
    requires Known(registry, m)
    ensures DecMetric(registry, EncMetric(m) + r) == Parsed(m, r)
  {
    hide DecId, DecU32, DecU64, EncU32, EncU64;
    var r4 := EncU64(m.termCount) + r;
    var r3 := EncU64(m.sampleCount) + r4;
    var r2 := EncU64(m.bits) + r3;
    var r1 := EncU32(m.definition.version) + r2;
    Nest5(m.id, EncU32(m.definition.version), EncU64(m.bits), EncU64(m.sampleCount), EncU64(m.termCount), r);
    IdRoundTrip(m.id, r1);
    U32RoundTrip(m.definition.version, r2);
    U64RoundTrip(m.bits, r3);
    U64RoundTrip(m.sampleCount, r4);
    U64RoundTrip(m.termCount, r);
  }

  method WriteMetric(w: ByteWriter, m: MetricValue)
    modifies w
    ensures w.data == old(w.data) + EncMetric(m)
  {
    hide EncU32, EncU64;
    w.Raw(m.id);
    w.U32(m.definition.version);
    w.U64(m.bits);
    w.U64(m.sampleCount);
    w.U64(m.termCount);
    Chain5(old(w.data), m.id, EncU32(m.definition.version), EncU64(m.bits), EncU64(m.sampleCount), EncU64(m.termCount));
  }

  method ReadMetric(registry: map<Id, Definition>, reader: ByteReader) returns (res: Result<MetricValue>)
    requires reader.Valid()
    modifies reader
    ensures reader.Reads(res, DecMetric(registry, old(reader.Rest())))
  {
    hide DecId, DecU32, DecU64;
    var id :- reader.ReadId();
    if id !in registry {
      return Err(NotFound);
    }
    var version :- reader.U32();
    if version != registry[id].version {
      return Err(VersionUnsupported);
    }
    var bits :- reader.U64();
    var sampleCount :- reader.U64();
    var termCount :- reader.U64();
    res := Ok(MetricValue(id, registry[id], bits, sampleCount, termCount));
  }

  // ---------------------------------------------------------------------------
  // make_baseline
  // ---------------------------------------------------------------------------

  predicate MetricBefore(a: MetricValue, b: MetricValue) {
    if a.definition.name != b.definition.name then LexLess(a.definition.name, b.definition.name)
    else LexLess(a.id, b.id)
  }

  function Neighbours(s: seq<MetricValue>): bool {
    |s| >= 2 && (s[0].id == s[1].id || Neighbours(s[1..]))
  }

  function EncScope(b: Baseline): Bytes {
    EncStr(b.name) + (EncPlace(b.place) + (b.window + b.policy))
  }

  function EncCounts(c: Counts): Bytes {
    EncU64(c.samples) + (EncU64(c.freshSamples) + (EncOptI64(c.first) + EncOptI64(c.last)))
  }

  function EncMetrics(s: seq<MetricValue>): Bytes {
    BigEndian(4, |s|) + EncList(EncMetric, s)
  }

  /** What the digest covers: everything but the creation time. */
  function DigestBytes(b: Baseline): Bytes {
    EncScope(b) + (EncCounts(b.counts) + ([b.evidence] + ([b.origin] + (EncStr(b.note) + EncMetrics(b.metrics)))))
  }

  function MadeBaseline(sch: Scheme, b: Baseline): Result<Baseline> {
    if b.place.series == NIL_ID || b.place.generation == NIL_ID || b.name == [] then Err(InvalidArgument)
    else
      var sorted := b.(metrics := SortBy(MetricBefore, b.metrics));
      if Neighbours(sorted.metrics) then Err(Duplicate)
      else
        var digest := sch.digest(BaselineTag() + DigestBytes(sorted));
        Ok(sorted.(digest := digest, id := IdOf(digest)))
  }

  /** Two metrics of the list have one identity. */
  ghost predicate Repeats(s: seq<MetricValue>) {
    exists i, j :: 0 <= i < j < |s| && s[i].id == s[j].id
  }

  /** A baseline over the metrics of this build is refused as a duplicate exactly when two of them have one
      identity, in whatever order they were given; otherwise they are kept, all of them, by
      name and identity. */
  lemma DuplicateIff(sch: Scheme, registry: map<Id, Definition>, b: Baseline)
    requires forall i :: 0 <= i < |b.metrics| ==> Known(registry, b.metrics[i])
    ensures MadeBaseline(sch, b) == Err(InvalidArgument) <==>
      b.place.series == NIL_ID || b.place.generation == NIL_ID || b.name == []
    ensures MadeBaseline(sch, b) != Err(InvalidArgument) ==>
      && (MadeBaseline(sch, b).Err? <==> Repeats(b.metrics))
      && (MadeBaseline(sch, b).Err? ==> MadeBaseline(sch, b) == Err(Duplicate))
    ensures MadeBaseline(sch, b).Ok? ==>
      var metrics := MadeBaseline(sch, b).value.metrics;
      multiset(metrics) == multiset(b.metrics)
        && forall i, j :: 0 <= i < j < |metrics| ==> NamedBefore(metrics[i], metrics[j])
  {
    hide DigestBytes, BaselineTag;
    var sorted := SortBy(MetricBefore, b.metrics);
    NamesOrder();
    SortSorted(MetricBefore, b.metrics);
    SortMembers(MetricBefore, b.metrics);
    forall i | 0 <= i < |sorted|
      ensures Known(registry, sorted[i])
    {
      assert sorted[i] in multiset(b.metrics);
    }
    hide SortBy, Known;
    SortedRepeats(registry, sorted);
    SameRepeats(sorted, b.metrics);
  }

  /** The names climb, and the identities where the names agree. */
  predicate NamedBefore(a: MetricValue, b: MetricValue) {
    LexLess(a.definition.name, b.definition.name)
    || (a.definition.name == b.definition.name && LexLess(a.id, b.id))
  }

  lemma NamesOrder()
    ensures StrictOrder(MetricBefore)
  {
    forall a: MetricValue, b: MetricValue | MetricBefore(a, b)
      ensures !MetricBefore(b, a)
    {
      LexTotal(a.definition.name, b.definition.name);
      LexTotal(a.id, b.id);
    }
    forall a: MetricValue, b: MetricValue, c: MetricValue | MetricBefore(a, b) && !MetricBefore(c, b)
      ensures MetricBefore(a, c)
    {
      NameCarriesOver(a, b, c);
    }
  }

  lemma NameCarriesOver(a: MetricValue, b: MetricValue, c: MetricValue)
    requires MetricBefore(a, b) && !MetricBefore(c, b)
    ensures MetricBefore(a, c)
  {
    hide LexLess;
    LexTotal(a.definition.name, b.definition.name);
    LexTotal(b.definition.name, c.definition.name);
    LexTotal(b.id, c.id);
    if LexLess(a.definition.name, b.definition.name) && LexLess(b.definition.name, c.definition.name) {
      LexTransitive(a.definition.name, b.definition.name, c.definition.name);
      LexTotal(a.definition.name, c.definition.name);
    }
    if LexLess(a.id, b.id) && LexLess(b.id, c.id) {
      LexTransitive(a.id, b.id, c.id);
    }
  }

  lemma {:induction false} NeighboursIff(s: seq<MetricValue>)
    ensures Neighbours(s) <==> exists i :: 0 <= i < |s| - 1 && s[i].id == s[i + 1].id
  {
    if |s| >= 2 {
      NeighboursIff(s[1..]);
      assert forall i :: 0 <= i < |s[1..]| ==> s[1..][i] == s[i + 1];
      if i :| 0 <= i < |s| - 1 && s[i].id == s[i + 1].id {
        if i > 0 {
          assert s[1..][i - 1].id == s[1..][i].id;
        }
      }
    }
  }

  // In a sorted list of known metrics equal identities stand side by side.
  lemma SortedRepeats(registry: map<Id, Definition>, s: seq<MetricValue>)
    requires Sorted(MetricBefore, s) && forall i :: 0 <= i < |s| ==> Known(registry, s[i])
    ensures Neighbours(s) <==> Repeats(s)
    ensures !Neighbours(s) ==> forall i, j :: 0 <= i < j < |s| ==> NamedBefore(s[i], s[j])
  {
    hide LexLess;
    NeighboursIff(s);
    if i, j :| 0 <= i < j < |s| && s[i].id == s[j].id {
      BetweenEquals(s[i], s[i + 1], s[j]);
      assert s[i].id == s[i + 1].id;
    }
    if !Neighbours(s) {
      forall i, j | 0 <= i < j < |s|
        ensures NamedBefore(s[i], s[j])
      {
        assert !MetricBefore(s[j], s[i]) && s[i].id != s[j].id;
        LexTotal(s[i].definition.name, s[j].definition.name);
        LexTotal(s[i].id, s[j].id);
      }
    }
  }

  lemma BetweenEquals(a: MetricValue, b: MetricValue, c: MetricValue)
    requires a.id == c.id && a.definition == c.definition
    requires b == c || (!MetricBefore(b, a) && !MetricBefore(c, b))
    ensures a.id == b.id
  {
    hide LexLess;
    LexTotal(a.definition.name, b.definition.name);
    LexTotal(a.id, b.id);
  }

  // Whether an identity repeats depends on the members alone.
  lemma SameRepeats(s: seq<MetricValue>, t: seq<MetricValue>)
    requires multiset(s) == multiset(t)
    ensures Repeats(s) <==> Repeats(t)
  {
    if Repeats(s) {
      RepeatsCarryOver(s, t);
    }
    if Repeats(t) {
      RepeatsCarryOver(t, s);
    }
  }

  lemma RepeatsCarryOver(s: seq<MetricValue>, t: seq<MetricValue>)
    requires multiset(s) == multiset(t) && Repeats(s)
    ensures Repeats(t)
  {
    var i, j :| 0 <= i < j < |s| && s[i].id == s[j].id;
    if s[i] == s[j] {
      TwiceCounted(s, i, j);
      var k, l := TwoPlaces(t, s[i]);
    } else {
      assert s[i] in multiset(t) && s[j] in multiset(t);
      var k :| 0 <= k < |t| && t[k] == s[i];
      var l :| 0 <= l < |t| && t[l] == s[j];
      assert k < l || l < k;
    }
  }

  lemma {:induction false} TwiceCounted(s: seq<MetricValue>, i: nat, j: nat)
    requires i < j < |s| && s[i] == s[j]
    ensures multiset(s)[s[i]] >= 2
  {
    var n := |s| - 1;
    assert s == s[..n] + [s[n]];
    if j < n {
      TwiceCounted(s[..n], i, j);
    } else {
      assert s[..n][i] in multiset(s[..n]);
    }
  }

  lemma {:induction false} TwoPlaces(s: seq<MetricValue>, x: MetricValue) returns (i: nat, j: nat)
    requires multiset(s)[x] >= 2
    ensures i < j < |s| && s[i] == s[j] == x
  {
    var n := |s| - 1;
    assert s == s[..n] + [s[n]];
    if multiset(s[..n])[x] >= 2 {
      i, j := TwoPlaces(s[..n], x);
    } else {
      assert x in multiset(s[..n]);
      i :| 0 <= i < n && s[..n][i] == x;
      j := n;
    }
  }

  ghost predicate MetricsOrdered(s: seq<MetricValue>) {
    forall i, j :: 0 <= i < j < |s| ==> MetricBefore(s[i], s[j])
  }

  /** A baseline as make_baseline leaves it, over the metrics of this build. */
  ghost predicate SealedBaseline(sch: Scheme, registry: map<Id, Definition>, b: Baseline) {
    && b.place.series != NIL_ID && b.place.generation != NIL_ID && 0 < |b.name| < 0x1_0000_0000
    && |b.note| < 0x1_0000_0000 && b.evidence <= LAST_EVIDENCE_STATE && b.origin <= LAST_ORIGIN
    && |b.metrics| <= MAX_BASELINE_METRICS && MetricsOrdered(b.metrics) && !Neighbours(b.metrics)
    && (forall i :: 0 <= i < |b.metrics| ==> Known(registry, b.metrics[i]))
    && b.digest == sch.digest(BaselineTag() + DigestBytes(b)) && b.id == IdOf(b.digest)
  }

  function Unnamed(b: Baseline): Baseline {
    b.(id := NIL_ID, digest := ZERO_DIGEST)
  }

  lemma BaselineRemade(sch: Scheme, registry: map<Id, Definition>, b: Baseline)
    requires SealedBaseline(sch, registry, b)
    ensures MadeBaseline(sch, Unnamed(b)) == Ok(b)
  {
    hide EncScope, EncCounts, EncMetrics, EncStr, BaselineTag, MetricBefore, SortBy;
    SortingSorted(MetricBefore, b.metrics);
    assert DigestBytes(Unnamed(b)) == DigestBytes(b) by {
      ScopeIgnoresIdentity(b);
    }
  }

  lemma ScopeIgnoresIdentity(b: Baseline)
    ensures EncScope(Unnamed(b)) == EncScope(b)
  {
  }

  // ---------------------------------------------------------------------------
  // Encoding
  // ---------------------------------------------------------------------------

  function EncBaseline(b: Baseline): Bytes {
    EncScope(b) + (EncCounts(b.counts) + ([b.evidence] + ([b.origin] + (EncI64(b.createdAt) +
      (EncStr(b.note) + EncMetrics(b.metrics))))))
  }

  datatype Scope = Scope(name: Bytes, place: Place, window: Id, policy: Id)

  function DecScope(b: Bytes): Parse<Scope> {
    var (name, r) :- DecStr(b);
    var (place, r) :- DecPlace(r);
    var (window, r) :- DecId(r);
    var (policy, r) :- DecId(r);
    Parsed(Scope(name, place, window, policy), r)
  }

  function DecCounts(b: Bytes): Parse<Counts> {
    var (samples, r) :- DecU64(b);
    var (freshSamples, r) :- DecU64(r);
    var (first, r) :- DecOptI64(r);
    var (last, r) :- DecOptI64(r);
    Parsed(Counts(samples, freshSamples, first, last), r)
  }

  function DecMetrics(registry: map<Id, Definition>, b: Bytes): Parse<seq<MetricValue>> {
    var (n, r) :- DecU32(b);
    if n > MAX_BASELINE_METRICS then Malformed(LimitExceeded) else DecList(MetricDecoder(registry), [], n, r)
  }

  function DecBaseline(sch: Scheme, registry: map<Id, Definition>, b: Bytes): Parse<Baseline> {
    var (scope, r) :- DecScope(b);
    var (counts, r) :- DecCounts(r);
    var (evidence, r) :- DecU8(r);
    if evidence > LAST_EVIDENCE_STATE then Malformed(ProtocolViolation)
    else
      var (origin, r) :- DecU8(r);
      if origin > LAST_ORIGIN then Malformed(ProtocolViolation)
      else
        var (createdAt, r) :- DecI64(r);
        var (note, r) :- DecStr(r);
        var (metrics, r) :- DecMetrics(registry, r);
        match MadeBaseline(sch, Baseline(NIL_ID, scope.name, scope.place, scope.window, scope.policy, counts,
                                         evidence, origin, createdAt, note, metrics, ZERO_DIGEST))
        case Ok(made) => Parsed(made, r)
        case Err(e) => Malformed(e)
  }

  lemma ScopeRoundTrip(b: Baseline, r: Bytes)
    requires |b.name| < 0x1_0000_0000
    ensures DecScope(EncScope(b) + r) == Parsed(Scope(b.name, b.place, b.window, b.policy), r)
  {
    hide DecStr, DecPlace, DecId, EncStr, EncPlace;
    Nest4(EncStr(b.name), EncPlace(b.place), b.window, b.policy, r);
    StrRoundTrip(b.name, EncPlace(b.place) + (b.window + (b.policy + r)));
    PlaceRoundTrip(b.place, b.window + (b.policy + r));
    IdRoundTrip(b.window, b.policy + r);
    IdRoundTrip(b.policy, r);
  }

  lemma CountsRoundTrip(c: Counts, r: Bytes)
    ensures DecCounts(EncCounts(c) + r) == Parsed(c, r)
  {
    hide DecU64, DecOptI64, EncU64, EncOptI64;
    Nest4(EncU64(c.samples), EncU64(c.freshSamples), EncOptI64(c.first), EncOptI64(c.last), r);
    U64RoundTrip(c.samples, EncU64(c.freshSamples) + (EncOptI64(c.first) + (EncOptI64(c.last) + r)));
    U64RoundTrip(c.freshSamples, EncOptI64(c.first) + (EncOptI64(c.last) + r));
    OptI64RoundTrip(c.first, EncOptI64(c.last) + r);
    OptI64RoundTrip(c.last, r);
  }

  lemma MetricsRoundTrip(registry: map<Id, Definition>, s: seq<MetricValue>, r: Bytes)
    requires |s| <= MAX_BASELINE_METRICS && forall i :: 0 <= i < |s| ==> Known(registry, s[i])
    ensures DecMetrics(registry, EncMetrics(s) + r) == Parsed(s, r)
  {
    hide DecList, EncList, DecU32, MetricDecoder, EncMetric, ReadsBack, Known;
    Assoc(EncU32(|s|), EncList(EncMetric, s), r);
    U32RoundTrip(|s|, EncList(EncMetric, s) + r);
    forall i | 0 <= i < |s|
      ensures ReadsBack(EncMetric, MetricDecoder(registry), s[i])
    {
      MetricReadsBack(registry, s[i]);
    }
    ListRoundTrip(EncMetric, MetricDecoder(registry), [], s, r);
    assert [] + s == s;
  }

  /** A sealed baseline reads back with its digest and identity recomputed. */
  lemma BaselineRoundTrip(sch: Scheme, registry: map<Id, Definition>, b: Baseline, r: Bytes)
    requires SealedBaseline(sch, registry, b)
    ensures DecBaseline(sch, registry, EncBaseline(b) + r) == Parsed(b, r)
  {
    hide DecScope, DecCounts, DecU8, DecI64, DecStr, DecMetrics, EncScope, EncCounts, EncI64, EncStr, EncMetrics;
    hide MadeBaseline, MetricsOrdered, Neighbours, DigestBytes, BaselineTag, Known;
    var r6 := EncMetrics(b.metrics) + r;
    var r5 := EncStr(b.note) + r6;
    var r4 := EncI64(b.createdAt) + r5;
    var r3 := [b.origin] + r4;
    var r2 := [b.evidence] + r3;
    var r1 := EncCounts(b.counts) + r2;
    Nest7(EncScope(b), EncCounts(b.counts), [b.evidence], [b.origin], EncI64(b.createdAt), EncStr(b.note),
          EncMetrics(b.metrics), r);
    ScopeRoundTrip(b, r1);
    CountsRoundTrip(b.counts, r2);
    U8RoundTrip(b.evidence, r3);
    U8RoundTrip(b.origin, r4);
    I64RoundTrip(b.createdAt, r5);
    StrRoundTrip(b.note, r6);
    MetricsRoundTrip(registry, b.metrics, r);
    BaselineRemade(sch, registry, b);
  }

  /** Two baselines with one digest differ in nothing but when they were made, or two inputs with one digest
      are at hand. */
  lemma SameContentSameBaseline(sch: Scheme, registry: map<Id, Definition>, a: Baseline, b: Baseline)
    requires SealedBaseline(sch, registry, a) && SealedBaseline(sch, registry, b) && a.digest == b.digest
    ensures a.(createdAt := b.createdAt) == b
      || Collision(sch.digest, BaselineTag() + DigestBytes(a), BaselineTag() + DigestBytes(b))
  {
    hide BaselineTag, DigestBytes, MetricsOrdered, Neighbours, Known;
    var x, y := BaselineTag() + DigestBytes(a), BaselineTag() + DigestBytes(b);
    if x == y {
      assert DigestBytes(a) == x[|BaselineTag()|..] == y[|BaselineTag()|..] == DigestBytes(b);
      DigestBytesTell(sch, registry, a, b);
    }
  }

  lemma DigestBytesTell(sch: Scheme, registry: map<Id, Definition>, a: Baseline, b: Baseline)
    requires SealedBaseline(sch, registry, a) && SealedBaseline(sch, registry, b) && DigestBytes(a) == DigestBytes(b)
    ensures Scope(a.name, a.place, a.window, a.policy) == Scope(b.name, b.place, b.window, b.policy)
    ensures a.counts == b.counts && a.evidence == b.evidence && a.origin == b.origin
    ensures a.note == b.note && a.metrics == b.metrics
  {
    hide EncScope, EncCounts, EncStr, EncMetrics, BaselineTag, MetricsOrdered, Neighbours, Known, DecScope, DecCounts,
      DecStr, DecMetrics, IdOf;
    DigestParts(registry, a);
    DigestParts(registry, b);
  }

  // The parts of what the digest covers, each read off the front of the rest.
  lemma DigestParts(registry: map<Id, Definition>, b: Baseline)
    requires |b.name| < 0x1_0000_0000 && |b.note| < 0x1_0000_0000 && |b.metrics| <= MAX_BASELINE_METRICS
    requires forall i :: 0 <= i < |b.metrics| ==> Known(registry, b.metrics[i])
    ensures var r3 := EncStr(b.note) + EncMetrics(b.metrics);
      var r2 := [b.evidence] + ([b.origin] + r3);
      && DecScope(DigestBytes(b)) == Parsed(Scope(b.name, b.place, b.window, b.policy), EncCounts(b.counts) + r2)
      && DecCounts(EncCounts(b.counts) + r2) == Parsed(b.counts, r2)
      && r2[0] == b.evidence && r2[1] == b.origin && r2[2..] == r3
      && DecStr(r3) == Parsed(b.note, EncMetrics(b.metrics))
      && DecMetrics(registry, EncMetrics(b.metrics)) == Parsed(b.metrics, [])
  {
    hide EncScope, EncCounts, EncStr, EncMetrics, DecScope, DecCounts, DecStr, DecMetrics, Known;
    var r3 := EncStr(b.note) + EncMetrics(b.metrics);
    var r2 := [b.evidence] + ([b.origin] + r3);
    ScopeRoundTrip(b, EncCounts(b.counts) + r2);
    CountsRoundTrip(b.counts, r2);
    StrRoundTrip(b.note, EncMetrics(b.metrics));
    MetricsRoundTrip(registry, b.metrics, []);
    assert EncMetrics(b.metrics) + [] == EncMetrics(b.metrics);
  }

  method WriteBaseline(w: ByteWriter, b: Baseline)
    modifies w
    ensures w.data == old(w.data) + EncBaseline(b)
  {
    hide EncStr, EncPlace, EncU64, EncOptI64, EncI64, EncMetric;
    w.Str(b.name);
    WritePlace(w, b.place);
    w.Raw(b.window);
    w.Raw(b.policy);
    Chain4(old(w.data), EncStr(b.name), EncPlace(b.place), b.window, b.policy);
    ghost var s1 := w.data;
    w.U64(b.counts.samples);
    w.U64(b.counts.freshSamples);
    WriteOptI64(w, b.counts.first);
    WriteOptI64(w, b.counts.last);
    Chain4(s1, EncU64(b.counts.samples), EncU64(b.counts.freshSamples),
           EncOptI64(b.counts.first), EncOptI64(b.counts.last));
    w.U8(b.evidence);
    w.U8(b.origin);
    w.I64(b.createdAt);
    w.Str(b.note);
    WriteMetrics(w, b.metrics);
    Chain7(old(w.data), EncScope(b), EncCounts(b.counts), [b.evidence], [b.origin], EncI64(b.createdAt),
           EncStr(b.note), EncMetrics(b.metrics));
  }

  method WriteMetrics(w: ByteWriter, s: seq<MetricValue>)
    modifies w
    ensures w.data == old(w.data) + EncMetrics(s)
  {
    hide EncMetric;
    w.Fixed(4, |s|);
    ghost var start := w.data;
    for i := 0 to |s|
      invariant start + EncList(EncMetric, s) == w.data + EncList(EncMetric, s[i..])
    {
      ghost var before := w.data;
      WriteMetric(w, s[i]);
      assert s[i..][1..] == s[i + 1..];
      Assoc(before, EncMetric(s[i]), EncList(EncMetric, s[i + 1..]));
    }
    Assoc(old(w.data), BigEndian(4, |s|), EncList(EncMetric, s));
  }

  method ReadScope(reader: ByteReader) returns (res: Result<Scope>)
    requires reader.Valid()
    modifies reader
    ensures reader.Reads(res, DecScope(old(reader.Rest())))
  {
    hide DecStr, DecPlace, DecId;
    var name :- reader.Str();
    var place :- ReadPlace(reader);
    var window :- reader.ReadId();
    var policy :- reader.ReadId();
    res := Ok(Scope(name, place, window, policy));
  }

  method ReadCounts(reader: ByteReader) returns (res: Result<Counts>)
    requires reader.Valid()
    modifies reader
    ensures reader.Reads(res, DecCounts(old(reader.Rest())))
  {
    hide DecU64, DecOptI64;
    var samples :- reader.U64();
    var freshSamples :- reader.U64();
    var first :- ReadOptI64(reader);
    var last :- ReadOptI64(reader);
    res := Ok(Counts(samples, freshSamples, first, last));
  }

  method ReadBaseline(sch: Scheme, registry: map<Id, Definition>, reader: ByteReader) returns (res: Result<Baseline>)
    requires reader.Valid()
    modifies reader
    ensures reader.Reads(res, DecBaseline(sch, registry, old(reader.Rest())))
  {
    hide DecScope, DecCounts, DecStr, DecU8, DecI64, DecMetrics, MadeBaseline;
    var scope :- ReadScope(reader);
    var counts :- ReadCounts(reader);
    var evidence :- reader.U8();
    if evidence > LAST_EVIDENCE_STATE {
      return Err(ProtocolViolation);
    }
    var origin :- reader.U8();
    if origin > LAST_ORIGIN {
      return Err(ProtocolViolation);
    }
    var createdAt :- reader.I64();
    var note :- reader.Str();
    var metrics :- ReadMetrics(registry, reader);
    res := MadeBaseline(sch, Baseline(NIL_ID, scope.name, scope.place, scope.window, scope.policy, counts,
                                      evidence, origin, createdAt, note, metrics, ZERO_DIGEST));
  }

  method ReadMetrics(registry: map<Id, Definition>, reader: ByteReader) returns (res: Result<seq<MetricValue>>)
    requires reader.Valid()
    modifies reader
    ensures reader.Reads(res, DecMetrics(registry, old(reader.Rest())))
  {
    hide DecU32, DecMetric;
    var n :- reader.U32();
    if n > MAX_BASELINE_METRICS {
      return Err(LimitExceeded);
    }
    ghost var start := reader.Rest();
    var metrics: seq<MetricValue> := [];
    for i := 0 to n
      invariant reader.Valid()
      invariant DecList(MetricDecoder(registry), [], n, start)
        == DecList(MetricDecoder(registry), metrics, n - i, reader.Rest())
    {
      var m :- ReadMetric(registry, reader);
      metrics := metrics + [m];
    }
    res := Ok(metrics);
  }

  /** Recomputing a baseline twice gives the same baseline: what make_baseline accepts, over known
      metrics, is sealed. */
  lemma MadeIsSealedBaseline(sch: Scheme, registry: map<Id, Definition>, b: Baseline)
    requires MadeBaseline(sch, b).Ok? && |b.name| < 0x1_0000_0000 && |b.note| < 0x1_0000_0000
    requires b.evidence <= LAST_EVIDENCE_STATE && b.origin <= LAST_ORIGIN && |b.metrics| <= MAX_BASELINE_METRICS
    requires forall m :: m in b.metrics ==> Known(registry, m)
    ensures SealedBaseline(sch, registry, MadeBaseline(sch, b).value)
  {
    hide EncScope, EncCounts, EncMetrics, EncStr, BaselineTag, Known, MetricBefore, SortBy;
    var sorted := SortBy(MetricBefore, b.metrics);
    SortMembers(MetricBefore, b.metrics);
    forall i | 0 <= i < |sorted|
      ensures Known(registry, sorted[i])
    {
      assert sorted[i] in multiset(b.metrics);
    }
    OrderedAfterSort(b.metrics);
    var made := MadeBaseline(sch, b).value;
    assert DigestBytes(made) == DigestBytes(b.(metrics := sorted)) by {
      assert Unnamed(made) == Unnamed(b.(metrics := sorted));
      ScopeIgnoresIdentity(made);
      ScopeIgnoresIdentity(b.(metrics := sorted));
    }
  }

  /** Sorted metrics without equal neighbours are strictly ordered. */
  lemma OrderedAfterSort(s: seq<MetricValue>)
    requires !Neighbours(SortBy(MetricBefore, s))
    ensures MetricsOrdered(SortBy(MetricBefore, s))
  {
    hide SortBy;
    MetricOrder();
    SortSorted(MetricBefore, s);
    StrictlyOrdered(SortBy(MetricBefore, s));
  }

  lemma MetricOrder()
    ensures StrictOrder(MetricBefore)
  {
    forall a: MetricValue, b: MetricValue | MetricBefore(a, b)
      ensures !MetricBefore(b, a)
    {
      LexTotal(a.definition.name, b.definition.name);
      LexTotal(a.id, b.id);
    }
    forall a: MetricValue, b: MetricValue, c: MetricValue | MetricBefore(a, b) && !MetricBefore(c, b)
      ensures MetricBefore(a, c)
    {
      BeforeTrans(a, b, c);
    }
  }

  lemma LexWeak(a: Bytes, b: Bytes, c: Bytes)
    requires LexLess(a, b) && !LexLess(c, b)
    ensures LexLess(a, c)
  {
    LexTotal(c, b);
    if c != b {
      LexTransitive(a, b, c);
    }
  }

  lemma BeforeTrans(a: MetricValue, b: MetricValue, c: MetricValue)
    requires MetricBefore(a, b) && !MetricBefore(c, b)
    ensures MetricBefore(a, c)
  {
    hide LexLess;
    var x, y, z := a.definition.name, b.definition.name, c.definition.name;
    LexTotal(x, y);
    LexTotal(z, y);
    LexTotal(x, z);
    if x != y && y != z {
      LexWeak(x, y, z);
    } else if x == y && y == z {
      LexWeak(a.id, b.id, c.id);
    }
  }

  lemma {:induction false} StrictlyOrdered(s: seq<MetricValue>)
    requires Sorted(MetricBefore, s) && !Neighbours(s)
    ensures MetricsOrdered(s)
  {
    hide MetricBefore;
    if |s| >= 2 {
      StrictlyOrdered(s[1..]);
      FirstBefore(s[0], s[1]);
      MetricOrder();
      forall j | 1 <= j < |s|
        ensures MetricBefore(s[0], s[j])
      {
        if j > 1 {
          assert !MetricBefore(s[j], s[1]);
        }
      }
      forall i, j | 0 <= i < j < |s|
        ensures MetricBefore(s[i], s[j])
      {
        if i > 0 {
          assert s[i] == s[1..][i - 1] && s[j] == s[1..][j - 1];
        }
      }
    }
  }

  lemma FirstBefore(a: MetricValue, b: MetricValue)
    requires !MetricBefore(b, a) && a.id != b.id
    ensures MetricBefore(a, b)
  {
    LexTotal(a.definition.name, b.definition.name);
    LexTotal(a.id, b.id);
  }
}
