/** Canonical encodings of the other stored records (src/codec.cpp): generations, source guards,
    conflicts, paths with their hops, and baselines. */
module RecordCodec {
  import opened Errors
  import opened CanonicalBytes
  import opened RecordForms
  import opened SampleCodec
  import P = Paths
  import F = Fencing

  // ---------------------------------------------------------------------------
  // Path generations
  // ---------------------------------------------------------------------------

  function EncGenerationKey(g: P.Generation): Bytes {
    g.path + (EncU64(g.ordinal) + (g.topology + EncU64(g.revision)))
  }

  function EncGenerationLife(g: P.Generation): Bytes {
    EncI64(g.openedAt) + (EncOptI64(g.closedAt) + (EncU32(g.hopCount) + (EncStr(g.cause) + EncStr(g.closeReason))))
  }

  function EncGeneration(g: P.Generation): Bytes {
    EncGenerationKey(g) + EncGenerationLife(g)
  }

  function DecGeneration(sch: Scheme, b: Bytes): Parse<P.Generation> {
    var (path, r) :- DecId(b);
    var (ordinal, r) :- DecU64(r);
    if ordinal == 0 then Malformed(ProtocolViolation)
    else
      var (topology, r) :- DecDigest(r);
      var (revision, r) :- DecU64(r);
      var (openedAt, r) :- DecI64(r);
      var (closedAt, r) :- DecOptI64(r);
      var (hopCount, r) :- DecU32(r);
      var (cause, r) :- DecStr(r);
      var (closeReason, r) :- DecStr(r);
      Parsed(P.Generation(P.GenerationId(sch, path, ordinal, topology), path, ordinal, topology, revision,
                          openedAt, closedAt, hopCount, cause, closeReason), r)
  }

  /** A generation as the catalog makes it. */
  predicate SealedGeneration(sch: Scheme, g: P.Generation) {
    && g.id == P.GenerationId(sch, g.path, g.ordinal, g.topology) && g.ordinal != 0
    && |g.cause| < 0x1_0000_0000 && |g.closeReason| < 0x1_0000_0000
  }

  /** A generation reads back with its identity recomputed from path, ordinal and topology. */
  lemma GenerationRoundTrip(sch: Scheme, g: P.Generation, r: Bytes)
    requires SealedGeneration(sch, g)
    ensures DecGeneration(sch, EncGeneration(g) + r) == Parsed(g, r)
  {
    hide DecId, DecU64, DecDigest, DecI64, DecOptI64, DecU32, DecStr, P.GenerationId;
    hide EncU64, EncI64, EncOptI64, EncU32, EncStr;
    var r8 := EncStr(g.closeReason) + r;
    var r7 := EncStr(g.cause) + r8;
    var r6 := EncU32(g.hopCount) + r7;
    var r5 := EncOptI64(g.closedAt) + r6;
    var r4 := EncI64(g.openedAt) + r5;
    var r3 := EncU64(g.revision) + r4;
    var r2 := g.topology + r3;
    var r1 := EncU64(g.ordinal) + r2;
    Assoc(EncGenerationKey(g), EncGenerationLife(g), r);
    Nest5(EncI64(g.openedAt), EncOptI64(g.closedAt), EncU32(g.hopCount), EncStr(g.cause), EncStr(g.closeReason), r);
    Nest4(g.path, EncU64(g.ordinal), g.topology, EncU64(g.revision), r4);
    IdRoundTrip(g.path, r1);
    U64RoundTrip(g.ordinal, r2);
    DigestRoundTrip(g.topology, r3);
    U64RoundTrip(g.revision, r4);
    I64RoundTrip(g.openedAt, r5);
    OptI64RoundTrip(g.closedAt, r6);
    U32RoundTrip(g.hopCount, r7);
    StrRoundTrip(g.cause, r8);
    StrRoundTrip(g.closeReason, r);
  }

  method WriteGeneration(w: ByteWriter, g: P.Generation)
    modifies w
    ensures w.data == old(w.data) + EncGeneration(g)
  {
    hide EncU64, EncI64, EncOptI64, EncU32, EncStr;
    w.Raw(g.path);
    w.U64(g.ordinal);
    w.Raw(g.topology);
    w.U64(g.revision);
    Chain4(old(w.data), g.path, EncU64(g.ordinal), g.topology, EncU64(g.revision));
    ghost var half := w.data;
    w.I64(g.openedAt);
    WriteOptI64(w, g.closedAt);
    w.U32(g.hopCount);
    w.Str(g.cause);
    w.Str(g.closeReason);
    Chain5(half, EncI64(g.openedAt), EncOptI64(g.closedAt), EncU32(g.hopCount), EncStr(g.cause), EncStr(g.closeReason));
    Assoc(old(w.data), EncGenerationKey(g), EncGenerationLife(g));
  }

  method ReadGeneration(sch: Scheme, reader: ByteReader) returns (res: Result<P.Generation>)
    requires reader.Valid()
    modifies reader
    ensures reader.Reads(res, DecGeneration(sch, old(reader.Rest())))
  {
    hide DecId, DecU64, DecDigest, DecI64, DecOptI64, DecU32, DecStr, P.GenerationId;
    var path :- reader.ReadId();
    var ordinal :- reader.U64();
    if ordinal == 0 {
      return Err(ProtocolViolation);
    }
    var topology :- reader.ReadDigest();
    var revision :- reader.U64();
    var openedAt :- reader.I64();
    var closedAt :- ReadOptI64(reader);
    var hopCount :- reader.U32();
    var cause :- reader.Str();
    var closeReason :- reader.Str();
    res := Ok(P.Generation(P.GenerationId(sch, path, ordinal, topology), path, ordinal, topology, revision,
                           openedAt, closedAt, hopCount, cause, closeReason));
  }

  // ---------------------------------------------------------------------------
  // Source guards
  // ---------------------------------------------------------------------------

  function EncGuard(source: Id, g: F.Guard): Bytes {
    source + (EncU64(g.position.incarnation) + (EncU64(g.position.epoch) + (EncU64(g.position.sequence) +
      (g.content + EncBool(g.initialized)))))
  }

  function DecGuard(b: Bytes): Parse<(Id, F.Guard)> {
    var (source, r) :- DecId(b);
    var (incarnation, r) :- DecU64(r);
    var (epoch, r) :- DecU64(r);
    var (sequence, r) :- DecU64(r);
    var (content, r) :- DecDigest(r);
    var (initialized, r) :- DecBool(r);
    Parsed((source, F.Guard(initialized, F.Position(incarnation, epoch, sequence), content)), r)
  }

  lemma GuardRoundTrip(source: Id, g: F.Guard, r: Bytes)
    ensures DecGuard(EncGuard(source, g) + r) == Parsed((source, g), r)
  {
    hide DecId, DecU64, DecDigest, DecBool, EncU64, EncBool;
    var r5 := EncBool(g.initialized) + r;
    var r4 := g.content + r5;
    var r3 := EncU64(g.position.sequence) + r4;
    var r2 := EncU64(g.position.epoch) + r3;
    var r1 := EncU64(g.position.incarnation) + r2;
    Nest6(source, EncU64(g.position.incarnation), EncU64(g.position.epoch), EncU64(g.position.sequence),
          g.content, EncBool(g.initialized), r);
    IdRoundTrip(source, r1);
    U64RoundTrip(g.position.incarnation, r2);
    U64RoundTrip(g.position.epoch, r3);
    U64RoundTrip(g.position.sequence, r4);
    DigestRoundTrip(g.content, r5);
    BoolRoundTrip(g.initialized, r);
  }

  method WriteGuard(w: ByteWriter, source: Id, g: F.Guard)
    modifies w
    ensures w.data == old(w.data) + EncGuard(source, g)
  {
    hide EncU64, EncBool;
    w.Raw(source);
    w.U64(g.position.incarnation);
    w.U64(g.position.epoch);
    w.U64(g.position.sequence);
    w.Raw(g.content);
    w.Boolean(g.initialized);
    Chain6(old(w.data), source, EncU64(g.position.incarnation), EncU64(g.position.epoch), EncU64(g.position.sequence),
           g.content, EncBool(g.initialized));
  }

  method ReadGuard(reader: ByteReader) returns (res: Result<(Id, F.Guard)>)
    requires reader.Valid()
    modifies reader
    ensures reader.Reads(res, DecGuard(old(reader.Rest())))
  {
    hide DecId, DecU64, DecDigest, DecBool;
    var source :- reader.ReadId();
    var incarnation :- reader.U64();
    var epoch :- reader.U64();
    var sequence :- reader.U64();
    var content :- reader.ReadDigest();
    var initialized :- reader.Boolean();
    res := Ok((source, F.Guard(initialized, F.Position(incarnation, epoch, sequence), content)));
  }

  // ---------------------------------------------------------------------------
  // Conflicts
  // ---------------------------------------------------------------------------

  datatype Outcome = ResolvedByAuthority | UnresolvedEqualAuthority | UnresolvedSameSource | RefusedUnknownAuthority

  function OutcomeCode(o: Outcome): Byte {
    match o
    case ResolvedByAuthority => 0
    case UnresolvedEqualAuthority => 1
    case UnresolvedSameSource => 2
    case RefusedUnknownAuthority => 3
  }

  /** The byte written tells the outcome, and is one a reader takes. */
  lemma OutcomeCodesTell(a: Outcome, b: Outcome)
    ensures OutcomeCode(a) == OutcomeCode(b) ==> a == b
    ensures OutcomeCode(a) <= 3
  {
  }

  function OutcomeText(o: Outcome): Bytes {
    match o
    case ResolvedByAuthority => Ascii("resolved_by_authority")
    case UnresolvedEqualAuthority => Ascii("unresolved_equal_authority")
    case UnresolvedSameSource => Ascii("unresolved_same_source")
    case RefusedUnknownAuthority => Ascii("refused_unknown_authority")
  }

  // What the two sides claim.
  datatype Claim = Claim(
    series: Id, path: Id, generation: Id, sequence: U64, sourceA: Id, sourceB: Id, contentA: Digest, contentB: Digest)

  datatype ConflictRecord = ConflictRecord(
    claim: Claim, authorityA: Byte, authorityB: Byte, detectedAt: I64, outcome: Outcome, winner: Option<Id>,
    reason: Bytes, identity: Digest)

  const UNKNOWN_AUTHORITY: Byte := 0

  /** Contradictions are decided by authority alone. */
  function Resolved(a: Byte, b: Byte, sourceA: Id, sourceB: Id): (Outcome, Option<Id>) {
    if a == UNKNOWN_AUTHORITY || b == UNKNOWN_AUTHORITY then (RefusedUnknownAuthority, None)
    else if sourceA == sourceB then (UnresolvedSameSource, None)
    else if a > b then (ResolvedByAuthority, Some(sourceA))
    else if b > a then (ResolvedByAuthority, Some(sourceB))
    else (UnresolvedEqualAuthority, None)
  }

  /** Swapping the two sides does not change the outcome or the winner. */
  lemma ResolutionSymmetric(a: Byte, b: Byte, sourceA: Id, sourceB: Id)
    ensures Resolved(a, b, sourceA, sourceB) == Resolved(b, a, sourceB, sourceA)
    ensures Resolved(a, b, sourceA, sourceB).1.Some? <==>
      a != UNKNOWN_AUTHORITY && b != UNKNOWN_AUTHORITY && sourceA != sourceB && a != b
  {
  }

  /** The authority of the winner, and of the other side. */
  predicate Outweighs(a: Byte, b: Byte) {
    a != UNKNOWN_AUTHORITY && b != UNKNOWN_AUTHORITY && b < a
  }

  /** A side wins exactly when it is another source than the other side and outweighs it; where neither
      wins the outcome says which of the conditions failed. */
  lemma HeavierWins(a: Byte, b: Byte, sourceA: Id, sourceB: Id)
    ensures var (outcome, winner) := Resolved(a, b, sourceA, sourceB);
      && (winner == Some(sourceA) <==> sourceA != sourceB && Outweighs(a, b))
      && (winner == Some(sourceB) <==> sourceA != sourceB && Outweighs(b, a))
      && (outcome == ResolvedByAuthority <==> winner.Some?)
      && (outcome == RefusedUnknownAuthority <==> a == UNKNOWN_AUTHORITY || b == UNKNOWN_AUTHORITY)
      && (outcome == UnresolvedSameSource ==> sourceA == sourceB)
      && (outcome == UnresolvedEqualAuthority ==> sourceA != sourceB && a == b)
  {
  }

  /** Winning carries over: who beats a source that beats a third one beats that one too, so no three
      conflicting sources win against each other in a circle. */
  lemma WinningCarriesOver(a: Byte, b: Byte, c: Byte, sourceA: Id, sourceB: Id, sourceC: Id)
    requires sourceA != sourceB && sourceB != sourceC && sourceA != sourceC
    requires Resolved(a, b, sourceA, sourceB).1 == Some(sourceA)
    requires Resolved(b, c, sourceB, sourceC).1 == Some(sourceB)
    ensures Resolved(a, c, sourceA, sourceC).1 == Some(sourceA)
  {
    HeavierWins(a, b, sourceA, sourceB);
    HeavierWins(b, c, sourceB, sourceC);
    HeavierWins(a, c, sourceA, sourceC);
  }

  function EvidenceTag(): Bytes { EncStr(Ascii("jitter.evidence.v1")) }

  function EncClaimPlace(c: Claim): Bytes {
    c.series + (c.path + (c.generation + EncU64(c.sequence)))
  }

  function EncClaimSides(c: Claim): Bytes {
    c.sourceA + (c.sourceB + (c.contentA + c.contentB))
  }

  function EncClaim(c: Claim): Bytes {
    EncClaimPlace(c) + EncClaimSides(c)
  }

  function DecClaim(b: Bytes): Parse<Claim> {
    var (series, r) :- DecId(b);
    var (path, r) :- DecId(r);
    var (generation, r) :- DecId(r);
    var (sequence, r) :- DecU64(r);
    var (sourceA, r) :- DecId(r);
    var (sourceB, r) :- DecId(r);
    var (contentA, r) :- DecDigest(r);
    var (contentB, r) :- DecDigest(r);
    Parsed(Claim(series, path, generation, sequence, sourceA, sourceB, contentA, contentB), r)
  }

  lemma ClaimRoundTrip(c: Claim, r: Bytes)
    ensures DecClaim(EncClaim(c) + r) == Parsed(c, r)
  {
    hide DecId, DecU64, DecDigest, EncU64;
    var r7 := c.contentB + r;
    var r6 := c.contentA + r7;
    var r5 := c.sourceB + r6;
    var r4 := c.sourceA + r5;
    var r3 := EncU64(c.sequence) + r4;
    var r2 := c.generation + r3;
    var r1 := c.path + r2;
    Assoc(EncClaimPlace(c), EncClaimSides(c), r);
    Nest4(c.sourceA, c.sourceB, c.contentA, c.contentB, r);
    Nest4(c.series, c.path, c.generation, EncU64(c.sequence), r4);
    IdRoundTrip(c.series, r1);
    IdRoundTrip(c.path, r2);
    IdRoundTrip(c.generation, r3);
    U64RoundTrip(c.sequence, r4);
    IdRoundTrip(c.sourceA, r5);
    IdRoundTrip(c.sourceB, r6);
    DigestRoundTrip(c.contentA, r7);
    DigestRoundTrip(c.contentB, r);
  }

  method WriteClaim(w: ByteWriter, c: Claim)
    modifies w
    ensures w.data == old(w.data) + EncClaim(c)
  {
    hide EncU64;
    w.Raw(c.series);
    w.Raw(c.path);
    w.Raw(c.generation);
    w.U64(c.sequence);
    Chain4(old(w.data), c.series, c.path, c.generation, EncU64(c.sequence));
    ghost var half := w.data;
    w.Raw(c.sourceA);
    w.Raw(c.sourceB);
    w.Raw(c.contentA);
    w.Raw(c.contentB);
    Chain4(half, c.sourceA, c.sourceB, c.contentA, c.contentB);
    Assoc(old(w.data), EncClaimPlace(c), EncClaimSides(c));
  }

  method ReadClaim(reader: ByteReader) returns (res: Result<Claim>)
    requires reader.Valid()
    modifies reader
    ensures reader.Reads(res, DecClaim(old(reader.Rest())))
  {
    hide DecId, DecU64, DecDigest;
    var series :- reader.ReadId();
    var path :- reader.ReadId();
    var generation :- reader.ReadId();
    var sequence :- reader.U64();
    var sourceA :- reader.ReadId();
    var sourceB :- reader.ReadId();
    var contentA :- reader.ReadDigest();
    var contentB :- reader.ReadDigest();
    res := Ok(Claim(series, path, generation, sequence, sourceA, sourceB, contentA, contentB));
  }

  /** make_conflict_record: outcome, winner, reason and identity are derived, whatever was given. */
  function MadeConflict(sch: Scheme, c: Claim, a: Byte, b: Byte, detectedAt: I64): ConflictRecord {
    var (outcome, winner) := Resolved(a, b, c.sourceA, c.sourceB);
    ConflictRecord(c, a, b, detectedAt, outcome, winner, OutcomeText(outcome), sch.digest(EvidenceTag() + EncClaim(c)))
  }

  predicate SealedConflict(sch: Scheme, c: ConflictRecord) {
    && c.authorityA <= LAST_AUTHORITY && c.authorityB <= LAST_AUTHORITY
    && c == MadeConflict(sch, c.claim, c.authorityA, c.authorityB, c.detectedAt)
  }

  function EncWinner(w: Option<Id>): Bytes {
    match w
    case None => EncBool(false)
    case Some(id) => EncBool(true) + id
  }

  lemma WinnerRoundTrip(w: Option<Id>, r: Bytes)
    ensures DecOptId(EncWinner(w) + r) == Parsed(w, r)
  {
    hide DecBool, DecId, EncBool;
    match w
    case None =>
      BoolRoundTrip(false, r);
    case Some(id) =>
      Assoc(EncBool(true), id, r);
      BoolRoundTrip(true, id + r);
      IdRoundTrip(id, r);
  }

  function EncConflict(c: ConflictRecord): Bytes {
    EncClaim(c.claim) + ([c.authorityA] + ([c.authorityB] + (EncI64(c.detectedAt) +
      ([OutcomeCode(c.outcome)] + (EncWinner(c.winner) + EncStr(c.reason))))))
  }

  function DecConflict(sch: Scheme, b: Bytes): Parse<ConflictRecord> {
    var (claim, r) :- DecClaim(b);
    var (authorityA, r) :- DecU8(r);
    var (authorityB, r) :- DecU8(r);
    if authorityA > LAST_AUTHORITY || authorityB > LAST_AUTHORITY then Malformed(ProtocolViolation)
    else
      var (detectedAt, r) :- DecI64(r);
      var (outcome, r) :- DecU8(r);
      if outcome > 3 then Malformed(ProtocolViolation)
      else
        var (winner, r) :- DecOptId(r);
        var (reason, r) :- DecStr(r);
        Parsed(MadeConflict(sch, claim, authorityA, authorityB, detectedAt), r)
  }

  /** A conflict reads back whole although outcome, winner, reason and identity are recomputed. */
  lemma ConflictRoundTrip(sch: Scheme, c: ConflictRecord, r: Bytes)
    requires SealedConflict(sch, c)
    ensures DecConflict(sch, EncConflict(c) + r) == Parsed(c, r)
  {
    hide DecClaim, DecU8, DecI64, DecOptId, DecStr, EncClaim, EncI64, EncWinner, EncStr;
    hide EvidenceTag, Resolved, OutcomeText;
    var r6 := EncStr(c.reason) + r;
    var r5 := EncWinner(c.winner) + r6;
    var r4 := [OutcomeCode(c.outcome)] + r5;
    var r3 := EncI64(c.detectedAt) + r4;
    var r2 := [c.authorityB] + r3;
    var r1 := [c.authorityA] + r2;
    Nest7(EncClaim(c.claim), [c.authorityA], [c.authorityB], EncI64(c.detectedAt), [OutcomeCode(c.outcome)],
          EncWinner(c.winner), EncStr(c.reason), r);
    ClaimRoundTrip(c.claim, r1);
    U8RoundTrip(c.authorityA, r2);
    U8RoundTrip(c.authorityB, r3);
    I64RoundTrip(c.detectedAt, r4);
    U8RoundTrip(OutcomeCode(c.outcome), r5);
    WinnerRoundTrip(c.winner, r6);
    ShortText(c.outcome);
    StrRoundTrip(c.reason, r);
  }

  lemma ShortText(o: Outcome)
    ensures |OutcomeText(o)| < 0x1_0000_0000
  {
  }

  method WriteConflict(w: ByteWriter, c: ConflictRecord)
    modifies w
    ensures w.data == old(w.data) + EncConflict(c)
  {
    hide EncClaim, EncI64, EncStr, EncBool;
    WriteClaim(w, c.claim);
    w.U8(c.authorityA);
    w.U8(c.authorityB);
    w.I64(c.detectedAt);
    w.U8(OutcomeCode(c.outcome));
    ghost var before := w.data;
    w.Boolean(c.winner.Some?);
    if c.winner.Some? {
      w.Raw(c.winner.value);
      Assoc(before, EncBool(true), c.winner.value);
    }
    assert w.data == before + EncWinner(c.winner);
    w.Str(c.reason);
    Chain7(old(w.data), EncClaim(c.claim), [c.authorityA], [c.authorityB], EncI64(c.detectedAt),
           [OutcomeCode(c.outcome)], EncWinner(c.winner), EncStr(c.reason));
  }

  method ReadConflict(sch: Scheme, reader: ByteReader) returns (res: Result<ConflictRecord>)
    requires reader.Valid()
    modifies reader
    ensures reader.Reads(res, DecConflict(sch, old(reader.Rest())))
  {
    hide DecClaim, DecU8, DecI64, DecOptId, DecStr, MadeConflict;
    var claim :- ReadClaim(reader);
    var authorityA :- reader.U8();
    var authorityB :- reader.U8();
    if authorityA > LAST_AUTHORITY || authorityB > LAST_AUTHORITY {
      return Err(ProtocolViolation);
    }
    var detectedAt :- reader.I64();
    var outcome :- reader.U8();
    if outcome > 3 {
      return Err(ProtocolViolation);
    }
    var winner :- ReadOptId(reader);
    var reason :- reader.Str();
    res := Ok(MadeConflict(sch, claim, authorityA, authorityB, detectedAt));
  }

  // ---------------------------------------------------------------------------
  // Paths and hops
  // ---------------------------------------------------------------------------

  datatype Hop = Hop(id: Id, index: U16, name: Bytes, timingClock: Option<Id>, origin: Byte, deviceNote: Bytes)

  datatype PathDescriptor = PathDescriptor(id: Id, name: Bytes, origin: Byte, description: Bytes, hops: seq<Hop>)

  function PathTag(): Bytes { EncStr(Ascii("jitter.path.v1")) }
  function HopTag(): Bytes { EncStr(Ascii("jitter.hop.v1")) }

  function PathId(sch: Scheme, name: Bytes, origin: Byte, description: Bytes): Id {
    IdOf(sch.digest(PathTag() + (EncStr(name) + ([origin] + EncStr(description)))))
  }

  // A present clock is marked by an optional zero, then written out.
  function ClockMark(c: Option<Id>): Bytes {
    match c
    case None => EncOptI64(None)
    case Some(id) => EncOptI64(Some(0)) + id
  }

  function HopId(sch: Scheme, path: Id, h: Hop): Id {
    IdOf(sch.digest(HopTag() + (path + (EncU16(h.index) + (EncStr(h.name) + (ClockMark(h.timingClock) +
      ([h.origin] + EncStr(h.deviceNote))))))))
  }

  /** Two hops of one identity are on one path, and agree in index, name, clock, origin and note, or two
      inputs with one identity are at hand. */
  lemma SameIdSameHop(sch: Scheme, path: Id, h: Hop, path': Id, h': Hop) returns (x: Bytes, y: Bytes)
    requires HopFits(h) && HopFits(h') && HopId(sch, path, h) == HopId(sch, path', h')
    ensures (path == path' && h.(id := h'.id) == h') || (x != y && IdOf(sch.digest(x)) == IdOf(sch.digest(y)))
  {
    hide HopTag, IdOf, EncU16, EncStr, ClockMark;
    var a, b := path + HopText(h), path' + HopText(h');
    x, y := HopTag() + a, HopTag() + b;
    if x == y {
      assert a == x[|HopTag()|..] == y[|HopTag()|..] == b;
      IdRoundTrip(path, HopText(h));
      IdRoundTrip(path', HopText(h'));
      HopTextTells(h, h');
    }
  }

  /** What the identity of a hop covers besides its path. */
  function HopText(h: Hop): Bytes {
    EncU16(h.index) + (EncStr(h.name) + (ClockMark(h.timingClock) + ([h.origin] + EncStr(h.deviceNote))))
  }

  lemma HopTextTells(h: Hop, h': Hop)
    requires HopFits(h) && HopFits(h') && HopText(h) == HopText(h')
    ensures h.(id := h'.id) == h'
  {
    hide EncU16, EncStr, ClockMark;
    var r3, s3 := [h.origin] + EncStr(h.deviceNote), [h'.origin] + EncStr(h'.deviceNote);
    var r2, s2 := ClockMark(h.timingClock) + r3, ClockMark(h'.timingClock) + s3;
    var r1, s1 := EncStr(h.name) + r2, EncStr(h'.name) + s2;
    U16RoundTrip(h.index, r1);
    U16RoundTrip(h'.index, s1);
    StrRoundTrip(h.name, r2);
    StrRoundTrip(h'.name, s2);
    ClockMarkTells(h.timingClock, r3, h'.timingClock, s3);
    assert r3[1..] == EncStr(h.deviceNote) && s3[1..] == EncStr(h'.deviceNote);
    assert EncStr(h.deviceNote) + [] == EncStr(h.deviceNote) && EncStr(h'.deviceNote) + [] == EncStr(h'.deviceNote);
    StrRoundTrip(h.deviceNote, []);
    StrRoundTrip(h'.deviceNote, []);
  }

  lemma ClockMarkTells(c: Option<Id>, r: Bytes, c': Option<Id>, r': Bytes)
    requires ClockMark(c) + r == ClockMark(c') + r'
    ensures c == c' && r == r'
  {
    hide EncOptI64;
    MarkReads(c, r);
    MarkReads(c', r');
    if c.Some? && c'.Some? {
      IdRoundTrip(c.value, r);
      IdRoundTrip(c'.value, r');
    }
  }

  lemma MarkReads(c: Option<Id>, r: Bytes)
    ensures match c
      case None => DecOptI64(ClockMark(c) + r) == Parsed(None, r)
      case Some(id) => DecOptI64(ClockMark(c) + r) == Parsed(Some(0), id + r)
  {
    hide EncOptI64, DecOptI64;
    match c
    case None => OptI64RoundTrip(None, r);
    case Some(id) =>
      OptI64RoundTrip(Some(0), id + r);
      Assoc(EncOptI64(Some(0)), id, r);
  }

  /** Two paths of one identity agree in name, origin and description, or two inputs with one identity are
      at hand. */
  lemma SameIdSamePath(
    sch: Scheme, name: Bytes, origin: Byte, description: Bytes, name': Bytes, origin': Byte, description': Bytes)
    returns (x: Bytes, y: Bytes)
    requires |name| < 0x1_0000_0000 && |name'| < 0x1_0000_0000
    requires |description| < 0x1_0000_0000 && |description'| < 0x1_0000_0000
    requires PathId(sch, name, origin, description) == PathId(sch, name', origin', description')
    ensures (name == name' && origin == origin' && description == description')
      || (x != y && IdOf(sch.digest(x)) == IdOf(sch.digest(y)))
  {
    hide PathTag, IdOf, EncStr;
    var r, s := [origin] + EncStr(description), [origin'] + EncStr(description');
    x, y := PathTag() + (EncStr(name) + r), PathTag() + (EncStr(name') + s);
    if x == y {
      assert EncStr(name) + r == x[|PathTag()|..] == y[|PathTag()|..] == EncStr(name') + s;
      StrRoundTrip(name, r);
      StrRoundTrip(name', s);
      assert r[1..] == EncStr(description) && s[1..] == EncStr(description');
      assert EncStr(description) + [] == EncStr(description) && EncStr(description') + [] == EncStr(description');
      StrRoundTrip(description, []);
      StrRoundTrip(description', []);
    }
  }

  /** Two conflict records with one evidence digest are about one claim, or two inputs with one digest
      are at hand. */
  lemma SameEvidenceSameClaim(sch: Scheme, c: ConflictRecord, d: ConflictRecord)
    requires SealedConflict(sch, c) && SealedConflict(sch, d) && c.identity == d.identity
    ensures c.claim == d.claim ||
      Collision(sch.digest, EvidenceTag() + EncClaim(c.claim), EvidenceTag() + EncClaim(d.claim))
  {
    hide EvidenceTag, EncClaim, Resolved, OutcomeText;
    var x, y := EvidenceTag() + EncClaim(c.claim), EvidenceTag() + EncClaim(d.claim);
    if x == y {
      assert EncClaim(c.claim) == x[|EvidenceTag()|..] == y[|EvidenceTag()|..] == EncClaim(d.claim);
      ClaimRoundTrip(c.claim, []);
      ClaimRoundTrip(d.claim, []);
    }
  }

  function ClockOrNil(c: Option<Id>): Id {
    if c.Some? then c.value else NIL_ID
  }

  function EncHop(h: Hop): Bytes {
    EncU16(h.index) + (EncStr(h.name) + (EncOptId(ClockOrNil(h.timingClock)) + ([h.origin] + EncStr(h.deviceNote))))
  }

  function DecHop(b: Bytes): Parse<Hop> {
    var (index, r) :- DecU16(b);
    var (name, r) :- DecStr(r);
    var (clock, r) :- DecOptId(r);
    var (origin, r) :- DecU8(r);
    if origin > LAST_ORIGIN then Malformed(ProtocolViolation)
    else
      var (note, r) :- DecStr(r);
      Parsed(Hop(NIL_ID, index, name, clock, origin, note), r)
  }

  predicate HopFits(h: Hop) {
    |h.name| < 0x1_0000_0000 && |h.deviceNote| < 0x1_0000_0000 && h.origin <= LAST_ORIGIN
  }

  // What a reader makes of a hop before its identity is recomputed.
  function ReadForm(h: Hop): Hop {
    h.(id := NIL_ID, timingClock := if ClockOrNil(h.timingClock) == NIL_ID then None else h.timingClock)
  }

  lemma HopReads(h: Hop, r: Bytes)
    requires HopFits(h)
    ensures DecHop(EncHop(h) + r) == Parsed(ReadForm(h), r)
  {
    hide DecU16, DecStr, DecOptId, DecU8, EncU16, EncStr, EncOptId;
    var clock := EncOptId(ClockOrNil(h.timingClock));
    var r4 := EncStr(h.deviceNote) + r;
    var r3 := [h.origin] + r4;
    var r2 := clock + r3;
    var r1 := EncStr(h.name) + r2;
    Nest5(EncU16(h.index), EncStr(h.name), clock, [h.origin], EncStr(h.deviceNote), r);
    U16RoundTrip(h.index, r1);
    StrRoundTrip(h.name, r2);
    OptIdRoundTrip(ClockOrNil(h.timingClock), r3);
    U8RoundTrip(h.origin, r4);
    StrRoundTrip(h.deviceNote, r);
  }

  function EncPath(p: PathDescriptor): Bytes {
    EncStr(p.name) + ([p.origin] + (EncStr(p.description) + (BigEndian(4, |p.hops|) + EncList(EncHop, p.hops))))
  }

  function Named(sch: Scheme, path: Id, hops: seq<Hop>): seq<Hop> {
    seq(|hops|, i requires 0 <= i < |hops| => hops[i].(id := HopId(sch, path, hops[i])))
  }

  function DecPath(sch: Scheme, b: Bytes): Parse<PathDescriptor> {
    var (name, r) :- DecStr(b);
    var (origin, r) :- DecU8(r);
    if origin > LAST_ORIGIN then Malformed(ProtocolViolation)
    else
      var (description, r) :- DecStr(r);
      var (n, r) :- DecU32(r);
      if n > MAX_HOPS then Malformed(LimitExceeded)
      else
        var (hops, r) :- DecList(DecHop, [], n, r);
        var id := PathId(sch, name, origin, description);
        Parsed(PathDescriptor(id, name, origin, description, Named(sch, id, hops)), r)
  }

  /** A path as registration leaves it. */
  predicate SealedPath(sch: Scheme, p: PathDescriptor) {
    && |p.name| < 0x1_0000_0000 && |p.description| < 0x1_0000_0000 && p.origin <= LAST_ORIGIN && |p.hops| <= MAX_HOPS
    && p.id == PathId(sch, p.name, p.origin, p.description)
    && forall i :: 0 <= i < |p.hops| ==> HopFits(p.hops[i]) && p.hops[i].id == HopId(sch, p.id, p.hops[i])
  }

  function ReadForms(hops: seq<Hop>): (s: seq<Hop>)
    ensures |s| == |hops| && forall i :: 0 <= i < |s| ==> s[i] == ReadForm(hops[i])
  {
    if hops == [] then [] else [ReadForm(hops[0])] + ReadForms(hops[1..])
  }

  lemma {:induction false} HopsRead(acc: seq<Hop>, hops: seq<Hop>, r: Bytes)
    requires forall i :: 0 <= i < |hops| ==> HopFits(hops[i])
    ensures DecList(DecHop, acc, |hops|, EncList(EncHop, hops) + r) == Parsed(acc + ReadForms(hops), r)
    decreases |hops|
  {
    hide EncHop, DecHop, ReadForm;
    if hops == [] {
      assert EncList(EncHop, hops) + r == r;
      assert acc + ReadForms(hops) == acc;
    } else {
      var rest := EncList(EncHop, hops[1..]) + r;
      Assoc(EncHop(hops[0]), EncList(EncHop, hops[1..]), r);
      HopReads(hops[0], rest);
      HopsRead(acc + [ReadForm(hops[0])], hops[1..], r);
      assert acc + [ReadForm(hops[0])] + ReadForms(hops[1..]) == acc + ReadForms(hops);
    }
  }

  lemma PathReads(sch: Scheme, p: PathDescriptor, r: Bytes)
    requires SealedPath(sch, p)
    ensures DecPath(sch, EncPath(p) + r) == Parsed(p.(hops := Named(sch, p.id, ReadForms(p.hops))), r)
  {
    hide DecStr, DecU8, DecU32, DecList, EncStr, EncList, EncHop, DecHop, PathId, HopId, ReadForms, Named;
    var list := EncList(EncHop, p.hops);
    var r4 := list + r;
    var r3 := EncU32(|p.hops|) + r4;
    var r2 := EncStr(p.description) + r3;
    var r1 := [p.origin] + r2;
    Nest5(EncStr(p.name), [p.origin], EncStr(p.description), EncU32(|p.hops|), list, r);
    StrRoundTrip(p.name, r1);
    U8RoundTrip(p.origin, r2);
    StrRoundTrip(p.description, r3);
    U32RoundTrip(|p.hops|, r4);
    HopsRead([], p.hops, r);
    assert [] + ReadForms(p.hops) == ReadForms(p.hops);
  }

  /** A path reads back exactly when no hop names a nil timing clock: the encoding of an optional
      identity writes nil as absence. */
  lemma PathRoundTripIff(sch: Scheme, p: PathDescriptor, r: Bytes)
    requires SealedPath(sch, p)
    ensures DecPath(sch, EncPath(p) + r) == Parsed(p, r) <==>
      forall i :: 0 <= i < |p.hops| ==> p.hops[i].timingClock != Some(NIL_ID)
  {
    hide DecPath, EncPath, HopId, PathId;
    PathReads(sch, p, r);
    var named := Named(sch, p.id, ReadForms(p.hops));
    forall i | 0 <= i < |p.hops|
      ensures named[i] == p.hops[i] <==> p.hops[i].timingClock != Some(NIL_ID)
    {
      if p.hops[i].timingClock != Some(NIL_ID) {
        assert ReadForm(p.hops[i]) == p.hops[i].(id := NIL_ID);
        HopIdIgnoresId(sch, p.id, p.hops[i]);
      }
    }
    if forall i :: 0 <= i < |p.hops| ==> p.hops[i].timingClock != Some(NIL_ID) {
      assert named == p.hops;
    }
  }

  lemma HopIdIgnoresId(sch: Scheme, path: Id, h: Hop)
    ensures HopId(sch, path, h.(id := NIL_ID)) == HopId(sch, path, h)
  {
  }

  method WriteHop(w: ByteWriter, h: Hop)
    modifies w
    ensures w.data == old(w.data) + EncHop(h)
  {
    hide EncU16, EncStr, EncOptId;
    w.U16(h.index);
    w.Str(h.name);
    WriteOptId(w, ClockOrNil(h.timingClock));
    w.U8(h.origin);
    w.Str(h.deviceNote);
    Chain5(old(w.data), EncU16(h.index), EncStr(h.name), EncOptId(ClockOrNil(h.timingClock)),
           [h.origin], EncStr(h.deviceNote));
  }

  method ReadHop(reader: ByteReader) returns (res: Result<Hop>)
    requires reader.Valid()
    modifies reader
    ensures reader.Reads(res, DecHop(old(reader.Rest())))
  {
    hide DecU16, DecStr, DecOptId, DecU8;
    var index :- reader.U16();
    var name :- reader.Str();
    var clock :- ReadOptId(reader);
    var origin :- reader.U8();
    if origin > LAST_ORIGIN {
      return Err(ProtocolViolation);
    }
    var note :- reader.Str();
    res := Ok(Hop(NIL_ID, index, name, clock, origin, note));
  }

  method WritePath(w: ByteWriter, p: PathDescriptor)
    modifies w
    ensures w.data == old(w.data) + EncPath(p)
  {
    hide EncStr, EncHop;
    w.Str(p.name);
    w.U8(p.origin);
    w.Str(p.description);
    w.Fixed(4, |p.hops|);
    ghost var start := w.data;
    for i := 0 to |p.hops|
      invariant start + EncList(EncHop, p.hops) == w.data + EncList(EncHop, p.hops[i..])
    {
      ghost var before := w.data;
      WriteHop(w, p.hops[i]);
      assert p.hops[i..][1..] == p.hops[i + 1..];
      Assoc(before, EncHop(p.hops[i]), EncList(EncHop, p.hops[i + 1..]));
    }
    Chain5(old(w.data), EncStr(p.name), [p.origin], EncStr(p.description),
           BigEndian(4, |p.hops|), EncList(EncHop, p.hops));
  }

  method ReadPath(sch: Scheme, reader: ByteReader) returns (res: Result<PathDescriptor>)
    requires reader.Valid()
    modifies reader
    ensures reader.Reads(res, DecPath(sch, old(reader.Rest())))
  {
    hide DecStr, DecU8, DecU32, DecHop, PathId, HopId;
    var name :- reader.Str();
    var origin :- reader.U8();
    if origin > LAST_ORIGIN {
      return Err(ProtocolViolation);
    }
    var description :- reader.Str();
    var n :- reader.U32();
    if n > MAX_HOPS {
      return Err(LimitExceeded);
    }
    ghost var start := reader.Rest();
    var hops: seq<Hop> := [];
    for i := 0 to n
      invariant reader.Valid()
      invariant DecList(DecHop, [], n, start) == DecList(DecHop, hops, n - i, reader.Rest())
    {
      var hop :- ReadHop(reader);
      hops := hops + [hop];
    }
    var id := PathId(sch, name, origin, description);
    res := Ok(PathDescriptor(id, name, origin, description, Named(sch, id, hops)));
  }
}
