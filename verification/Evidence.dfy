/** Evidence ageing (src/evidence.cpp): what one observation is worth at an instant, and what a set
    of assessments adds up to. */
module Evidence {
  import opened Errors
  import opened CanonicalBytes
  import opened Samples
  import opened Clocks

  const MIN_BUDGET_NS: I64 := 1
  const MAX_BUDGET_NS: I64 := 3_600_000_000_000

  datatype State = Fresh | Stale | Expired | Conflicting | Incomplete | Unsupported | Unknown | Missing

  datatype FreshnessPolicy = FreshnessPolicy(
    maxIngestAge: I64, expiryIngestAge: I64, maxObservationAge: I64, expiryObservationAge: I64,
    futureTolerance: I64, requireObservationAge: bool)

  // The part of validate_freshness_policy that concerns numbers.
  predicate ValidPolicy(p: FreshnessPolicy) {
    && MIN_BUDGET_NS <= p.maxIngestAge <= MAX_BUDGET_NS && p.maxIngestAge <= p.expiryIngestAge
    && MIN_BUDGET_NS <= p.maxObservationAge <= MAX_BUDGET_NS && p.maxObservationAge <= p.expiryObservationAge
    && 0 <= p.futureTolerance <= MAX_BUDGET_NS
  }

  /** The age by the source's clock, when the clocks compare and the subtraction fits. */
  function ObservationAge(s: Sample, m: ClockModel, localClock: Id, now: I64): Option<I64> {
    if Compared(m, s.observedAt.domain, localClock, now).Comparable?
    then CheckedSub(now, s.observedAt.ticks) else None
  }

  /** assess_sample: the tests in the order the code makes them. */
  function Assessed(s: Sample, m: ClockModel, localClock: Id, now: I64, p: FreshnessPolicy): State {
    var ingest := CheckedSub(now, s.receivedAt.ticks);
    var observation := ObservationAge(s, m, localClock, now);
    if ingest.None? then Unknown
    else if ingest.value > p.expiryIngestAge then Expired
    else if observation.Some? && observation.value > p.expiryObservationAge then Expired
    else if ingest.value > p.maxIngestAge then Stale
    else if observation.Some? && observation.value > p.maxObservationAge then Stale
    else if observation.Some? && observation.value + p.futureTolerance < 0 then Unknown
    else if observation.None? && Compared(m, s.observedAt.domain, localClock, now).Incomparable? then Unsupported
    else if observation.None? && p.requireObservationAge then Unknown
    else Fresh
  }

  /** When a sample is fresh, in terms of exact ages. */
  lemma FreshIff(s: Sample, m: ClockModel, localClock: Id, now: I64, p: FreshnessPolicy)
    requires ValidPolicy(p)
    ensures Assessed(s, m, localClock, now, p) == Fresh <==>
      && InI64(now - s.receivedAt.ticks) && now - s.receivedAt.ticks <= p.maxIngestAge
      && (match Compared(m, s.observedAt.domain, localClock, now)
          case Comparable(_) =>
            if InI64(now - s.observedAt.ticks)
            then -p.futureTolerance <= now - s.observedAt.ticks <= p.maxObservationAge
            else !p.requireObservationAge
          case Incomparable => false
          case UnknownDomain => !p.requireObservationAge)
  {
    hide Compared;
  }

  /** The age by the source's clock is known and exceeds the bound. */
  predicate ObservedOver(s: Sample, m: ClockModel, localClock: Id, now: I64, bound: I64) {
    && Compared(m, s.observedAt.domain, localClock, now).Comparable?
    && InI64(now - s.observedAt.ticks) && now - s.observedAt.ticks > bound
  }

  /** One of the two ages exceeds its bound. */
  predicate Over(s: Sample, m: ClockModel, localClock: Id, now: I64, ingestBound: I64, observedBound: I64) {
    now - s.receivedAt.ticks > ingestBound || ObservedOver(s, m, localClock, now, observedBound)
  }

  /** What each of the other answers means. Expired is being over an expiry, stale is being over a
      budget and no expiry, unsupported is a clock that cannot be compared where no budget is exceeded, unknown is
      an age that cannot be told or lies too far in the future, and there is no other answer. */
  lemma StatesMean(s: Sample, m: ClockModel, localClock: Id, now: I64, p: FreshnessPolicy)
    requires ValidPolicy(p)
    ensures var state := Assessed(s, m, localClock, now, p);
      var timed := InI64(now - s.receivedAt.ticks);
      var expired := Over(s, m, localClock, now, p.expiryIngestAge, p.expiryObservationAge);
      var over := Over(s, m, localClock, now, p.maxIngestAge, p.maxObservationAge);
      && (expired ==> over)
      && (state == Expired <==> timed && expired)
      && (state == Stale <==> timed && over && !expired)
      && (state == Unsupported <==>
            timed && !over && Compared(m, s.observedAt.domain, localClock, now).Incomparable?)
      && (state in {Fresh, Stale, Expired, Unsupported, Unknown})
  {
    hide Compared;
  }

  /** Age only adds up: once expired, a sample is expired at any later instant exactly as long as its
      age is in range and either the ingest age alone has expired it or the age by the source's clock can
      still be told; and once over budget it stays over budget on the same terms. Where both ages
      can still be told, expired stays expired and stale is stale or expired. */
  lemma AgeingIsOneWay(s: Sample, m: ClockModel, localClock: Id, t: I64, later: I64, p: FreshnessPolicy)
    requires ValidPolicy(p) && t <= later
    ensures var before := Assessed(s, m, localClock, t, p); var after := Assessed(s, m, localClock, later, p);
      var age, known := later - s.receivedAt.ticks, ObservationAge(s, m, localClock, later).Some?;
      && (before == Expired ==> (after == Expired <==> InI64(age) && (age > p.expiryIngestAge || known)))
      && (before == Stale ==>
            (after == Stale || after == Expired <==> InI64(age) && (age > p.maxIngestAge || known)))
  {
    hide Compared, Assessed;
    StatesMean(s, m, localClock, t, p);
    StatesMean(s, m, localClock, later, p);
  }

  /** Staleness is absorbing: under a policy that requires the observation age, with the clock model
      fixed, an observation found stale or expired is never fresh again, whether a budget ran out, a
      clock declaration expired or a subtraction left the 64-bit range. */
  lemma StaleStaysStale(s: Sample, m: ClockModel, localClock: Id, t: I64, later: I64, p: FreshnessPolicy)
    requires ValidPolicy(p) && p.requireObservationAge && t <= later
    requires Assessed(s, m, localClock, t, p).Stale? || Assessed(s, m, localClock, t, p).Expired?
    ensures Assessed(s, m, localClock, later, p) != Fresh
  {
    hide Compared, Assessed;
    FreshIff(s, m, localClock, later, p);
    StaleMeans(s, m, localClock, t, p);
    if Compared(m, s.observedAt.domain, localClock, later).Comparable? {
      ComparabilityExpires(m, s.observedAt.domain, localClock, t, later);
    }
  }

  lemma StaleMeans(s: Sample, m: ClockModel, localClock: Id, t: I64, p: FreshnessPolicy)
    requires ValidPolicy(p)
    requires Assessed(s, m, localClock, t, p).Stale? || Assessed(s, m, localClock, t, p).Expired?
    ensures t - s.receivedAt.ticks > p.maxIngestAge || t - s.observedAt.ticks > p.maxObservationAge
  {
    hide Compared;
  }

  ghost predicate Absorbing(p: FreshnessPolicy) {
    forall s: Sample, m: ClockModel, localClock: Id, t: I64, later: I64 ::
      (t <= later && (Assessed(s, m, localClock, t, p).Stale? || Assessed(s, m, localClock, t, p).Expired?))
      ==> Assessed(s, m, localClock, later, p) != Fresh
  }

  /** Among validated policies the requirement is exactly what makes staleness absorbing: without
      it, an age that grows out of the 64-bit range turns a stale observation fresh. */
  lemma AbsorbingIff(p: FreshnessPolicy)
    requires ValidPolicy(p)
    ensures Absorbing(p) <==> p.requireObservationAge
  {
    hide Assessed;
    if p.requireObservationAge {
      forall s: Sample, m: ClockModel, localClock: Id, t: I64, later: I64
        | t <= later && (Assessed(s, m, localClock, t, p).Stale? || Assessed(s, m, localClock, t, p).Expired?)
        ensures Assessed(s, m, localClock, later, p) != Fresh
      {
        StaleStaysStale(s, m, localClock, t, later, p);
      }
    } else {
      var s, m, localClock := Revived(p);
      assert Assessed(s, m, localClock, 1, p) == Fresh;
    }
  }

  lemma Revived(p: FreshnessPolicy) returns (s: Sample, m: ClockModel, localClock: Id)
    requires ValidPolicy(p) && !p.requireObservationAge
    ensures Assessed(s, m, localClock, 0, p).Stale? || Assessed(s, m, localClock, 0, p).Expired?
    ensures Assessed(s, m, localClock, 1, p) == Fresh
  {
    localClock := BigEndian(ID_BYTES, 1);
    assert localClock != NIL_ID by {
      OneIsNotNil();
    }
    m := ClockModel(ComparabilityPolicy(0, 0, true), [Domain(localClock, Nanoseconds)], []);
    s := Sample(NIL_ID, NIL_ID, NIL_ID, NIL_ID, 1, Provenance(NIL_ID, 1, 1, 1, 0, 1, []), 0,
                TimePoint(localClock, -I64_MAX), TimePoint(localClock, 0), [], [], ZERO_DIGEST);
    assert FindDomain(m.domains, localClock).Some?;
  }

  lemma LastByte(n: nat, v: nat)
    requires n > 0
    ensures BigEndian(n, v)[n - 1] == v % 256
  {
  }

  lemma OneIsNotNil()
    ensures BigEndian(ID_BYTES, 1) != NIL_ID
  {
    hide BigEndian;
    LastByte(ID_BYTES, 1);
    LastByte(ID_BYTES, 0);
  }

  /** The engine's assessment: while persisted evidence is not admitted, a restored sample counts as
      stale whatever its age says. */
  function EngineAssessed(
    s: Sample, m: ClockModel, localClock: Id, now: I64, p: FreshnessPolicy, admitPersisted: bool, restored: set<Id>
  ): State {
    if !admitPersisted && s.id in restored then Stale else Assessed(s, m, localClock, now, p)
  }

  ghost predicate WithholdsRestored(admitPersisted: bool) {
    forall s: Sample, m: ClockModel, localClock: Id, now: I64, p: FreshnessPolicy, restored: set<Id> ::
      s.id in restored ==> EngineAssessed(s, m, localClock, now, p, admitPersisted, restored) != Fresh
  }

  /** Withheld samples are kept from being fresh exactly when the configuration does not admit
      persisted evidence; what the caller of restore asked for does not enter the assessment. */
  lemma ConfigurationDecides(admitPersisted: bool)
    ensures WithholdsRestored(admitPersisted) <==> !admitPersisted
  {
    hide Assessed;
    if admitPersisted {
      var s, m, localClock, p := SomeFresh();
      assert EngineAssessed(s, m, localClock, 0, p, true, {s.id}) == Fresh;
    }
  }

  lemma SomeFresh() returns (s: Sample, m: ClockModel, localClock: Id, p: FreshnessPolicy)
    ensures Assessed(s, m, localClock, 0, p) == Fresh
  {
    localClock := BigEndian(ID_BYTES, 1);
    OneIsNotNil();
    p := FreshnessPolicy(1, 1, 1, 1, 0, true);
    m := ClockModel(ComparabilityPolicy(0, 0, true), [Domain(localClock, Nanoseconds)], []);
    s := Sample(NIL_ID, NIL_ID, NIL_ID, NIL_ID, 1, Provenance(NIL_ID, 1, 1, 1, 0, 1, []), 0,
                TimePoint(localClock, 0), TimePoint(localClock, 0), [], [], ZERO_DIGEST);
    assert FindDomain(m.domains, localClock).Some?;
  }

  // ---------------------------------------------------------------------------
  // Summaries
  // ---------------------------------------------------------------------------

  datatype Summary = Summary(
    total: nat, freshOnes: nat, stale: nat, expired: nat, conflicting: nat, incomplete: nat, unsupported: nat,
    unknown: nat, dominant: State)

  function CountOf(states: seq<State>, which: State): nat {
    if states == [] then 0
    else CountOf(states[..|states| - 1], which) + if states[|states| - 1] == which then 1 else 0
  }

  /** The states in the order in which one decides the summary. */
  predicate Outranks(a: State, b: State) {
    Rank(a) < Rank(b)
  }

  function Rank(s: State): nat {
    match s
    case Conflicting => 0
    case Fresh => 1
    case Stale => 2
    case Expired => 3
    case Unsupported => 4
    case Unknown => 5
    case Incomplete => 6
    case Missing => 7
  }

  method Summarize(states: seq<State>) returns (r: Summary)
    ensures r.total == |states|
    ensures r.freshOnes == CountOf(states, Fresh) && r.stale == CountOf(states, Stale)
    ensures r.expired == CountOf(states, Expired) && r.conflicting == CountOf(states, Conflicting)
    ensures r.incomplete == CountOf(states, Incomplete) && r.unsupported == CountOf(states, Unsupported)
    ensures r.unknown == CountOf(states, Unknown)
    ensures states == [] ==> r.dominant == Missing
    ensures states != [] && Missing !in states ==>
      r.dominant in states && forall s :: s in states ==> !Outranks(s, r.dominant)
  {
    r := Summary(|states|, 0, 0, 0, 0, 0, 0, 0, Missing);
    for i := 0 to |states|
      invariant r.total == |states|
      invariant r.freshOnes == CountOf(states[..i], Fresh) && r.stale == CountOf(states[..i], Stale)
      invariant r.expired == CountOf(states[..i], Expired) && r.conflicting == CountOf(states[..i], Conflicting)
      invariant r.incomplete == CountOf(states[..i], Incomplete) && r.unsupported == CountOf(states[..i], Unsupported)
      invariant r.unknown == CountOf(states[..i], Unknown)
    {
      assert states[..i + 1][..i] == states[..i];
      match states[i]
      case Fresh => r := r.(freshOnes := r.freshOnes + 1);
      case Stale => r := r.(stale := r.stale + 1);
      case Expired => r := r.(expired := r.expired + 1);
      case Conflicting => r := r.(conflicting := r.conflicting + 1);
      case Incomplete => r := r.(incomplete := r.incomplete + 1);
      case Unsupported => r := r.(unsupported := r.unsupported + 1);
      case Unknown => r := r.(unknown := r.unknown + 1);
      case Missing =>
    }
    assert states[..|states|] == states;
    var dominant := Dominant(r);
    CountedOnes(states);
    r := r.(dominant := dominant);
  }

  function Dominant(r: Summary): State {
    if r.total == 0 then Missing
    else if r.conflicting > 0 then Conflicting
    else if r.freshOnes > 0 then Fresh
    else if r.stale > 0 then Stale
    else if r.expired > 0 then Expired
    else if r.unsupported > 0 then Unsupported
    else if r.unknown > 0 then Unknown
    else Incomplete
  }

  lemma CountedOnes(states: seq<State>)
    ensures forall s: State :: CountOf(states, s) > 0 <==> s in states
  {
    forall s: State
      ensures CountOf(states, s) > 0 <==> s in states
    {
      CountedOne(states, s);
    }
  }

  lemma {:induction false} CountedOne(states: seq<State>, s: State)
    ensures CountOf(states, s) > 0 <==> s in states
  {
    if states != [] {
      CountedOne(states[..|states| - 1], s);
      assert states == states[..|states| - 1] + [states[|states| - 1]];
    }
  }

  /** The counters partition the assessments. */
  lemma {:induction false} CountsPartition(states: seq<State>)
    ensures |states| ==
      CountOf(states, Fresh) + CountOf(states, Stale) + CountOf(states, Expired) + CountOf(states, Conflicting)
      + CountOf(states, Incomplete) + CountOf(states, Unsupported) + CountOf(states, Unknown) + CountOf(states, Missing)
  {
    if states != [] {
      CountsPartition(states[..|states| - 1]);
    }
  }
}
