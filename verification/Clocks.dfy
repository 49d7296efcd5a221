/** Checked 64-bit arithmetic (include/jitter/checked.hpp) and the clock model (src/time.cpp): which
    clock domains may be compared, and when. */
module Clocks {
  import opened Errors
  import opened CanonicalBytes
  import opened Samples

  const I64_MAX: I64 := 0x7FFF_FFFF_FFFF_FFFF
  const MAX_CLOCK_DOMAINS: nat := 128

  predicate InI64(v: int) {
    I64_MIN <= v <= I64_MAX
  }

  // checked_sub_i64: the guards are evaluated without overflowing.
  function CheckedSub(a: I64, b: I64): (r: Option<I64>)
    ensures r == if InI64(a - b) then Some(a - b) else None
  {
    if b > 0 && a < I64_MIN + b then None
    else if b < 0 && a > I64_MAX + b then None
    else Some(a - b)
  }

  /** What scale_to_nanos multiplies by, when the unit has a rate. */
  datatype TimeUnit = UnknownUnit | Nanoseconds | Microseconds | Milliseconds | Seconds | CounterTicks

  function NanosPerUnit(u: TimeUnit): Option<I64> {
    match u
    case Nanoseconds => Some(1)
    case Microseconds => Some(1_000)
    case Milliseconds => Some(1_000_000)
    case Seconds => Some(1_000_000_000)
    case _ => None
  }

  datatype Domain = Domain(id: Id, unit: TimeUnit)

  datatype Equivalence = Equivalence(
    a: Id, b: Id, maxOffsetNs: I64, authority: Byte, validUntil: Option<I64>)

  datatype ComparabilityPolicy = ComparabilityPolicy(
    minimumAuthority: Byte, maxAcceptedOffsetNs: I64, requireConvertibleUnits: bool)

  datatype ClockModel = ClockModel(policy: ComparabilityPolicy, domains: seq<Domain>, equivalences: seq<Equivalence>)

  datatype Comparability = Comparable(maxOffsetNs: I64) | Incomparable | UnknownDomain

  function FindDomain(ds: seq<Domain>, id: Id): (r: Option<Domain>)
    ensures r.Some? ==> r.value in ds && r.value.id == id
    ensures r.None? ==> forall i :: 0 <= i < |ds| ==> ds[i].id != id
  {
    if ds == [] then None else if ds[0].id == id then Some(ds[0]) else FindDomain(ds[1..], id)
  }

  predicate Names(e: Equivalence, a: Id, b: Id) {
    (e.a == a && e.b == b) || (e.a == b && e.b == a)
  }

  predicate ValidAt(e: Equivalence, now: I64) {
    e.validUntil.None? || now <= e.validUntil.value
  }

  /** The first declaration for the pair that is still valid and carries enough authority. */
  function FindEquivalence(m: ClockModel, es: seq<Equivalence>, a: Id, b: Id, now: I64): Option<Equivalence> {
    if es == [] then None
    else if Names(es[0], a, b) && ValidAt(es[0], now) && es[0].authority >= m.policy.minimumAuthority then Some(es[0])
    else FindEquivalence(m, es[1..], a, b, now)
  }

  predicate UnitsConvert(m: ClockModel, a: Domain, b: Domain) {
    m.policy.requireConvertibleUnits ==> NanosPerUnit(a.unit).Some? && NanosPerUnit(b.unit).Some?
  }

  function Compared(m: ClockModel, a: Id, b: Id, now: I64): Comparability {
    if a == NIL_ID || b == NIL_ID then UnknownDomain
    else if a == b then
      if FindDomain(m.domains, a).None? then UnknownDomain else Comparable(0)
    else
      var left := FindDomain(m.domains, a);
      var right := FindDomain(m.domains, b);
      if left.None? || right.None? then UnknownDomain
      else if !UnitsConvert(m, left.value, right.value) then Incomparable
      else
        var e := FindEquivalence(m, m.equivalences, a, b, now);
        if e.Some? then Comparable(e.value.maxOffsetNs) else Incomparable
  }

  // The declaration loop of ClockModel::assess.
  method Assess(m: ClockModel, a: Id, b: Id, now: I64) returns (c: Comparability)
    ensures c == Compared(m, a, b, now)
  {
    if a == NIL_ID || b == NIL_ID {
      return UnknownDomain;
    }
    var left := FindDomain(m.domains, a);
    if a == b {
      return if left.None? then UnknownDomain else Comparable(0);
    }
    var right := FindDomain(m.domains, b);
    if left.None? || right.None? {
      return UnknownDomain;
    }
    if m.policy.requireConvertibleUnits
      && (NanosPerUnit(left.value.unit).None? || NanosPerUnit(right.value.unit).None?)
    {
      return Incomparable;
    }
    var es := m.equivalences;
    for i := 0 to |es|
      invariant FindEquivalence(m, es, a, b, now) == FindEquivalence(m, es[i..], a, b, now)
    {
      assert es[i..][1..] == es[i + 1..];
      var e := es[i];
      if !Names(e, a, b) {
        continue;
      }
      if e.validUntil.Some? && now > e.validUntil.value {
        continue;
      }
      if e.authority < m.policy.minimumAuthority {
        continue;
      }
      return Comparable(e.maxOffsetNs);
    }
    c := Incomparable;
  }

  // ---------------------------------------------------------------------------
  // Declarations
  // ---------------------------------------------------------------------------

  /** Why declare_equivalence refuses, if it does; its justification text is not modelled. */
  function EquivalenceRefusal(m: ClockModel, e: Equivalence): Option<ErrorCode> {
    if e.a == NIL_ID || e.b == NIL_ID || e.a == e.b then Some(InvalidArgument)
    else if FindDomain(m.domains, e.a).None? || FindDomain(m.domains, e.b).None? then Some(NotFound)
    else if e.maxOffsetNs < 0 then Some(InvalidArgument)
    else if e.maxOffsetNs > m.policy.maxAcceptedOffsetNs then Some(PolicyViolation)
    else if e.authority < m.policy.minimumAuthority then Some(PolicyViolation)
    else if exists i :: 0 <= i < |m.equivalences| && Names(m.equivalences[i], e.a, e.b) then Some(Duplicate)
    else if |m.equivalences| >= MAX_CLOCK_DOMAINS then Some(CapacityExceeded)
    else None
  }

  function Declared(m: ClockModel, e: Equivalence): ClockModel {
    if EquivalenceRefusal(m, e).Some? then m else m.(equivalences := m.equivalences + [e])
  }

  /** Every pair is declared at most once. */
  ghost predicate PairsUnique(m: ClockModel) {
    forall i, j :: 0 <= i < j < |m.equivalences| ==>
      !Names(m.equivalences[i], m.equivalences[j].a, m.equivalences[j].b)
  }

  lemma DeclaringKeepsPairsUnique(m: ClockModel, e: Equivalence)
    requires PairsUnique(m)
    ensures PairsUnique(Declared(m, e))
  {
  }

  lemma {:induction false} FindIff(m: ClockModel, es: seq<Equivalence>, a: Id, b: Id, now: I64)
    ensures FindEquivalence(m, es, a, b, now).Some? <==>
      exists i :: 0 <= i < |es| && Names(es[i], a, b) && ValidAt(es[i], now)
        && es[i].authority >= m.policy.minimumAuthority
    ensures FindEquivalence(m, es, a, b, now).Some? ==>
      FindEquivalence(m, es, a, b, now).value in es && Names(FindEquivalence(m, es, a, b, now).value, a, b)
  {
    if es != [] {
      FindIff(m, es[1..], a, b, now);
      if Names(es[0], a, b) && ValidAt(es[0], now) && es[0].authority >= m.policy.minimumAuthority {
      } else {
        assert forall i :: 0 < i < |es| ==> es[i] == es[1..][i - 1];
        assert forall i :: 0 <= i < |es[1..]| ==> es[1..][i] == es[i + 1];
      }
    }
  }

  /** Comparability is symmetric in the two domains. */
  lemma {:induction false} ComparedSymmetric(m: ClockModel, a: Id, b: Id, now: I64)
    ensures Compared(m, a, b, now) == Compared(m, b, a, now)
  {
    FindSymmetric(m, m.equivalences, a, b, now);
  }

  lemma {:induction false} FindSymmetric(m: ClockModel, es: seq<Equivalence>, a: Id, b: Id, now: I64)
    ensures FindEquivalence(m, es, a, b, now) == FindEquivalence(m, es, b, a, now)
  {
    if es != [] {
      FindSymmetric(m, es[1..], a, b, now);
    }
  }

  /** Time only takes comparability away: what is comparable later was comparable before. */
  lemma ComparabilityExpires(m: ClockModel, a: Id, b: Id, t: I64, later: I64)
    requires t <= later && Compared(m, a, b, later).Comparable?
    ensures Compared(m, a, b, t).Comparable?
    ensures PairsUnique(m) ==> Compared(m, a, b, t) == Compared(m, a, b, later)
  {
    FindIff(m, m.equivalences, a, b, later);
    FindIff(m, m.equivalences, a, b, t);
    if PairsUnique(m) && a != b {
      OneDeclaration(m, a, b, t, later);
    }
  }

  lemma OneDeclaration(m: ClockModel, a: Id, b: Id, t: I64, later: I64)
    requires PairsUnique(m)
    requires FindEquivalence(m, m.equivalences, a, b, t).Some? && FindEquivalence(m, m.equivalences, a, b, later).Some?
    ensures FindEquivalence(m, m.equivalences, a, b, t) == FindEquivalence(m, m.equivalences, a, b, later)
  {
    FindIff(m, m.equivalences, a, b, t);
    FindIff(m, m.equivalences, a, b, later);
    var x := FindEquivalence(m, m.equivalences, a, b, t).value;
    var y := FindEquivalence(m, m.equivalences, a, b, later).value;
    var i :| 0 <= i < |m.equivalences| && m.equivalences[i] == x;
    var j :| 0 <= j < |m.equivalences| && m.equivalences[j] == y;
    assert Names(x, y.a, y.b) && Names(y, x.a, x.b);
  }

  predicate IsDeclared(m: ClockModel, id: Id) {
    id != NIL_ID && exists i :: 0 <= i < |m.domains| && m.domains[i].id == id
  }

  lemma {:induction false} FindsDeclared(ds: seq<Domain>, id: Id)
    ensures FindDomain(ds, id).Some? <==> exists i :: 0 <= i < |ds| && ds[i].id == id
  {
    if FindDomain(ds, id).Some? {
      var d := FindDomain(ds, id).value;
      var i :| 0 <= i < |ds| && ds[i] == d;
    }
  }

  lemma DeclaredFound(m: ClockModel, id: Id)
    ensures IsDeclared(m, id) <==> id != NIL_ID && FindDomain(m.domains, id).Some?
  {
    FindsDeclared(m.domains, id);
  }

  /** Some declaration makes the two comparable now, with this bound on their offset. */
  predicate DeclaresOffset(m: ClockModel, a: Id, b: Id, now: I64, offset: I64) {
    exists i :: 0 <= i < |m.equivalences| && Names(m.equivalences[i], a, b) && ValidAt(m.equivalences[i], now)
      && m.equivalences[i].authority >= m.policy.minimumAuthority && m.equivalences[i].maxOffsetNs == offset
  }

  /** What the verdict on two domains means: unknown where one of them is not declared; otherwise a domain
      compares with itself without offset, and with another exactly when their units convert, where
      the policy asks for that, and a declaration of theirs is valid and carries the authority. */
  lemma ComparedIff(m: ClockModel, a: Id, b: Id, now: I64)
    ensures var c := Compared(m, a, b, now);
      && (c.UnknownDomain? <==> !IsDeclared(m, a) || !IsDeclared(m, b))
      && (c.Comparable? && a == b ==> c.maxOffsetNs == 0)
      && (a == b && IsDeclared(m, a) ==> c.Comparable?)
      && (c.Comparable? && a != b ==> DeclaresOffset(m, a, b, now, c.maxOffsetNs))
    ensures IsDeclared(m, a) && IsDeclared(m, b) && a != b ==>
      (Compared(m, a, b, now).Comparable? <==>
        && UnitsConvert(m, FindDomain(m.domains, a).value, FindDomain(m.domains, b).value)
        && exists offset :: DeclaresOffset(m, a, b, now, offset))
  {
    DeclaredFound(m, a);
    DeclaredFound(m, b);
    hide IsDeclared, FindDomain;
    FindIff(m, m.equivalences, a, b, now);
    var found := FindEquivalence(m, m.equivalences, a, b, now);
    if found.Some? {
      FindSound(m, m.equivalences, a, b, now);
      assert DeclaresOffset(m, a, b, now, found.value.maxOffsetNs);
    }
  }

  lemma {:induction false} FindSound(m: ClockModel, es: seq<Equivalence>, a: Id, b: Id, now: I64)
    requires FindEquivalence(m, es, a, b, now).Some?
    ensures var e := FindEquivalence(m, es, a, b, now).value;
      exists i :: 0 <= i < |es| && es[i] == e && Names(es[i], a, b) && ValidAt(es[i], now)
        && es[i].authority >= m.policy.minimumAuthority && es[i].maxOffsetNs == e.maxOffsetNs
  {
    if !(Names(es[0], a, b) && ValidAt(es[0], now) && es[0].authority >= m.policy.minimumAuthority) {
      FindSound(m, es[1..], a, b, now);
      var j :| 0 <= j < |es[1..]| && es[1..][j] == FindEquivalence(m, es, a, b, now).value
        && Names(es[1..][j], a, b) && ValidAt(es[1..][j], now) && es[1..][j].authority >= m.policy.minimumAuthority;
      assert es[j + 1] == es[1..][j];
    }
  }

  /** Every declaration is of two different declared domains, within the offset the policy accepts and with
      the authority it asks for. */
  ghost predicate DeclarationsSound(m: ClockModel) {
    && |m.equivalences| <= MAX_CLOCK_DOMAINS
    && forall i :: 0 <= i < |m.equivalences| ==> DeclarationSound(m, m.equivalences[i])
  }

  predicate DeclarationSound(m: ClockModel, e: Equivalence) {
    && e.a != e.b && IsDeclared(m, e.a) && IsDeclared(m, e.b)
    && 0 <= e.maxOffsetNs <= m.policy.maxAcceptedOffsetNs && e.authority >= m.policy.minimumAuthority
  }

  /** A declaration is taken exactly when it is sound, the first of its pair and within the bound on their
      number, and then it makes the two domains comparable as long as it is valid. */
  lemma DeclaredIff(m: ClockModel, e: Equivalence, now: I64)
    requires DeclarationsSound(m)
    ensures DeclarationsSound(Declared(m, e))
    ensures Declared(m, e) != m <==>
      && DeclarationSound(m, e) && |m.equivalences| < MAX_CLOCK_DOMAINS
      && forall i :: 0 <= i < |m.equivalences| ==> !Names(m.equivalences[i], e.a, e.b)
    ensures Declared(m, e) != m ==>
      Compared(Declared(m, e), e.a, e.b, now) == DeclaredVerdict(m, e, now)
  {
    RefusedUnless(m, e);
    hide EquivalenceRefusal, IsDeclared, Compared;
    var after := Declared(m, e);
    if EquivalenceRefusal(m, e).None? {
      assert |after.equivalences| == |m.equivalences| + 1;
      forall i | 0 <= i < |after.equivalences|
        ensures DeclarationSound(after, after.equivalences[i])
      {
        if i < |m.equivalences| {
          assert DeclarationSound(m, m.equivalences[i]);
        }
        SameDeclared(m, after, after.equivalences[i]);
      }
      DeclaredCompares(m, e, now);
    }
  }

  /** The error a refused declaration gets names its cause. */
  lemma DeclarationRefusalNamesCause(m: ClockModel, e: Equivalence)
    requires EquivalenceRefusal(m, e).Some?
    ensures match EquivalenceRefusal(m, e).value
      case InvalidArgument => e.a == NIL_ID || e.b == NIL_ID || e.a == e.b || e.maxOffsetNs < 0
      case NotFound => !IsDeclared(m, e.a) || !IsDeclared(m, e.b)
      case PolicyViolation => e.maxOffsetNs > m.policy.maxAcceptedOffsetNs || e.authority < m.policy.minimumAuthority
      case Duplicate => exists i :: 0 <= i < |m.equivalences| && Names(m.equivalences[i], e.a, e.b)
      case CapacityExceeded => |m.equivalences| >= MAX_CLOCK_DOMAINS
      case _ => false
  {
    DeclaredFound(m, e.a);
    DeclaredFound(m, e.b);
    hide IsDeclared, FindDomain;
  }

  /** What the one declaration of a pair makes of it: comparable within its offset while it is valid and the
      units convert. */
  function DeclaredVerdict(m: ClockModel, e: Equivalence, now: I64): Comparability {
    var left, right := FindDomain(m.domains, e.a), FindDomain(m.domains, e.b);
    var stillValid := e.validUntil.None? || now <= e.validUntil.value;
    if left.Some? && right.Some? && UnitsConvert(m, left.value, right.value) && stillValid
    then Comparable(e.maxOffsetNs) else Incomparable
  }

  lemma RefusedUnless(m: ClockModel, e: Equivalence)
    ensures EquivalenceRefusal(m, e).None? <==>
      && DeclarationSound(m, e) && |m.equivalences| < MAX_CLOCK_DOMAINS
      && forall i :: 0 <= i < |m.equivalences| ==> !Names(m.equivalences[i], e.a, e.b)
  {
    DeclaredFound(m, e.a);
    DeclaredFound(m, e.b);
    hide IsDeclared, FindDomain;
  }

  lemma SameDeclared(m: ClockModel, after: ClockModel, e: Equivalence)
    requires after.domains == m.domains && after.policy == m.policy && DeclarationSound(m, e)
    ensures DeclarationSound(after, e)
  {
  }

  lemma DeclaredCompares(m: ClockModel, e: Equivalence, now: I64)
    requires DeclarationSound(m, e)
    requires forall i :: 0 <= i < |m.equivalences| ==> !Names(m.equivalences[i], e.a, e.b)
    ensures Compared(m.(equivalences := m.equivalences + [e]), e.a, e.b, now) == DeclaredVerdict(m, e, now)
  {
    DeclaredFound(m, e.a);
    DeclaredFound(m, e.b);
    hide IsDeclared, FindDomain;
    FindLast(m, m.(equivalences := m.equivalences + [e]), m.equivalences, e, now);
  }

  lemma {:induction false} FindLast(m: ClockModel, after: ClockModel, es: seq<Equivalence>, e: Equivalence, now: I64)
    requires after.policy == m.policy && e.authority >= m.policy.minimumAuthority
    requires forall i :: 0 <= i < |es| ==> !Names(es[i], e.a, e.b)
    ensures FindEquivalence(after, es + [e], e.a, e.b, now) == if ValidAt(e, now) then Some(e) else None
  {
    if es == [] {
      assert FindEquivalence(after, [], e.a, e.b, now) == None;
    } else {
      assert (es + [e])[1..] == es[1..] + [e];
      FindLast(m, after, es[1..], e, now);
    }
  }

  /** So whatever is compared, the offset reported is one the policy accepts. */
  lemma OffsetsAccepted(m: ClockModel, a: Id, b: Id, now: I64)
    requires DeclarationsSound(m) && m.policy.maxAcceptedOffsetNs >= 0 && Compared(m, a, b, now).Comparable?
    ensures 0 <= Compared(m, a, b, now).maxOffsetNs <= m.policy.maxAcceptedOffsetNs
  {
    ComparedIff(m, a, b, now);
  }

  // ---------------------------------------------------------------------------
  // Differences
  // ---------------------------------------------------------------------------

  function Scaled(ticks: I64, u: TimeUnit): Result<I64> {
    match NanosPerUnit(u)
    case None => Err(UnsupportedUnit)
    case Some(rate) => if InI64(ticks * rate) then Ok(ticks * rate) else Err(Overflow)
  }

  // Both readings scaled, then subtracted, each step checked.
  function ScaledDifference(a: I64, unitA: TimeUnit, b: I64, unitB: TimeUnit): Result<I64> {
    var x :- Scaled(a, unitA);
    var y :- Scaled(b, unitB);
    match CheckedSub(y, x)
    case Some(d) => Ok(d)
    case None => Err(Overflow)
  }

  /** b - a in nanoseconds. */
  function Difference(m: ClockModel, a: TimePoint, b: TimePoint, now: I64): Result<I64> {
    if !Compared(m, a.domain, b.domain, now).Comparable? then Err(IncomparableClocks)
    else
      var left := FindDomain(m.domains, a.domain);
      var right := FindDomain(m.domains, b.domain);
      if left.None? || right.None? then Err(NotFound)
      else ScaledDifference(a.ticks, left.value.unit, b.ticks, right.value.unit)
  }

  /** Swapping the readings negates the difference, exactly unless it is the one value whose
      negation does not fit. */
  lemma DifferenceNegates(m: ClockModel, a: TimePoint, b: TimePoint, now: I64)
    requires Difference(m, a, b, now).Ok?
    ensures Difference(m, b, a, now) ==
      if Difference(m, a, b, now).value == I64_MIN then Err(Overflow) else Ok(-Difference(m, a, b, now).value)
  {
    hide Scaled, Compared;
    ComparedSymmetric(m, a.domain, b.domain, now);
  }

  /** Differences add up along any chain of readings, as far as the sum fits. */
  lemma DifferenceAdds(m: ClockModel, a: TimePoint, b: TimePoint, c: TimePoint, now: I64)
    requires Difference(m, a, b, now).Ok? && Difference(m, b, c, now).Ok?
    requires Compared(m, a.domain, c.domain, now).Comparable?
    ensures var sum := Difference(m, a, b, now).value + Difference(m, b, c, now).value;
      Difference(m, a, c, now) == if InI64(sum) then Ok(sum) else Err(Overflow)
  {
    hide Scaled, Compared;
  }

  /** On one clock the difference is positive exactly when the second reading is the later one, and
      on a clock that counts nanoseconds it is the difference of the readings. */
  lemma LaterIsPositive(m: ClockModel, a: TimePoint, b: TimePoint, now: I64)
    requires a.domain == b.domain && Difference(m, a, b, now).Ok?
    ensures Difference(m, a, b, now).value > 0 <==> b.ticks > a.ticks
    ensures FindDomain(m.domains, a.domain).Some? && (FindDomain(m.domains, a.domain).value.unit == Nanoseconds ==>
      Difference(m, a, b, now).value == b.ticks - a.ticks)
  {
    hide Compared;
  }

  /** How many of one unit are in one of the other. */
  predicate Nests(large: TimeUnit, small: TimeUnit, factor: int) {
    || (large == Seconds && small == Milliseconds && factor == 1_000)
    || (large == Milliseconds && small == Microseconds && factor == 1_000)
    || (large == Microseconds && small == Nanoseconds && factor == 1_000)
  }

  /** Comparable clocks that count in different units agree on an instant exactly when their
      readings differ by the factor between the units. */
  lemma UnitsAgree(m: ClockModel, a: TimePoint, b: TimePoint, now: I64, factor: int)
    requires Difference(m, a, b, now).Ok?
    requires FindDomain(m.domains, a.domain).Some? && FindDomain(m.domains, b.domain).Some?
    requires Nests(FindDomain(m.domains, a.domain).value.unit, FindDomain(m.domains, b.domain).value.unit, factor)
    ensures Difference(m, a, b, now).value == 0 <==> b.ticks == factor * a.ticks
  {
    hide Compared;
  }

  /** The nanoseconds in one of this unit. */
  predicate HasRate(u: TimeUnit, rate: int) {
    (u == Nanoseconds && rate == 1) || (u == Microseconds && rate == 1_000)
    || (u == Milliseconds && rate == 1_000_000) || (u == Seconds && rate == 1_000_000_000)
  }

  function InNanoseconds(ticks: int, rate: int): int { ticks * rate }

  function UnitOf(m: ClockModel, id: Id): TimeUnit {
    var d := FindDomain(m.domains, id);
    if d.Some? then d.value.unit else UnknownUnit
  }

  /** The difference of comparable readings is that of their times in nanoseconds, exactly where both
      times and it fit 64 bits, and an overflow everywhere else. */
  lemma DifferenceExact(m: ClockModel, a: TimePoint, b: TimePoint, now: I64, rateA: int, rateB: int)
    requires Compared(m, a.domain, b.domain, now).Comparable?
    requires HasRate(UnitOf(m, a.domain), rateA) && HasRate(UnitOf(m, b.domain), rateB)
    ensures var x, y := InNanoseconds(a.ticks, rateA), InNanoseconds(b.ticks, rateB);
      Difference(m, a, b, now) == if InI64(x) && InI64(y) then Fitting(y - x) else Err(Overflow)
  {
    hide *;
    DifferenceOfUnits(m, a, b, now);
    ScaledDifferenceExact(a.ticks, UnitOf(m, a.domain), rateA, b.ticks, UnitOf(m, b.domain), rateB);
  }

  lemma DifferenceOfUnits(m: ClockModel, a: TimePoint, b: TimePoint, now: I64)
    requires Compared(m, a.domain, b.domain, now).Comparable?
    ensures Difference(m, a, b, now) ==
      ScaledDifference(a.ticks, UnitOf(m, a.domain), b.ticks, UnitOf(m, b.domain))
  {
    ComparableFound(m, a.domain, b.domain, now);
    hide Compared, FindDomain, ScaledDifference;
  }

  lemma ScaledDifferenceExact(a: I64, unitA: TimeUnit, rateA: int, b: I64, unitB: TimeUnit, rateB: int)
    requires HasRate(unitA, rateA) && HasRate(unitB, rateB)
    ensures var x, y := InNanoseconds(a, rateA), InNanoseconds(b, rateB);
      ScaledDifference(a, unitA, b, unitB) == if InI64(x) && InI64(y) then Fitting(y - x) else Err(Overflow)
  {
    ScaledExact(a, unitA, rateA);
    ScaledExact(b, unitB, rateB);
    hide Scaled, HasRate, InNanoseconds;
  }

  /** A time that fits 64 bits. */
  function Fitting(time: int): Result<I64> {
    if InI64(time) then Ok(time) else Err(Overflow)
  }

  /** A reading of comparable clocks whose unit has no rate is refused for that, the first one first. */
  lemma UnratedRefused(m: ClockModel, a: TimePoint, b: TimePoint, now: I64)
    requires Compared(m, a.domain, b.domain, now).Comparable?
    requires forall rate :: !HasRate(UnitOf(m, a.domain), rate)
    ensures Difference(m, a, b, now) == Err(UnsupportedUnit)
  {
    ComparableFound(m, a.domain, b.domain, now);
    hide Compared, FindDomain, Scaled, HasRate;
    ScaledExact(a.ticks, UnitOf(m, a.domain), 0);
  }

  lemma ComparableFound(m: ClockModel, a: Id, b: Id, now: I64)
    requires Compared(m, a, b, now).Comparable?
    ensures FindDomain(m.domains, a).Some? && FindDomain(m.domains, b).Some?
  {
  }

  lemma ScaledExact(ticks: I64, u: TimeUnit, rate: int)
    ensures var time := InNanoseconds(ticks, rate);
      HasRate(u, rate) ==> Scaled(ticks, u) == Fitting(time)
    ensures (forall r :: !HasRate(u, r)) ==> Scaled(ticks, u) == Err(UnsupportedUnit)
    ensures Scaled(ticks, u) != Err(IncomparableClocks)
  {
    assert u == Nanoseconds ==> HasRate(u, 1);
    assert u == Microseconds ==> HasRate(u, 1_000);
    assert u == Milliseconds ==> HasRate(u, 1_000_000);
    assert u == Seconds ==> HasRate(u, 1_000_000_000);
  }

  /** Readings of clocks that do not compare have no difference, and are the only ones refused for that. */
  lemma IncomparableHaveNone(m: ClockModel, a: TimePoint, b: TimePoint, now: I64)
    ensures Difference(m, a, b, now) == Err(IncomparableClocks) <==>
      !Compared(m, a.domain, b.domain, now).Comparable?
  {
    if Compared(m, a.domain, b.domain, now).Comparable? {
      ComparableFound(m, a.domain, b.domain, now);
      ScaledExact(a.ticks, UnitOf(m, a.domain), 0);
      ScaledExact(b.ticks, UnitOf(m, b.domain), 0);
      hide Compared, FindDomain, Scaled;
    }
  }
}
