/** Threshold classification (src/classification.cpp): the rule loop, the level it chooses and the
    driver it names. Metric values are real numbers. */
module Classification {
  import opened Errors

  datatype Level =
    | Unknown | Unsupported | Missing | Insufficient | Stale | Expired | Conflicting
    | Stable | Elevated | Unstable

  predicate AssertsInstability(l: Level) {
    l.Elevated? || l.Unstable?
  }

  datatype Direction = AtLeast | AtMost

  type MetricKey = k: nat | k <= 18
  const COUNT_METRIC: MetricKey := 18
  const MAX_WATCHED_METRICS: nat := 32

  datatype Rule = Rule(metric: MetricKey, direction: Direction, elevatedAt: real, unstableAt: real)

  datatype Policy = Policy(
    rules: seq<Rule>, minFresh: nat, minTerms: nat, requireAll: bool, maxConflicts: nat, closeWindows: nat)

  /** Nothing reaches the unstable threshold without reaching the elevated one. */
  predicate Ordered(r: Rule) {
    match r.direction
    case AtLeast => r.elevatedAt <= r.unstableAt
    case AtMost => r.unstableAt <= r.elevatedAt
  }

  predicate AllOrdered(p: Policy) {
    forall i :: 0 <= i < |p.rules| ==> Ordered(p.rules[i])
  }

  // No metric is watched twice in the same direction.
  predicate WatchedOnce(p: Policy) {
    forall i, j :: 0 <= i < j < |p.rules| ==>
      p.rules[i].metric != p.rules[j].metric || p.rules[i].direction != p.rules[j].direction
  }

  // The part of validate_instability_policy that concerns numbers.
  predicate ValidPolicy(p: Policy) {
    && |p.rules| <= MAX_WATCHED_METRICS && p.minTerms > 0 && p.closeWindows > 0
    && (forall i :: 0 <= i < |p.rules| ==> p.rules[i].metric != COUNT_METRIC)
    && AllOrdered(p) && WatchedOnce(p)
  }

  datatype Evidence = Evidence(
    total: nat, freshSamples: nat, stale: nat, expired: nat, conflicting: nat, incomplete: nat, unsupported: nat,
    unknown: nat)

  datatype Reading = Reading(value: real, terms: nat)

  datatype Input = Input(policy: Policy, evidence: Evidence, metrics: map<MetricKey, Reading>, currentGeneration: bool)

  datatype Driver = Driver(metric: MetricKey, value: real, terms: nat)

  datatype Verdict = Verdict(level: Level, driver: Option<Driver>)

  datatype RuleEvaluation = RuleEvaluation(
    metric: MetricKey, value: real, present: bool, elevated: bool, unstable: bool, terms: nat)

  predicate Breaches(value: real, threshold: real, d: Direction) {
    match d
    case AtLeast => value >= threshold
    case AtMost => value <= threshold
  }

  // ---------------------------------------------------------------------------
  // What a classification should say
  // ---------------------------------------------------------------------------

  /** The level decided before any rule is looked at. */
  function Refusal(x: Input): (l: Level)
    ensures !AssertsInstability(l) && !l.Stable?
  {
    if !x.currentGeneration || x.policy.rules == [] then Unsupported
    else if x.evidence.total == 0 then Missing
    else if x.evidence.conflicting > x.policy.maxConflicts then Conflicting
    else if x.evidence.freshSamples == 0 then
      if x.evidence.stale == 0 && x.evidence.unknown == 0 && x.evidence.unsupported == 0
        && x.evidence.incomplete == 0 && x.evidence.expired > 0
      then Expired else Stale
    else if x.evidence.freshSamples < x.policy.minFresh then Insufficient
    else Unknown
  }

  predicate Refused(x: Input) {
    !Refusal(x).Unknown?
  }

  predicate Evaluable(x: Input, r: Rule) {
    r.metric in x.metrics && x.metrics[r.metric].terms >= x.policy.minTerms
  }

  /** Rule r has a usable value that breaches its threshold. */
  predicate Breached(x: Input, r: Rule, unstable: bool) {
    Evaluable(x, r) && Breaches(x.metrics[r.metric].value, if unstable then r.unstableAt else r.elevatedAt, r.direction)
  }

  /** The policy as a whole is breached: by every rule, or by some rule, as it asks. */
  ghost predicate Raised(x: Input, unstable: bool) {
    if x.policy.requireAll
    then forall i :: 0 <= i < |x.policy.rules| ==> Breached(x, x.policy.rules[i], unstable)
    else exists i :: 0 <= i < |x.policy.rules| && Breached(x, x.policy.rules[i], unstable)
  }

  ghost predicate NothingEvaluable(x: Input) {
    forall i :: 0 <= i < |x.policy.rules| ==> !Evaluable(x, x.policy.rules[i])
  }

  ghost function LevelOf(x: Input): Level {
    if Refused(x) then Refusal(x)
    else if NothingEvaluable(x) then Insufficient
    else if Raised(x, true) then Unstable
    else if Raised(x, false) then Elevated
    else Stable
  }

  function DriverOf(x: Input, r: Rule): Driver
    requires Evaluable(x, r)
  {
    Driver(r.metric, x.metrics[r.metric].value, x.metrics[r.metric].terms)
  }

  /** The driver is the first rule, in policy order, that breaches the threshold of the level. */
  ghost predicate FirstDriver(x: Input, unstable: bool, d: Option<Driver>) {
    match d
    case None => forall i :: 0 <= i < |x.policy.rules| ==> !Breached(x, x.policy.rules[i], unstable)
    case Some(driver) => exists i :: (
      && 0 <= i < |x.policy.rules|
      && Breached(x, x.policy.rules[i], unstable) && driver == DriverOf(x, x.policy.rules[i])
      && forall j :: 0 <= j < i ==> !Breached(x, x.policy.rules[j], unstable))
  }

  /** Some rule watching the driver's metric is breached, at the threshold of the level. */
  ghost predicate Meets(rules: seq<Rule>, d: Driver, unstable: bool) {
    exists i :: 0 <= i < |rules| && rules[i].metric == d.metric
      && Breaches(d.value, if unstable then rules[i].unstableAt else rules[i].elevatedAt, rules[i].direction)
  }

  /** v is the verdict on x. */
  ghost predicate Classifies(x: Input, v: Verdict) {
    && v.level == LevelOf(x)
    && (Refused(x) || NothingEvaluable(x) ==> v.driver == None)
    && (!Refused(x) && !NothingEvaluable(x) ==> FirstDriver(x, v.level.Unstable?, v.driver))
  }

  // ---------------------------------------------------------------------------
  // classify
  // ---------------------------------------------------------------------------

  function Evaluation(x: Input, r: Rule): RuleEvaluation {
    if r.metric !in x.metrics then RuleEvaluation(r.metric, 0.0, false, false, false, 0)
    else
      var m := x.metrics[r.metric];
      RuleEvaluation(r.metric, m.value, m.terms >= x.policy.minTerms,
                     Breached(x, r, false), Breached(x, r, true), m.terms)
  }

  datatype Flags = Flags(
    anyUnstable: bool, anyElevated: bool, allUnstable: bool, allElevated: bool, anyEvaluable: bool)

  ghost predicate SomeBreached(x: Input, n: nat, unstable: bool)
    requires n <= |x.policy.rules|
  {
    exists j :: 0 <= j < n && Breached(x, x.policy.rules[j], unstable)
  }

  ghost predicate AllBreached(x: Input, n: nat, unstable: bool)
    requires n <= |x.policy.rules|
  {
    forall j :: 0 <= j < n ==> Breached(x, x.policy.rules[j], unstable)
  }

  ghost predicate FlagsOf(x: Input, n: nat, f: Flags)
    requires n <= |x.policy.rules|
  {
    && f.anyUnstable == SomeBreached(x, n, true) && f.anyElevated == SomeBreached(x, n, false)
    && f.allUnstable == AllBreached(x, n, true) && f.allElevated == AllBreached(x, n, false)
    && (f.anyEvaluable <==> exists j :: 0 <= j < n && Evaluable(x, x.policy.rules[j]))
  }

  lemma FlagsGrow(x: Input, n: nat, f: Flags)
    requires n < |x.policy.rules| && FlagsOf(x, n, f)
    ensures var r := x.policy.rules[n];
      FlagsOf(x, n + 1, Flags(
        f.anyUnstable || Breached(x, r, true), f.anyElevated || Breached(x, r, false),
        f.allUnstable && Breached(x, r, true), f.allElevated && Breached(x, r, false),
        f.anyEvaluable || Evaluable(x, r)))
  {
    hide Evaluable, Breached;
  }

  lemma FlagsRaise(x: Input, f: Flags)
    requires FlagsOf(x, |x.policy.rules|, f)
    ensures f.anyEvaluable <==> !NothingEvaluable(x)
    ensures Raised(x, true) <==> if x.policy.requireAll then f.allUnstable else f.anyUnstable
    ensures Raised(x, false) <==> if x.policy.requireAll then f.allElevated else f.anyElevated
  {
    hide Evaluable, Breached;
  }

  // The rule loop.
  method EvaluateRules(x: Input) returns (f: Flags, evaluations: seq<RuleEvaluation>)
    ensures FlagsOf(x, |x.policy.rules|, f)
    ensures |evaluations| == |x.policy.rules|
    ensures forall j :: 0 <= j < |evaluations| ==> evaluations[j] == Evaluation(x, x.policy.rules[j])
  {
    hide FlagsOf, Breaches;
    f := Flags(false, false, true, true, false);
    evaluations := [];
    assert FlagsOf(x, 0, f) by {
      NoRules(x);
    }
    for i := 0 to |x.policy.rules|
      invariant FlagsOf(x, i, f)
      invariant |evaluations| == i
      invariant forall j :: 0 <= j < i ==> evaluations[j] == Evaluation(x, x.policy.rules[j])
    {
      FlagsGrow(x, i, f);
      var rule := x.policy.rules[i];
      if rule.metric !in x.metrics {
        evaluations := evaluations + [RuleEvaluation(rule.metric, 0.0, false, false, false, 0)];
        f := f.(allUnstable := false, allElevated := false);
        continue;
      }
      var m := x.metrics[rule.metric];
      if m.terms < x.policy.minTerms {
        evaluations := evaluations + [RuleEvaluation(rule.metric, m.value, false, false, false, m.terms)];
        f := f.(allUnstable := false, allElevated := false);
        continue;
      }
      var elevated := Breaches(m.value, rule.elevatedAt, rule.direction);
      var unstable := Breaches(m.value, rule.unstableAt, rule.direction);
      f := Flags(f.anyUnstable || unstable, f.anyElevated || elevated,
                 f.allUnstable && unstable, f.allElevated && elevated, true);
      evaluations := evaluations + [RuleEvaluation(rule.metric, m.value, true, elevated, unstable, m.terms)];
    }
  }

  lemma NoRules(x: Input)
    ensures FlagsOf(x, 0, Flags(false, false, true, true, false))
  {
  }

  method Classify(x: Input) returns (c: Verdict)
    ensures Classifies(x, c)
  {
    hide FlagsOf, FirstDriver, Raised, NothingEvaluable;
    if Refused(x) {
      return Verdict(Refusal(x), None);
    }
    var flags, evaluations := EvaluateRules(x);
    FlagsRaise(x, flags);
    if !flags.anyEvaluable {
      return Verdict(Insufficient, None);
    }
    var isUnstable := if x.policy.requireAll then flags.allUnstable else flags.anyUnstable;
    var isElevated := if x.policy.requireAll then flags.allElevated else flags.anyElevated;
    var level := if isUnstable then Unstable else if isElevated then Elevated else Stable;
    var driver := FindDriver(x, evaluations, level.Unstable?);
    c := Verdict(level, driver);
  }

  /** Asserting instability always names a driver, and it breaches a threshold of that level. */
  lemma AssertionNamesDriver(x: Input, v: Verdict)
    requires Classifies(x, v) && AssertsInstability(v.level)
    ensures !Refused(x) && x.policy.rules != [] && Raised(x, v.level.Unstable?)
    ensures v.driver.Some? && Meets(x.policy.rules, v.driver.value, v.level.Unstable?)
  {
    hide FirstDriver, Raised, NothingEvaluable, Meets;
    RaisedNamesDriver(x, v.level.Unstable?, v.driver);
  }

  lemma RaisedNamesDriver(x: Input, unstable: bool, d: Option<Driver>)
    requires x.policy.rules != [] && Raised(x, unstable) && FirstDriver(x, unstable, d)
    ensures d.Some? && Meets(x.policy.rules, d.value, unstable)
  {
    hide Breaches;
    assert exists i :: 0 <= i < |x.policy.rules| && Breached(x, x.policy.rules[i], unstable) by {
      assert x.policy.requireAll ==> Breached(x, x.policy.rules[0], unstable);
    }
  }

  // The driver loop: the first evaluation that breaches, in policy order.
  method FindDriver(x: Input, evaluations: seq<RuleEvaluation>, wantUnstable: bool) returns (d: Option<Driver>)
    requires |evaluations| == |x.policy.rules|
    requires forall i :: 0 <= i < |evaluations| ==> evaluations[i] == Evaluation(x, x.policy.rules[i])
    ensures FirstDriver(x, wantUnstable, d)
  {
    d := None;
    for i := 0 to |evaluations|
      invariant d == None
      invariant forall j :: 0 <= j < i ==> !Breached(x, x.policy.rules[j], wantUnstable)
    {
      var e := evaluations[i];
      if !e.present {
        continue;
      }
      if wantUnstable && e.unstable {
        return Some(Driver(e.metric, e.value, e.terms));
      }
      if !wantUnstable && e.elevated {
        return Some(Driver(e.metric, e.value, e.terms));
      }
    }
  }

  // ---------------------------------------------------------------------------
  // What validation buys
  // ---------------------------------------------------------------------------

  /** Every window the policy finds unstable it also finds elevated. */
  ghost predicate LevelsNest(p: Policy) {
    forall x: Input :: x.policy == p && Raised(x, true) ==> Raised(x, false)
  }

  predicate Opposed(a: Rule, b: Rule) {
    a.metric == b.metric && a.direction.AtLeast? && b.direction.AtMost?
  }

  /** Between them, two opposite rules on the metric of r call every value elevated. */
  ghost predicate Bridged(p: Policy, r: Rule) {
    exists i, j :: 0 <= i < |p.rules| && 0 <= j < |p.rules| && Opposed(p.rules[i], p.rules[j])
      && p.rules[i].metric == r.metric && p.rules[i].elevatedAt <= p.rules[j].elevatedAt
  }

  /** No two opposite rules on one metric have unstable thresholds that no value meets both. */
  ghost predicate Satisfiable(p: Policy) {
    forall i, j :: 0 <= i < |p.rules| && 0 <= j < |p.rules| && Opposed(p.rules[i], p.rules[j]) ==>
      p.rules[i].unstableAt <= p.rules[j].unstableAt
  }

  /** What a policy must be checked for, given that it watches no metric twice in one direction. */
  ghost predicate Nested(p: Policy) {
    if p.requireAll then AllOrdered(p) || !Satisfiable(p)
    else forall i :: 0 <= i < |p.rules| ==> Ordered(p.rules[i]) || Bridged(p, p.rules[i])
  }

  /** A window with these readings, all of them usable and fresh. */
  function Window(p: Policy, values: map<MetricKey, real>): Input {
    Input(p, Evidence(1, if p.minFresh == 0 then 1 else p.minFresh, 0, 0, 0, 0, 0, 0),
          map k | k in values :: Reading(values[k], p.minTerms), true)
  }

  lemma WindowBreaches(p: Policy, values: map<MetricKey, real>, r: Rule, unstable: bool)
    ensures !Refused(Window(p, values)) || p.rules == []
    ensures Evaluable(Window(p, values), r) <==> r.metric in values
    ensures Breached(Window(p, values), r, unstable) <==>
      r.metric in values && Breaches(values[r.metric], if unstable then r.unstableAt else r.elevatedAt, r.direction)
  {
  }

  /** Ordered thresholds are what makes an unstable window an elevated one. Where a policy is
      raised by any rule, a rule the wrong way round does harm exactly unless opposite rules on its
      metric call every value elevated; where all rules must agree, exactly unless the policy can
      never be unstable at all. */
  lemma LevelsNestIff(p: Policy)
    requires WatchedOnce(p)
    ensures LevelsNest(p) <==> Nested(p)
  {
    hide Raised;
    if Nested(p) {
      forall x: Input | x.policy == p && Raised(x, true)
        ensures Raised(x, false)
      {
        NestedSuffices(x);
      }
    } else {
      if p.requireAll {
        var x := AllUnstable(p);
      } else {
        var x := InTheGap(p);
      }
    }
  }

  /** When every metric is watched once, that is: exactly when all thresholds are ordered. */
  lemma LevelsNestWhenDistinct(p: Policy)
    requires forall i, j :: 0 <= i < j < |p.rules| ==> p.rules[i].metric != p.rules[j].metric
    ensures LevelsNest(p) <==> AllOrdered(p)
  {
    hide LevelsNest, Ordered;
    LevelsNestIff(p);
  }

  /** So a validated policy finds every unstable window elevated. */
  lemma UnstableIsElevated(x: Input)
    requires ValidPolicy(x.policy) && Raised(x, true)
    ensures Raised(x, false)
  {
    hide Raised, Ordered;
    NestedSuffices(x);
  }

  lemma NestedSuffices(x: Input)
    requires Nested(x.policy) && Raised(x, true)
    ensures Raised(x, false)
  {
    var rules := x.policy.rules;
    if x.policy.requireAll {
      RaisedIsSatisfiable(x);
      OrderedBreach(x);
    } else {
      var m :| 0 <= m < |rules| && Breached(x, rules[m], true);
      if Ordered(rules[m]) {
        assert Breached(x, rules[m], false);
      } else {
        var i, j :| 0 <= i < |rules| && 0 <= j < |rules| && Opposed(rules[i], rules[j])
          && rules[i].metric == rules[m].metric && rules[i].elevatedAt <= rules[j].elevatedAt;
        assert Breached(x, rules[i], false) || Breached(x, rules[j], false);
      }
    }
  }

  lemma RaisedIsSatisfiable(x: Input)
    requires x.policy.requireAll && Raised(x, true)
    ensures Satisfiable(x.policy)
  {
    var rules := x.policy.rules;
    forall i, j | 0 <= i < |rules| && 0 <= j < |rules| && Opposed(rules[i], rules[j])
      ensures rules[i].unstableAt <= rules[j].unstableAt
    {
      assert Breached(x, rules[i], true) && Breached(x, rules[j], true);
    }
  }

  lemma OrderedBreach(x: Input)
    requires AllOrdered(x.policy)
    ensures forall i :: 0 <= i < |x.policy.rules| && Breached(x, x.policy.rules[i], true) ==>
      Breached(x, x.policy.rules[i], false)
  {
  }

  /** A value the rule calls unstable but neither it nor an opposite rule calls elevated. */
  lemma InTheGap(p: Policy) returns (x: Input)
    requires WatchedOnce(p) && !p.requireAll && !Nested(p)
    ensures x.policy == p && Raised(x, true) && !Raised(x, false)
  {
    var m :| 0 <= m < |p.rules| && !Ordered(p.rules[m]) && !Bridged(p, p.rules[m]);
    var r := p.rules[m];
    var v := GapValue(p, m);
    x := Window(p, map[r.metric := v]);
    WindowBreaches(p, map[r.metric := v], r, true);
    forall i | 0 <= i < |p.rules|
      ensures !Breached(x, p.rules[i], false)
    {
      WindowBreaches(p, map[r.metric := v], p.rules[i], false);
    }
  }

  lemma GapValue(p: Policy, m: nat) returns (v: real)
    requires WatchedOnce(p) && m < |p.rules| && !Ordered(p.rules[m]) && !Bridged(p, p.rules[m])
    ensures Breaches(v, p.rules[m].unstableAt, p.rules[m].direction)
    ensures forall i :: 0 <= i < |p.rules| && p.rules[i].metric == p.rules[m].metric ==>
      !Breaches(v, p.rules[i].elevatedAt, p.rules[i].direction)
  {
    var r := p.rules[m];
    if o: nat :| o < |p.rules| && p.rules[o].metric == r.metric && p.rules[o].direction != r.direction {
      var other := p.rules[o];
      var near := if r.direction.AtLeast? == (other.elevatedAt > r.unstableAt) then other.elevatedAt else r.unstableAt;
      assert Opposed(r, other) || Opposed(other, r);
      v := (near + r.elevatedAt) / 2.0;
    } else {
      v := r.unstableAt;
    }
    forall i | 0 <= i < |p.rules| && p.rules[i].metric == r.metric
      ensures !Breaches(v, p.rules[i].elevatedAt, p.rules[i].direction)
    {
      assert i == m || p.rules[i].direction != r.direction;
    }
  }

  ghost predicate Watches(p: Policy, k: MetricKey, d: Direction, i: int) {
    0 <= i < |p.rules| && p.rules[i].metric == k && p.rules[i].direction == d
  }

  /** A value for each metric that meets the unstable threshold of every rule watching it. */
  ghost function Worst(p: Policy, k: MetricKey): real {
    if exists i :: Watches(p, k, AtLeast, i) then
      var i :| Watches(p, k, AtLeast, i); p.rules[i].unstableAt
    else if exists i :: Watches(p, k, AtMost, i) then
      var i :| Watches(p, k, AtMost, i); p.rules[i].unstableAt
    else 0.0
  }

  ghost function WorstValues(p: Policy): map<MetricKey, real> {
    map k: MetricKey | 0 <= k <= 18 :: Worst(p, k)
  }

  lemma WorstBreaches(p: Policy, i: nat)
    requires WatchedOnce(p) && Satisfiable(p) && i < |p.rules|
    ensures var r := p.rules[i]; Breaches(Worst(p, r.metric), r.unstableAt, r.direction)
  {
    var r := p.rules[i];
    assert Watches(p, r.metric, r.direction, i);
    assert forall j :: Watches(p, r.metric, r.direction, j) ==> j == i;
    forall j | Watches(p, r.metric, AtLeast, j) && r.direction.AtMost?
      ensures p.rules[j].unstableAt <= r.unstableAt
    {
      assert Opposed(p.rules[j], r);
    }
  }

  /** Every metric at its worst, except that of rule m, which has value v. */
  ghost function WorstExcept(p: Policy, m: nat, v: real): Input
    requires m < |p.rules|
  {
    Window(p, WorstValues(p)[p.rules[m].metric := v])
  }

  lemma WorstExceptBreaches(p: Policy, m: nat, v: real, i: nat)
    requires WatchedOnce(p) && Satisfiable(p) && m < |p.rules| && i < |p.rules|
    ensures var r := p.rules[i];
      if r.metric == p.rules[m].metric
      then forall unstable :: Breached(WorstExcept(p, m, v), r, unstable) <==>
        Breaches(v, if unstable then r.unstableAt else r.elevatedAt, r.direction)
      else Breached(WorstExcept(p, m, v), r, true)
  {
    hide Worst;
    var values := WorstValues(p)[p.rules[m].metric := v];
    WindowBreaches(p, values, p.rules[i], true);
    WindowBreaches(p, values, p.rules[i], false);
    WorstBreaches(p, i);
  }

  lemma AllUnstable(p: Policy) returns (x: Input)
    requires WatchedOnce(p) && p.requireAll && !Nested(p)
    ensures x.policy == p && Raised(x, true) && !Raised(x, false)
  {
    var m: nat :| m < |p.rules| && !Ordered(p.rules[m]);
    x := WorstExcept(p, m, p.rules[m].unstableAt);
    hide WorstExcept;
    forall i: nat | i < |p.rules|
      ensures Breached(x, p.rules[i], true)
    {
      WorstExceptBreaches(p, m, p.rules[m].unstableAt, i);
      assert Opposed(p.rules[m], p.rules[i]) || Opposed(p.rules[i], p.rules[m]) || i == m
        || p.rules[i].metric != p.rules[m].metric;
    }
    WorstExceptBreaches(p, m, p.rules[m].unstableAt, m);
    assert !Breached(x, p.rules[m], false);
  }

  lemma MeetsElevated(p: Policy, d: Driver, unstable: bool)
    requires ValidPolicy(p) && Meets(p.rules, d, unstable)
    ensures Meets(p.rules, d, false)
  {
    var i :| 0 <= i < |p.rules| && p.rules[i].metric == d.metric
      && Breaches(d.value, if unstable then p.rules[i].unstableAt else p.rules[i].elevatedAt, p.rules[i].direction);
    assert Ordered(p.rules[i]);
    assert Breaches(d.value, p.rules[i].elevatedAt, p.rules[i].direction);
  }

  /** Without validation it fails: thresholds the wrong way round make a window unstable while it
      is not even elevated. */
  lemma ValidationNeeded()
    ensures exists x: Input :: LevelOf(x).Unstable? && !Raised(x, false)
  {
    var rule := Rule(0, AtLeast, 10.0, 1.0);
    var x := Input(Policy([rule], 1, 1, false, 0, 2), Evidence(1, 1, 0, 0, 0, 0, 0, 0),
                   map[0 := Reading(5.0, 1)], true);
    assert x.policy.rules[0] == rule;
    assert Evaluable(x, rule) && Breached(x, x.policy.rules[0], true) && !Breached(x, rule, false);
    assert LevelOf(x).Unstable? && !Raised(x, false);
  }
}
