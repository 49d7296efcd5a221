/** The driver an episode names (src/episode.cpp) against the thresholds of the policy whose
    classifications it follows (src/classification.cpp). */
module EpisodeDrivers {
  import opened Errors
  import opened CanonicalBytes
  import opened Classification
  import opened Episodes

  /** The observations are the classifications of these inputs under one policy. */
  ghost predicate Tied(p: Policy, cs: seq<Seen>, xs: seq<Input>) {
    |xs| == |cs| && forall i :: 0 <= i < |cs| ==> TiedTo(p, cs[i], xs[i])
  }

  ghost predicate TiedTo(p: Policy, c: Seen, x: Input) {
    && x.policy == p && c.what.current == x.currentGeneration && c.what.closeWindows == p.closeWindows
    && Classifies(x, c.what.verdict)
  }

  function DriverOfEpisode(e: Episode): Driver {
    Driver(e.driver, e.peakValue, 0)
  }

  /** The driver in force, at its peak, breaches a threshold of the peak level. */
  ghost predicate DriverMeets(p: Policy, e: Episode) {
    Meets(p.rules, DriverOfEpisode(e), e.peakLevel.Unstable?)
  }

  // ---------------------------------------------------------------------------
  // One classification
  // ---------------------------------------------------------------------------

  /** What an asserting verdict's driver is: a usable reading that breaches the threshold of the
      level, that of the first rule where all rules must agree. */
  lemma DriverReading(x: Input, v: Verdict) returns (i: nat)
    requires Classifies(x, v) && AssertsInstability(v.level)
    ensures v.driver.Some? && i < |x.policy.rules| && Breached(x, x.policy.rules[i], v.level.Unstable?)
    ensures v.driver.value == DriverOf(x, x.policy.rules[i])
    ensures x.policy.requireAll ==>
      i == 0 && forall q :: 0 <= q < |x.policy.rules| ==> Breached(x, x.policy.rules[q], v.level.Unstable?)
  {
    hide Breaches, Meets, NothingEvaluable, Refused;
    AssertionNamesDriver(x, v);
    assert x.policy.requireAll ==> Breached(x, x.policy.rules[0], v.level.Unstable?);
    i :| 0 <= i < |x.policy.rules|
      && Breached(x, x.policy.rules[i], v.level.Unstable?) && v.driver.value == DriverOf(x, x.policy.rules[i])
      && forall j :: 0 <= j < i ==> !Breached(x, x.policy.rules[j], v.level.Unstable?);
  }

  lemma ThresholdsDisregardTerms(rules: seq<Rule>, d: Driver, unstable: bool, terms: nat)
    ensures Meets(rules, d, unstable) <==> Meets(rules, d.(terms := terms), unstable)
  {
    if Meets(rules, d, unstable) || Meets(rules, d.(terms := terms), unstable) {
      var i :| 0 <= i < |rules| && rules[i].metric == d.metric
        && Breaches(d.value, if unstable then rules[i].unstableAt else rules[i].elevatedAt, rules[i].direction);
    }
  }

  /** Where one rule is enough, a driver meets an unstable threshold exactly when the level was
      unstable. */
  lemma AnyRuleDriver(x: Input, v: Verdict)
    requires Classifies(x, v) && AssertsInstability(v.level) && !x.policy.requireAll
    ensures v.driver.Some? && (Meets(x.policy.rules, v.driver.value, true) <==> v.level.Unstable?)
  {
    hide Refused, NothingEvaluable, FirstDriver;
    var i := DriverReading(x, v);
    AssertionNamesDriver(x, v);
    if Meets(x.policy.rules, v.driver.value, true) {
      var q :| 0 <= q < |x.policy.rules| && x.policy.rules[q].metric == v.driver.value.metric
        && Breaches(v.driver.value.value, x.policy.rules[q].unstableAt, x.policy.rules[q].direction);
      assert Breached(x, x.policy.rules[q], true);
    }
  }

  /** Where all rules must agree, an unstable level puts the driver's value past the unstable
      threshold of every rule on the first rule's metric. */
  lemma AllRulesDriver(x: Input, v: Verdict, q: nat)
    requires Classifies(x, v) && AssertsInstability(v.level) && x.policy.requireAll
    requires q < |x.policy.rules| && x.policy.rules[q].metric == x.policy.rules[0].metric
    ensures v.driver.Some? && v.driver.value.metric == x.policy.rules[0].metric
    ensures v.level.Unstable? ==>
      Breaches(v.driver.value.value, x.policy.rules[q].unstableAt, x.policy.rules[q].direction)
  {
    hide Refused, NothingEvaluable, FirstDriver, LevelOf;
    var i := DriverReading(x, v);
    assert Breached(x, x.policy.rules[q], v.level.Unstable?);
  }

  // ---------------------------------------------------------------------------
  // One run
  // ---------------------------------------------------------------------------

  /** The episode was opened by observation j, and observation m was the first to reach its peak. */
  ghost predicate Story(n: Naming, cs: seq<Seen>, j: nat, m: nat, e: Episode) {
    && OpenSince(n, cs, j, e) && PeakSince(cs, j, e) && SlotAfter(n, cs[..j]) == None
    && j <= m < |cs| && FirstPeak(cs, j, m, e.peakValue, e.driver)
  }

  lemma Told(n: Naming, p: Policy, es: seq<KeyEvent>, xs: seq<Input>) returns (j: nat, m: nat)
    requires p.closeWindows >= 1 && Tied(p, SinceRetired(es), xs) && SlotOf(n, es).Some?
    ensures Story(n, SinceRetired(es), j, m, SlotOf(n, es).value)
  {
    hide SlotOf, SlotAfter, SinceRetired, OpenSince, PeakLevel, FirstPeak, Classifies;
    j := EpisodeMeaning(n, es, p.closeWindows);
    var cs, e := SinceRetired(es), SlotOf(n, es).value;
    m :| j <= m < |cs| && FirstPeak(cs, j, m, e.peakValue, e.driver);
  }

  /** An episode opens with a driver meeting the threshold of the level it opens at, and its driver
      in force always breaches an elevated threshold. */
  lemma DriversMeetThresholds(n: Naming, p: Policy, es: seq<KeyEvent>, xs: seq<Input>) returns (j: nat, m: nat)
    requires ValidPolicy(p) && Tied(p, SinceRetired(es), xs) && SlotOf(n, es).Some?
    ensures var e := SlotOf(n, es).value; var cs := SinceRetired(es);
      && Story(n, cs, j, m, e)
      && Meets(p.rules, Driver(DriverKey(cs[j].what), e.openingValue, 0), cs[j].what.verdict.level.Unstable?)
      && Meets(p.rules, DriverOfEpisode(e), false)
  {
    hide Meets, SlotOf, SlotAfter, SinceRetired, Classifies, PeakSince, AllOrdered, WatchedOnce;
    j, m := Told(n, p, es, xs);
    var cs := SinceRetired(es);
    assert TiedTo(p, cs[j], xs[j]) && TiedTo(p, cs[m], xs[m]);
    AssertionNamesDriver(xs[j], cs[j].what.verdict);
    ThresholdsDisregardTerms(p.rules, cs[j].what.verdict.driver.value, cs[j].what.verdict.level.Unstable?, 0);
    AssertionNamesDriver(xs[m], cs[m].what.verdict);
    var d := cs[m].what.verdict.driver.value;
    MeetsElevated(p, d, cs[m].what.verdict.level.Unstable?);
    ThresholdsDisregardTerms(p.rules, d, false, 0);
  }

  /** Some rule on the metric of the first one calls large values unstable. */
  ghost predicate PeaksUpwards(p: Policy) {
    exists i :: 0 <= i < |p.rules| && p.rules[i].metric == p.rules[0].metric && p.rules[i].direction.AtLeast?
  }

  /** No breach since observation j rose above the unstable threshold of the first rule. */
  ghost predicate StaysUnder(p: Policy, cs: seq<Seen>, j: nat)
    requires p.rules != []
  {
    forall i :: j <= i < |cs| && Asserts(cs[i].what) ==> DriverValue(cs[i].what) <= p.rules[0].unstableAt
  }

  /** When the driver in force breaches a threshold of the peak level. Where one rule is enough:
      exactly when that level is elevated or the observation that first reached the peak was itself
      unstable. */
  lemma AnyRuleDriverMeetsIff(n: Naming, p: Policy, es: seq<KeyEvent>, xs: seq<Input>) returns (j: nat, m: nat)
    requires ValidPolicy(p) && !p.requireAll && Tied(p, SinceRetired(es), xs) && SlotOf(n, es).Some?
    ensures var e := SlotOf(n, es).value; var cs := SinceRetired(es);
      && Story(n, cs, j, m, e)
      && (DriverMeets(p, e) <==> e.peakLevel.Elevated? || cs[m].what.verdict.level.Unstable?)
  {
    hide Meets, SlotOf, SlotAfter, SinceRetired, ValidPolicy, Classifies, OpenSince;
    j, m := DriversMeetThresholds(n, p, es, xs);
    var cs := SinceRetired(es);
    assert TiedTo(p, cs[m], xs[m]);
    AnyRuleDriver(xs[m], cs[m].what.verdict);
    ThresholdsDisregardTerms(p.rules, cs[m].what.verdict.driver.value, true, 0);
  }

  /** Where all rules must agree the driver is always the metric of the first rule, and it breaches
      a threshold of the peak level exactly when that level is elevated, or a rule on that metric
      looks for large values, or no breach since the opening rose above the first rule's unstable
      threshold. */
  lemma AllRulesDriverMeetsIff(n: Naming, p: Policy, es: seq<KeyEvent>, xs: seq<Input>) returns (j: nat, m: nat)
    requires ValidPolicy(p) && p.requireAll && Tied(p, SinceRetired(es), xs) && SlotOf(n, es).Some?
    ensures var e := SlotOf(n, es).value; var cs := SinceRetired(es);
      && Story(n, cs, j, m, e)
      && p.rules != [] && e.driver == p.rules[0].metric
      && (DriverMeets(p, e) <==> e.peakLevel.Elevated? || PeaksUpwards(p) || StaysUnder(p, cs, j))
  {
    hide Meets, SlotOf, SlotAfter, SinceRetired, Classifies, OpenSince, PeaksUpwards, FirstPeak, AllOrdered, StaysUnder;
    j, m := DriversMeetThresholds(n, p, es, xs);
    var cs, e := SinceRetired(es), SlotOf(n, es).value;
    assert TiedTo(p, cs[m], xs[m]);
    PeakAsserts(cs, j, m, e);
    AssertionNamesDriver(xs[m], cs[m].what.verdict);
    AllRulesDriver(xs[m], cs[m].what.verdict, 0);
    if e.peakLevel.Unstable? {
      if PeaksUpwards(p) {
        UpwardPeakMeets(p, cs, xs, j, e);
      } else {
        DownwardPeakMeets(p, cs, j, m, e);
      }
    }
  }

  lemma PeakAsserts(cs: seq<Seen>, j: nat, m: nat, e: Episode)
    requires j <= m < |cs| && FirstPeak(cs, j, m, e.peakValue, e.driver)
    ensures Asserts(cs[m].what) && DriverValue(cs[m].what) == e.peakValue && DriverKey(cs[m].what) == e.driver
  {
  }

  lemma UpwardPeakMeets(p: Policy, cs: seq<Seen>, xs: seq<Input>, j: nat, e: Episode)
    requires p.requireAll && p.rules != [] && Tied(p, cs, xs) && PeakSince(cs, j, e) && PeaksUpwards(p)
    requires e.peakLevel.Unstable? && e.driver == p.rules[0].metric
    ensures DriverMeets(p, e)
  {
    hide Classifies, FirstPeak;
    var q: nat :| q < |p.rules| && p.rules[q].metric == p.rules[0].metric && p.rules[q].direction.AtLeast?;
    var i :| j <= i < |cs| && cs[i].what.verdict.level.Unstable?;
    assert TiedTo(p, cs[i], xs[i]);
    AllRulesDriver(xs[i], cs[i].what.verdict, q);
    assert Breaches(e.peakValue, p.rules[q].unstableAt, p.rules[q].direction);
  }

  lemma DownwardPeakMeets(p: Policy, cs: seq<Seen>, j: nat, m: nat, e: Episode)
    requires WatchedOnce(p) && p.rules != [] && PeakSince(cs, j, e) && !PeaksUpwards(p)
    requires e.peakLevel.Unstable? && e.driver == p.rules[0].metric
    requires j <= m < |cs| && Asserts(cs[m].what) && DriverValue(cs[m].what) == e.peakValue
    ensures DriverMeets(p, e) <==> StaysUnder(p, cs, j)
  {
    hide PeakLevel, FirstPeak;
    assert p.rules[0].direction.AtMost?;
    assert forall i :: 0 <= i < |p.rules| && p.rules[i].metric == p.rules[0].metric ==> i == 0;
    assert DriverMeets(p, e) <==> e.peakValue <= p.rules[0].unstableAt by {
      if e.peakValue <= p.rules[0].unstableAt {
        assert Breaches(e.peakValue, p.rules[0].unstableAt, p.rules[0].direction);
      }
    }
  }

  // ---------------------------------------------------------------------------
  // Every run of a policy
  // ---------------------------------------------------------------------------

  /** Whatever is classified and whatever else happens to a key, the driver of its open episode
      breaches a threshold of the episode's peak level. */
  ghost predicate AlwaysMeets(n: Naming, p: Policy) {
    forall es: seq<KeyEvent>, xs: seq<Input> :: Tied(p, SinceRetired(es), xs) && SlotOf(n, es).Some? ==>
      DriverMeets(p, SlotOf(n, es).value)
  }

  /** Rule i calls no value elevated that is not unstable, to itself or to an opposite rule. */
  ghost predicate NoElevatedBand(p: Policy, i: nat)
    requires i < |p.rules|
  {
    p.rules[i].elevatedAt == p.rules[i].unstableAt || Covered(p, p.rules[i])
  }

  /** The unstable thresholds of two opposite rules on the metric of r leave no value between. */
  ghost predicate Covered(p: Policy, r: Rule) {
    exists i, j :: 0 <= i < |p.rules| && 0 <= j < |p.rules| && Opposed(p.rules[i], p.rules[j])
      && p.rules[i].metric == r.metric && p.rules[i].unstableAt <= p.rules[j].unstableAt
  }

  /** What to check a policy for. Where one rule is enough: either no rule has values that are
      elevated only, or all rules look for large values and no rule that has such values has its
      unstable threshold above that of another. Where all must agree: a rule on the first rule's
      metric looks for large values, or the first rule's thresholds coincide, or the policy can
      never be unstable. */
  ghost predicate DriverKeepsUp(p: Policy) {
    if p.requireAll then
      p.rules == [] || PeaksUpwards(p) || p.rules[0].elevatedAt == p.rules[0].unstableAt || !Satisfiable(p)
    else
      || (forall i: nat :: i < |p.rules| ==> NoElevatedBand(p, i))
      || (&& (forall i :: 0 <= i < |p.rules| ==> p.rules[i].direction.AtLeast?)
          && (forall i: nat, j: nat :: i < |p.rules| && j < |p.rules| && !NoElevatedBand(p, i) ==>
                p.rules[i].unstableAt <= p.rules[j].unstableAt))
  }

  /** The exact condition under which the driver in force never falls behind the peak level. */
  lemma DriverKeepsUpIff(n: Naming, p: Policy)
    requires ValidPolicy(p)
    ensures AlwaysMeets(n, p) <==> DriverKeepsUp(p)
  {
    hide DriverMeets, Tied, SinceRetired, SlotOf;
    if DriverKeepsUp(p) {
      forall es: seq<KeyEvent>, xs: seq<Input> | Tied(p, SinceRetired(es), xs) && SlotOf(n, es).Some?
        ensures DriverMeets(p, SlotOf(n, es).value)
      {
        if p.requireAll {
          AllRulesKeepUp(n, p, es, xs);
        } else {
          AnyRuleKeepsUp(n, p, es, xs);
        }
      }
    } else if p.requireAll {
      AllRulesFallBehind(n, p);
    } else {
      AnyRuleFallsBehind(n, p);
    }
  }

  lemma AnyRuleKeepsUp(n: Naming, p: Policy, es: seq<KeyEvent>, xs: seq<Input>)
    requires ValidPolicy(p) && !p.requireAll && DriverKeepsUp(p)
    requires Tied(p, SinceRetired(es), xs) && SlotOf(n, es).Some?
    ensures DriverMeets(p, SlotOf(n, es).value)
  {
    hide DriverMeets, SinceRetired, SlotOf, SlotAfter, OpenSince, NoElevatedBand, Classifies, FirstPeak, DriverKeepsUp;
    var j, m := AnyRuleDriverMeetsIff(n, p, es, xs);
    var cs, e := SinceRetired(es), SlotOf(n, es).value;
    PeakAsserts(cs, j, m, e);
    if e.peakLevel.Unstable? && !cs[m].what.verdict.level.Unstable? {
      var u :| j <= u < |cs| && cs[u].what.verdict.level.Unstable?;
      assert TiedTo(p, cs[m], xs[m]) && TiedTo(p, cs[u], xs[u]);
      NoLowUnstable(p, xs[m], cs[m].what.verdict, xs[u], cs[u].what.verdict);
      assert false;
    }
  }

  /** Under such a policy an elevated driver stays below every unstable one. */
  lemma NoLowUnstable(p: Policy, x: Input, v: Verdict, y: Input, w: Verdict)
    requires AllOrdered(p) && !p.requireAll && DriverKeepsUp(p) && x.policy == p && y.policy == p
    requires Classifies(x, v) && v.level.Elevated? && Classifies(y, w) && w.level.Unstable?
    ensures v.driver.Some? && w.driver.Some? && v.driver.value.value < w.driver.value.value
  {
    hide Classifies, Refused;
    var i := DriverReading(x, v);
    var q := DriverReading(y, w);
    NotRaised(x, v);
    assert !Breached(x, p.rules[i], true);
    forall a, b | 0 <= a < |p.rules| && 0 <= b < |p.rules| && Opposed(p.rules[a], p.rules[b])
      && p.rules[a].metric == p.rules[i].metric
      ensures p.rules[a].unstableAt > p.rules[b].unstableAt
    {
      assert !Breached(x, p.rules[a], true) && !Breached(x, p.rules[b], true);
    }
    assert !NoElevatedBand(p, i);
    assert p.rules[i].unstableAt <= p.rules[q].unstableAt;
  }

  lemma NotRaised(x: Input, v: Verdict)
    requires Classifies(x, v) && v.level.Elevated? && !x.policy.requireAll
    ensures forall i :: 0 <= i < |x.policy.rules| ==> !Breached(x, x.policy.rules[i], true)
  {
    hide Breached, FirstDriver, NothingEvaluable;
  }

  lemma AllRulesKeepUp(n: Naming, p: Policy, es: seq<KeyEvent>, xs: seq<Input>)
    requires ValidPolicy(p) && p.requireAll && DriverKeepsUp(p)
    requires Tied(p, SinceRetired(es), xs) && SlotOf(n, es).Some?
    ensures DriverMeets(p, SlotOf(n, es).value)
  {
    hide DriverMeets, SinceRetired, SlotOf, SlotAfter, OpenSince, PeaksUpwards, Classifies, FirstPeak, StaysUnder,
      Satisfiable;
    var j, m := AllRulesDriverMeetsIff(n, p, es, xs);
    var cs, e := SinceRetired(es), SlotOf(n, es).value;
    if e.peakLevel.Unstable? {
      var u :| j <= u < |cs| && cs[u].what.verdict.level.Unstable?;
      assert TiedTo(p, cs[u], xs[u]);
      AssertionNamesDriver(xs[u], cs[u].what.verdict);
      RaisedIsSatisfiable(xs[u]);
      if !PeaksUpwards(p) {
        EqualThresholdsStayUnder(p, cs, xs, j);
      }
    }
  }

  lemma EqualThresholdsStayUnder(p: Policy, cs: seq<Seen>, xs: seq<Input>, j: nat)
    requires p.requireAll && p.rules != [] && Tied(p, cs, xs) && !PeaksUpwards(p)
    requires p.rules[0].elevatedAt == p.rules[0].unstableAt
    ensures StaysUnder(p, cs, j)
  {
    hide Classifies;
    assert p.rules[0].direction.AtMost?;
    forall i | j <= i < |cs| && Asserts(cs[i].what)
      ensures DriverValue(cs[i].what) <= p.rules[0].unstableAt
    {
      assert TiedTo(p, cs[i], xs[i]);
      var q := DriverReading(xs[i], cs[i].what.verdict);
    }
  }

  // ---------------------------------------------------------------------------
  // Runs in which the driver falls behind
  // ---------------------------------------------------------------------------

  function KeyForAnything(): EpisodeKey {
    EpisodeKey(NIL_ID, NIL_ID, NIL_ID, NIL_ID)
  }

  function SeenAs(p: Policy, v: Verdict): Seen {
    Seen(Classified(KeyForAnything(), NIL_ID, 1, true, p.closeWindows, v), 0)
  }

  /** An elevated driver whose value a later unstable one does not exceed stays in force, though it
      breaches no unstable threshold. */
  lemma FallsBehind(n: Naming, p: Policy, x: Input, v: Verdict, y: Input, w: Verdict)
    requires x.policy == p && y.policy == p && x.currentGeneration && y.currentGeneration
    requires Classifies(x, v) && v.level.Elevated? && v.driver.Some? && !Meets(p.rules, v.driver.value, true)
    requires Classifies(y, w) && w.level.Unstable? && w.driver.Some? && w.driver.value.value <= v.driver.value.value
    ensures !AlwaysMeets(n, p)
  {
    hide Classifies, Meets, EpisodeId;
    var a, b := SeenAs(p, v), SeenAs(p, w);
    var es := [Saw(a), Saw(b)];
    var cs := SinceRetired(es);
    assert es[..1] == [Saw(a)] && es[..1][..0] == [];
    assert SinceRetired(es[..1]) == [a];
    assert cs == [a, b];
    assert Tied(p, cs, [x, y]);
    assert SlotOf(n, es[..1]) == Some(OpenedEpisode(n, a.what, a.at));
    var e := Episodes.Extended(OpenedEpisode(n, a.what, a.at), b.what);
    assert SlotOf(n, es) == Some(e);
    ThresholdsDisregardTerms(p.rules, v.driver.value, true, 0);
    assert !DriverMeets(p, e);
  }

  // Every input has a verdict.
  lemma Verdicts(x: Input) returns (v: Verdict)
    ensures Classifies(x, v)
  {
    hide Breached, Refused, NothingEvaluable;
    var d := FirstBreach(x, LevelOf(x).Unstable?, |x.policy.rules|);
    v := Verdict(LevelOf(x), if Refused(x) || NothingEvaluable(x) then None else d);
  }

  lemma {:induction false} FirstBreach(x: Input, unstable: bool, k: nat) returns (d: Option<Driver>)
    requires k <= |x.policy.rules|
    ensures match d
      case None => forall i :: 0 <= i < k ==> !Breached(x, x.policy.rules[i], unstable)
      case Some(driver) => FirstDriver(x, unstable, d)
  {
    if k == 0 {
      d := None;
    } else {
      d := FirstBreach(x, unstable, k - 1);
      if d.None? && Breached(x, x.policy.rules[k - 1], unstable) {
        d := Some(DriverOf(x, x.policy.rules[k - 1]));
      }
    }
  }

  /** Where one rule is enough, a single reading in the elevated band of rule i. */
  lemma ElevatedReading(p: Policy, i: nat, value: real) returns (v: Verdict)
    requires !p.requireAll && i < |p.rules| && Breaches(value, p.rules[i].elevatedAt, p.rules[i].direction)
    requires forall q :: 0 <= q < |p.rules| && p.rules[q].metric == p.rules[i].metric ==>
      !Breaches(value, p.rules[q].unstableAt, p.rules[q].direction)
    ensures Classifies(Window(p, map[p.rules[i].metric := value]), v) && v.level.Elevated?
    ensures v.driver == Some(Driver(p.rules[i].metric, value, p.minTerms)) && !Meets(p.rules, v.driver.value, true)
  {
    hide Classifies, Window, Refused, Breached;
    var values := map[p.rules[i].metric := value];
    var x := Window(p, values);
    v := Verdicts(x);
    WindowBreaches(p, values, p.rules[i], false);
    forall q | 0 <= q < |p.rules|
      ensures !Breached(x, p.rules[q], true)
    {
      WindowBreaches(p, values, p.rules[q], true);
    }
    WindowPolicy(p, values);
    LevelElevated(x, v, i);
    var q := DriverReading(x, v);
    WindowBreaches(p, values, p.rules[q], false);
    WindowDriver(p, values, p.rules[q]);
  }

  lemma WindowPolicy(p: Policy, values: map<MetricKey, real>)
    ensures Window(p, values).policy == p && Window(p, values).currentGeneration
  {
  }

  lemma WindowDriver(p: Policy, values: map<MetricKey, real>, r: Rule)
    requires Evaluable(Window(p, values), r)
    ensures r.metric in values
    ensures DriverOf(Window(p, values), r) == Driver(r.metric, values[r.metric], p.minTerms)
  {
  }

  lemma LevelElevated(x: Input, v: Verdict, i: nat)
    requires Classifies(x, v) && !Refused(x) && i < |x.policy.rules| && Breached(x, x.policy.rules[i], false)
    requires !Raised(x, true) && Raised(x, false)
    ensures v.level.Elevated?
  {
    hide Refused, Raised;
    assert !NothingEvaluable(x);
  }

  lemma LevelUnstable(x: Input, v: Verdict, i: nat)
    requires Classifies(x, v) && !Refused(x) && i < |x.policy.rules| && Breached(x, x.policy.rules[i], true)
    requires Raised(x, true)
    ensures v.level.Unstable?
  {
    hide Refused, Raised;
    assert !NothingEvaluable(x);
  }

  /** Where one rule is enough, a single reading past the unstable threshold of rule i. */
  lemma UnstableReading(p: Policy, i: nat, value: real) returns (v: Verdict)
    requires !p.requireAll && i < |p.rules| && Breaches(value, p.rules[i].unstableAt, p.rules[i].direction)
    ensures Classifies(Window(p, map[p.rules[i].metric := value]), v) && v.level.Unstable?
    ensures v.driver == Some(Driver(p.rules[i].metric, value, p.minTerms))
  {
    hide Classifies, Window, Refused, Breached;
    var values := map[p.rules[i].metric := value];
    var x := Window(p, values);
    v := Verdicts(x);
    WindowBreaches(p, values, p.rules[i], true);
    WindowPolicy(p, values);
    LevelUnstable(x, v, i);
    var q := DriverReading(x, v);
    WindowBreaches(p, values, p.rules[q], true);
    WindowDriver(p, values, p.rules[q]);
  }

  /** A value in the elevated band of a rule that has one. */
  lemma BandValue(p: Policy, i: nat) returns (value: real)
    requires AllOrdered(p) && WatchedOnce(p) && i < |p.rules| && !NoElevatedBand(p, i)
    ensures Breaches(value, p.rules[i].elevatedAt, p.rules[i].direction)
    ensures forall q :: 0 <= q < |p.rules| && p.rules[q].metric == p.rules[i].metric ==>
      !Breaches(value, p.rules[q].unstableAt, p.rules[q].direction)
  {
    var r := p.rules[i];
    assert Ordered(r);
    value := r.elevatedAt;
    if o: nat :| o < |p.rules| && p.rules[o].metric == r.metric && p.rules[o].direction != r.direction {
      var other := p.rules[o];
      assert Opposed(r, other) || Opposed(other, r);
      if Breaches(value, other.unstableAt, other.direction) {
        value := (r.unstableAt + other.unstableAt) / 2.0;
      }
    }
    forall q | 0 <= q < |p.rules| && p.rules[q].metric == r.metric
      ensures !Breaches(value, p.rules[q].unstableAt, p.rules[q].direction)
    {
      assert q == i || p.rules[q].direction != r.direction;
    }
  }

  lemma AnyRuleFallsBehind(n: Naming, p: Policy)
    requires ValidPolicy(p) && !p.requireAll && !DriverKeepsUp(p)
    ensures !AlwaysMeets(n, p)
  {
    hide AlwaysMeets, Classifies, Meets, Window, Breaches, WatchedOnce, NoElevatedBand;
    var i: nat, s: nat, value, low := LowUnstable(p);
    var v := ElevatedReading(p, i, value);
    var w := UnstableReading(p, s, low);
    WindowPolicy(p, map[p.rules[i].metric := value]);
    WindowPolicy(p, map[p.rules[s].metric := low]);
    FallsBehind(n, p, Window(p, map[p.rules[i].metric := value]), v, Window(p, map[p.rules[s].metric := low]), w);
  }

  /** An elevated value of one rule and an unstable one of another that does not exceed it. */
  lemma LowUnstable(p: Policy) returns (i: nat, s: nat, value: real, low: real)
    requires ValidPolicy(p) && !p.requireAll && !DriverKeepsUp(p)
    ensures i < |p.rules| && s < |p.rules| && low <= value
    ensures Breaches(value, p.rules[i].elevatedAt, p.rules[i].direction)
    ensures forall q :: 0 <= q < |p.rules| && p.rules[q].metric == p.rules[i].metric ==>
      !Breaches(value, p.rules[q].unstableAt, p.rules[q].direction)
    ensures Breaches(low, p.rules[s].unstableAt, p.rules[s].direction)
  {
    hide NoElevatedBand;
    if o: nat :| o < |p.rules| && p.rules[o].direction.AtMost? {
      i :| i < |p.rules| && !NoElevatedBand(p, i);
      s := o;
      value := BandValue(p, i);
      low := if value < p.rules[o].unstableAt then value else p.rules[o].unstableAt;
    } else {
      i, s :| i < |p.rules| && s < |p.rules| && !NoElevatedBand(p, i) && p.rules[i].unstableAt > p.rules[s].unstableAt;
      low := p.rules[s].unstableAt;
      value := BandValue(p, i);
      value := if value < low then low else value;
      assert forall q :: 0 <= q < |p.rules| && p.rules[q].metric == p.rules[i].metric ==> q == i;
    }
  }

  lemma AllRulesFallBehind(n: Naming, p: Policy)
    requires ValidPolicy(p) && p.requireAll && !DriverKeepsUp(p)
    ensures !AlwaysMeets(n, p)
  {
    hide AlwaysMeets, Classifies, Meets, WorstExcept, Satisfiable;
    var r := p.rules[0];
    var x, y := WorstExcept(p, 0, r.elevatedAt), WorstExcept(p, 0, r.unstableAt);
    var v := Verdicts(x);
    var w := Verdicts(y);
    WorstIsUsable(p, r.elevatedAt);
    WorstIsUsable(p, r.unstableAt);
    FirstAtWorst(p, v, w);
    FallsBehind(n, p, x, v, y, w);
  }

  /** Every other metric at its worst, the first rule's once elevated only and once unstable. */
  lemma FirstAtWorst(p: Policy, v: Verdict, w: Verdict)
    requires ValidPolicy(p) && p.requireAll && !DriverKeepsUp(p)
    requires Classifies(WorstExcept(p, 0, p.rules[0].elevatedAt), v)
    requires Classifies(WorstExcept(p, 0, p.rules[0].unstableAt), w)
    ensures v.level.Elevated? && v.driver.Some? && !Meets(p.rules, v.driver.value, true)
    ensures w.level.Unstable? && w.driver.Some? && w.driver.value.value <= v.driver.value.value
  {
    hide Classifies, WorstExcept, Satisfiable, Refused, Breached, WatchedOnce;
    var r := p.rules[0];
    var x, y := WorstExcept(p, 0, r.elevatedAt), WorstExcept(p, 0, r.unstableAt);
    assert r.direction.AtMost? && r.elevatedAt > r.unstableAt;
    OnlyFirst(p);
    forall i: nat | i < |p.rules|
      ensures Breached(x, p.rules[i], false) && Breached(y, p.rules[i], true)
    {
      WorstExceptBreaches(p, 0, r.elevatedAt, i);
      WorstExceptBreaches(p, 0, r.unstableAt, i);
      if i != 0 {
        OrderedRule(x, p.rules[i]);
      } else {
        assert Breaches(r.elevatedAt, r.elevatedAt, r.direction) && Breaches(r.unstableAt, r.unstableAt, r.direction);
      }
    }
    WorstExceptBreaches(p, 0, r.elevatedAt, 0);
    assert !Breached(x, p.rules[0], true);
    WorstIsUsable(p, r.elevatedAt);
    WorstIsUsable(p, r.unstableAt);
    LevelElevated(x, v, 0);
    LevelUnstable(y, w, 0);
    var i := DriverReading(x, v);
    var q := DriverReading(y, w);
  }

  lemma OnlyFirst(p: Policy)
    requires WatchedOnce(p) && p.rules != [] && p.rules[0].direction.AtMost? && !PeaksUpwards(p)
    ensures forall i :: 0 <= i < |p.rules| && p.rules[i].metric == p.rules[0].metric ==> i == 0
  {
  }

  lemma OrderedRule(x: Input, r: Rule)
    requires Ordered(r) && Breached(x, r, true)
    ensures Breached(x, r, false)
  {
  }

  lemma WorstIsUsable(p: Policy, value: real)
    requires p.rules != []
    ensures var x := WorstExcept(p, 0, value);
      && x.policy == p && x.currentGeneration && !Refused(x)
      && Evaluable(x, p.rules[0]) && DriverOf(x, p.rules[0]).value == value
      && DriverOf(x, p.rules[0]).metric == p.rules[0].metric
  {
    hide Worst;
  }

  /** Such a run: an unstable reading of a sensitive rule, then a larger elevated one of a rule
      watching another metric, which takes over the driver without reaching its unstable
      threshold. Both verdicts are the ones the readings are given. */
  lemma PeakLevelMayOutlastDriver(n: Naming)
    ensures var p := Policy([Rule(0, AtLeast, 1.0, 2.0), Rule(1, AtLeast, 10.0, 100.0)], 1, 1, false, 0, 2);
      var es := [Saw(SeenAs(p, Verdict(Unstable, Some(Driver(0, 3.0, 1))))),
                 Saw(SeenAs(p, Verdict(Elevated, Some(Driver(1, 20.0, 1)))))];
      && ValidPolicy(p)
      && Tied(p, SinceRetired(es), [Window(p, map[0 := 3.0]), Window(p, map[1 := 20.0])])
      && SlotOf(n, es).Some? && SlotOf(n, es).value.peakLevel.Unstable?
      && !DriverMeets(p, SlotOf(n, es).value) && !DriverKeepsUp(p)
  {
    hide EpisodeId, Classifies, DriverMeets, NoElevatedBand;
    var p := SensitivePolicy();
    var a := SeenAs(p, Verdict(Unstable, Some(Driver(0, 3.0, 1))));
    var b := SeenAs(p, Verdict(Elevated, Some(Driver(1, 20.0, 1))));
    var es := [Saw(a), Saw(b)];
    assert es[..1] == [Saw(a)] && es[..1][..0] == [];
    assert SinceRetired(es[..1]) == [a];
    assert SinceRetired(es) == [a, b];
    SensitiveVerdicts(p);
    assert SlotOf(n, es[..1]) == Some(OpenedEpisode(n, a.what, a.at));
    assert SlotOf(n, es) == Some(Episodes.Extended(OpenedEpisode(n, a.what, a.at), b.what));
    SensitiveBands(p, SlotOf(n, es).value);
  }

  function SensitivePolicy(): Policy {
    Policy([Rule(0, AtLeast, 1.0, 2.0), Rule(1, AtLeast, 10.0, 100.0)], 1, 1, false, 0, 2)
  }

  lemma SensitiveVerdicts(p: Policy)
    requires p == SensitivePolicy()
    ensures ValidPolicy(p)
    ensures Classifies(Window(p, map[0 := 3.0]), Verdict(Unstable, Some(Driver(0, 3.0, 1))))
    ensures Classifies(Window(p, map[1 := 20.0]), Verdict(Elevated, Some(Driver(1, 20.0, 1))))
  {
    assert p.rules[0] == Rule(0, AtLeast, 1.0, 2.0) && p.rules[1] == Rule(1, AtLeast, 10.0, 100.0);
    hide Classifies, Window;
    var v := UnstableReading(p, 0, 3.0);
    var w := ElevatedReading(p, 1, 20.0);
  }

  lemma SensitiveBands(p: Policy, e: Episode)
    requires p == SensitivePolicy() && e.peakLevel.Unstable? && e.driver == 1 && e.peakValue == 20.0
    ensures !DriverMeets(p, e) && !DriverKeepsUp(p)
  {
    assert p.rules[0] == Rule(0, AtLeast, 1.0, 2.0) && p.rules[1] == Rule(1, AtLeast, 10.0, 100.0);
    assert !NoElevatedBand(p, 1);
  }
}
