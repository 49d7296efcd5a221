/** From the age of the samples to the fate of an episode: what assessments make of a level, and what
    a level without fresh evidence makes of an open episode (src/evidence.cpp, src/classification.cpp,
    src/episode.cpp). */
module EvidenceLevels {
  import opened Errors
  import opened CanonicalBytes
  import opened Samples
  import Clocks
  import E = Evidence
  import C = Classification
  import P = Episodes

  /** The evidence a classification is given, counted from the assessments. */
  function EvidenceOf(states: seq<E.State>): C.Evidence {
    C.Evidence(|states|, E.CountOf(states, E.Fresh), E.CountOf(states, E.Stale), E.CountOf(states, E.Expired),
               E.CountOf(states, E.Conflicting), E.CountOf(states, E.Incomplete),
               E.CountOf(states, E.Unsupported), E.CountOf(states, E.Unknown))
  }

  /** The summary of the assessments, handed on. */
  method Weigh(states: seq<E.State>) returns (e: C.Evidence)
    ensures e == EvidenceOf(states)
  {
    var r := E.Summarize(states);
    e := C.Evidence(r.total, r.freshOnes, r.stale, r.expired, r.conflicting, r.incomplete, r.unsupported, r.unknown);
  }

  // ---------------------------------------------------------------------------
  // The level before any rule is looked at
  // ---------------------------------------------------------------------------

  /** The rules are looked at: there are some, the generation is current, and there is fresh evidence. */
  predicate ReachesRules(l: C.Level) {
    l.Insufficient? || l.Stable? || l.Elevated? || l.Unstable?
  }

  predicate AllExpired(states: seq<E.State>) {
    (forall i :: 0 <= i < |states| ==> states[i] == E.Expired || states[i] == E.Conflicting) && E.Expired in states
  }

  /** The level in terms of the assessments. Without a current generation and a rule nothing is
      supported; without assessments they are missing; beyond the tolerated conflicts they
      conflict. Otherwise the level is expired exactly when something expired and nothing else but
      tolerated conflicts is there, stale exactly when nothing is fresh and that is not so, and
      the rules decide exactly when something is fresh. */
  lemma LevelFromAssessments(x: C.Input, v: C.Verdict, states: seq<E.State>)
    requires C.Classifies(x, v) && x.evidence == EvidenceOf(states) && E.Missing !in states
    ensures v.level == C.Unsupported <==> !x.currentGeneration || x.policy.rules == []
    ensures x.currentGeneration && x.policy.rules != [] ==>
      && (v.level == C.Missing <==> states == [])
      && (v.level == C.Conflicting <==> E.CountOf(states, E.Conflicting) > x.policy.maxConflicts)
      && (states != [] && E.CountOf(states, E.Conflicting) <= x.policy.maxConflicts ==>
            && (v.level == C.Expired <==> AllExpired(states))
            && (v.level == C.Stale <==> E.Fresh !in states && !AllExpired(states))
            && (ReachesRules(v.level) <==> E.Fresh in states))
  {
    hide C.Raised, C.NothingEvaluable, C.FirstDriver;
    E.CountedOnes(states);
    NoneCounted(states);
  }

  lemma NoneCounted(states: seq<E.State>)
    requires states == [] || E.Missing !in states
    ensures states == [] ==> E.CountOf(states, E.Conflicting) == 0
    ensures states != [] ==> exists s: E.State :: s in states
  {
    if states != [] {
      assert states[0] in states;
    }
  }

  /** How much fresh evidence a level stands for: a stable, elevated or unstable one for at least what the
      policy asks for, and never for none. Where fresh evidence is short of that the level is insufficient. */
  lemma FreshEvidenceAsked(x: C.Input, v: C.Verdict, states: seq<E.State>)
    requires C.Classifies(x, v) && x.evidence == EvidenceOf(states) && E.Missing !in states
    ensures v.level.Stable? || C.AssertsInstability(v.level) ==>
      E.CountOf(states, E.Fresh) >= x.policy.minFresh && E.CountOf(states, E.Fresh) > 0
    ensures ReachesRules(v.level) ==>
      (v.level == C.Insufficient <==> E.CountOf(states, E.Fresh) < x.policy.minFresh || C.NothingEvaluable(x))
  {
    hide C.Raised, C.NothingEvaluable, C.FirstDriver;
  }

  // ---------------------------------------------------------------------------
  // Without fresh evidence
  // ---------------------------------------------------------------------------

  /** A classification without fresh evidence neither asserts instability nor counts as a recovery.
      So whatever open episode it is about, it opens none and ends that one, never as recovered. */
  lemma OldDataNeverRecovers(n: P.Naming, e: P.Episode, x: C.Input, c: P.Classified, now: I64)
    requires C.Classifies(x, c.verdict) && x.evidence.freshSamples == 0
    ensures !P.Asserts(c) && !P.Recovers(c)
    ensures P.Observed(n, None, c, now) == P.Update(None, None, None, false)
    ensures var u := P.Observed(n, Some(e), c, now);
      && u.slot == None && u.started == None && !u.extended
      && u.closed.Some? && u.closed.value.closeReason == (if c.current then P.EvidenceLost else P.Superseded)
  {
    hide C.Raised, C.NothingEvaluable, C.FirstDriver;
  }

  /** An open episode ends as having lost its evidence exactly when no assessment is fresh, where the generation
      is current, there is a rule and something to assess, and conflicts are within what is
      tolerated. With fresh evidence every level either asserts instability or counts as a recovery. */
  lemma LostIffNothingFresh(n: P.Naming, e: P.Episode, x: C.Input, c: P.Classified, states: seq<E.State>, now: I64)
    requires C.Classifies(x, c.verdict) && x.evidence == EvidenceOf(states) && E.Missing !in states
    requires x.currentGeneration && c.current && x.policy.rules != [] && states != []
    requires E.CountOf(states, E.Conflicting) <= x.policy.maxConflicts
    ensures E.Fresh in states <==> P.Asserts(c) || P.Recovers(c)
    ensures var u := P.Observed(n, Some(e), c, now);
      u.closed.Some? && u.closed.value.closeReason == P.EvidenceLost <==> E.Fresh !in states
  {
    hide C.Classifies;
    LevelFromAssessments(x, c.verdict, states);
  }

  /** The assessments of these samples, as the engine makes them. */
  function Assessments(
    samples: seq<Sample>, m: Clocks.ClockModel, localClock: Id, now: I64, p: E.FreshnessPolicy, admitPersisted: bool,
    restored: set<Id>
  ): (states: seq<E.State>)
    ensures |states| == |samples|
  {
    seq(|samples|, i requires 0 <= i < |samples| =>
      E.EngineAssessed(samples[i], m, localClock, now, p, admitPersisted, restored))
  }

  /** The engine's own assessments are never missing, conflicting or incomplete. */
  lemma AssessmentsAre(
    samples: seq<Sample>, m: Clocks.ClockModel, localClock: Id, now: I64, p: E.FreshnessPolicy, admitPersisted: bool,
    restored: set<Id>)
    requires E.ValidPolicy(p)
    ensures var states := Assessments(samples, m, localClock, now, p, admitPersisted, restored);
      && E.Missing !in states && E.Incomplete !in states && E.Conflicting !in states
      && E.CountOf(states, E.Conflicting) == 0
  {
    hide E.Assessed;
    forall i | 0 <= i < |samples|
      ensures E.Assessed(samples[i], m, localClock, now, p) in {E.Fresh, E.Stale, E.Expired, E.Unsupported, E.Unknown}
    {
      E.StatesMean(samples[i], m, localClock, now, p);
    }
    E.CountedOnes(Assessments(samples, m, localClock, now, p, admitPersisted, restored));
  }

  /** Every one of these samples is over a budget at this instant. */
  predicate AllOver(samples: seq<Sample>, m: Clocks.ClockModel, localClock: Id, now: I64, p: E.FreshnessPolicy) {
    forall i :: 0 <= i < |samples| ==>
      && Clocks.InI64(now - samples[i].receivedAt.ticks)
      && E.Over(samples[i], m, localClock, now, p.maxIngestAge, p.maxObservationAge)
  }

  predicate AllPastExpiry(samples: seq<Sample>, m: Clocks.ClockModel, localClock: Id, now: I64, p: E.FreshnessPolicy) {
    forall i :: 0 <= i < |samples| ==>
      E.Over(samples[i], m, localClock, now, p.expiryIngestAge, p.expiryObservationAge)
  }

  predicate NoneWithheld(samples: seq<Sample>, admitPersisted: bool, restored: set<Id>) {
    admitPersisted || forall i :: 0 <= i < |samples| ==> samples[i].id !in restored
  }

  /** From ages to the episode. When every sample of a window is over budget, the window is
      classified expired exactly when every one is past an expiry and none is withheld as restored, stale
      otherwise, and an open episode ends as having lost its evidence. */
  lemma OldSamplesEndEpisode(
    n: P.Naming, e: P.Episode, x: C.Input, c: P.Classified, samples: seq<Sample>, m: Clocks.ClockModel,
    localClock: Id, now: I64, p: E.FreshnessPolicy, admitPersisted: bool, restored: set<Id>)
    requires E.ValidPolicy(p) && samples != [] && AllOver(samples, m, localClock, now, p)
    requires x.evidence == EvidenceOf(Assessments(samples, m, localClock, now, p, admitPersisted, restored))
    requires C.Classifies(x, c.verdict) && x.currentGeneration && c.current && x.policy.rules != []
    ensures c.verdict.level ==
      if AllPastExpiry(samples, m, localClock, now, p) && NoneWithheld(samples, admitPersisted, restored)
      then C.Expired else C.Stale
    ensures var u := P.Observed(n, Some(e), c, now);
      u.slot == None && u.closed.Some? && u.closed.value.closeReason == P.EvidenceLost
  {
    hide E.Assessed, C.Classifies, E.Over, P.Observed;
    var states := Assessments(samples, m, localClock, now, p, admitPersisted, restored);
    AssessmentsAre(samples, m, localClock, now, p, admitPersisted, restored);
    forall i | 0 <= i < |samples|
      ensures states[i] == E.Stale || states[i] == E.Expired
      ensures states[i] == E.Expired <==>
        && E.Over(samples[i], m, localClock, now, p.expiryIngestAge, p.expiryObservationAge)
        && (admitPersisted || samples[i].id !in restored)
    {
      E.StatesMean(samples[i], m, localClock, now, p);
    }
    assert states[0] in states;
    E.CountedOnes(states);
    LevelFromAssessments(x, c.verdict, states);
    OldDataNeverRecovers(n, e, x, c, now);
  }
}
