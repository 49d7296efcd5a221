/** What a restart makes of the fencing guards (src/engine.cpp): each is rebuilt from the restored
    samples of its source and then merged with the saved one. */
module RestartGuards {
  import opened CanonicalBytes
  import opened RecordForms
  import opened Samples
  import opened SampleCodec
  import opened Restart
  import F = Fencing

  /** What the restored samples of a source say, in the order they are restored. */
  ghost function Heard(source: Id, samples: seq<Sample>, maxWindows: nat): seq<F.Trace> {
    F.Own(source, TracesOf(RestoreOrder(samples, KeptKeys(samples, maxWindows))))
  }

  /** Whether a source gets back the guard it had: from the largest epoch of the largest incarnation
      on, its restored samples carry no larger sequence number; or it had none and nothing is
      restored. */
  ghost predicate GuardKept(e: Engine, samples: seq<Sample>, source: Id, maxWindows: nat) {
    if source in e.guards then F.NotAhead(Heard(source, samples, maxWindows), e.guards[source].position.sequence)
    else Heard(source, samples, maxWindows) == []
  }

  lemma MergedWithSaved(sch: Scheme, e: Engine, o: Order, source: Id, maxWindows: nat)
    requires ListsIds(o.guards, e.guards.Keys)
    ensures var samples := IntakeOf(sch, e, o).samples;
      var rebuilt := F.Rebuilt(source, TracesOf(RestoreOrder(samples, KeptKeys(samples, maxWindows))));
      RestoredGuard(source, IntakeOf(sch, e, o), maxWindows) ==
        if source in e.guards then F.Merged(rebuilt, e.guards[source]) else rebuilt
  {
    hide AllSamples, F.Rebuilt, F.MergedAll, F.Merged, GuardPairs, RestoreOrder, KeptKeys, TracesOf, ResealedAll;
    var samples := IntakeOf(sch, e, o).samples;
    var rebuilt := F.Rebuilt(source, TracesOf(RestoreOrder(samples, KeptKeys(samples, maxWindows))));
    if source in e.guards {
      var k :| 0 <= k < |o.guards| && o.guards[k] == source;
      F.MergedOnce(rebuilt, source, GuardPairs(e.guards, o.guards), k);
    } else {
      F.MergedNever(rebuilt, source, GuardPairs(e.guards, o.guards));
    }
  }

  /** A saved guard comes back exactly when the restored samples of its source do not run ahead of
      it: from the largest epoch of the largest incarnation on, in the order they are restored, none
      carries a larger sequence number. */
  lemma GuardReturnsIff(sch: Scheme, e: Engine, o: Order, source: Id, maxWindows: nat)
    requires ListsIds(o.guards, e.guards.Keys) && source in e.guards && e.guards[source].initialized
    ensures RestoredGuard(source, IntakeOf(sch, e, o), maxWindows) == e.guards[source] <==>
      F.NotAhead(Heard(source, IntakeOf(sch, e, o).samples, maxWindows), e.guards[source].position.sequence)
  {
    hide RestoredGuard, F.Rebuilt, F.Merged, RestoreOrder, KeptKeys, TracesOf, IntakeOf, F.Own, F.NotAhead;
    MergedWithSaved(sch, e, o, source, maxWindows);
    var samples := IntakeOf(sch, e, o).samples;
    F.GuardSurvivesIff(source, TracesOf(RestoreOrder(samples, KeptKeys(samples, maxWindows))), e.guards[source]);
  }

  /** The same for every source, those without a guard included. */
  lemma EachGuardReturnsIff(sch: Scheme, e: Engine, o: Order, source: Id, maxWindows: nat)
    requires ListsIds(o.guards, e.guards.Keys) && GuardsSet(e.guards)
    ensures RestoredGuard(source, IntakeOf(sch, e, o), maxWindows) == F.GuardOf(e.guards, source) <==>
      GuardKept(e, IntakeOf(sch, e, o).samples, source, maxWindows)
  {
    hide RestoredGuard, F.Rebuilt, F.Merged, RestoreOrder, KeptKeys, TracesOf, IntakeOf, F.Own, F.NotAhead, ListsIds;
    if source in e.guards {
      GuardReturnsIff(sch, e, o, source, maxWindows);
    } else {
      MergedWithSaved(sch, e, o, source, maxWindows);
      var samples := IntakeOf(sch, e, o).samples;
      F.RebuiltClosed(source, TracesOf(RestoreOrder(samples, KeptKeys(samples, maxWindows))));
    }
  }

  /** The restart keeps fencing everything the saved guard fenced exactly when the restored samples
      do not bring in a larger sequence number of an older incarnation or epoch. */
  lemma GuardCoversIff(sch: Scheme, e: Engine, o: Order, source: Id, maxWindows: nat)
    requires ListsIds(o.guards, e.guards.Keys) && source in e.guards && e.guards[source].initialized
    ensures F.Covers(RestoredGuard(source, IntakeOf(sch, e, o), maxWindows), e.guards[source].position) <==>
      F.StillCovers(Heard(source, IntakeOf(sch, e, o).samples, maxWindows), e.guards[source].position)
  {
    hide RestoredGuard, F.Rebuilt, F.Merged, RestoreOrder, KeptKeys, TracesOf, IntakeOf, F.Own, F.StillCovers, F.Covers;
    MergedWithSaved(sch, e, o, source, maxWindows);
    var samples := IntakeOf(sch, e, o).samples;
    F.GuardCoversIff(source, TracesOf(RestoreOrder(samples, KeptKeys(samples, maxWindows))), e.guards[source]);
  }

  function PositionOf(s: Sample): F.Position {
    TraceOf(s).position
  }

  /** It does while a sample at the guard's own position is restored. */
  lemma RestoredSampleCovers(samples: seq<Sample>, maxWindows: nat, x: Sample, p: F.Position)
    requires x in samples && |KeysOf(samples)| <= maxWindows && PositionOf(x) == p
    ensures F.StillCovers(Heard(x.provenance.source, samples, maxWindows), p)
  {
    hide RestoreOrder, KeptKeys, KeysOf, F.StillCovers, F.Own;
    var order := RestoreOrder(samples, KeptKeys(samples, maxWindows));
    EverySampleRestored(samples, maxWindows);
    assert x in multiset(samples);
    assert x in order;
    var i :| 0 <= i < |order| && order[i] == x;
    assert TracesOf(order)[i] == TraceOf(x);
    var j := HeardIsOwn(x.provenance.source, TracesOf(order), i);
    F.OwnPositionCovers(F.Own(x.provenance.source, TracesOf(order)), p, j);
  }

  lemma {:induction false} HeardIsOwn(source: Id, ts: seq<F.Trace>, i: nat) returns (j: nat)
    requires i < |ts| && ts[i].source == source
    ensures j < |F.Own(source, ts)| && F.Own(source, ts)[j] == ts[i]
  {
    var n := |ts| - 1;
    if i == n {
      j := |F.Own(source, ts)| - 1;
    } else {
      j := HeardIsOwn(source, ts[..n], i);
    }
  }

  /** What is heard was said by a saved sample of the source. */
  lemma HeardFrom(sch: Scheme, e: Engine, o: Order, source: Id, maxWindows: nat, i: nat) returns (x: Sample)
    requires i < |Heard(source, IntakeOf(sch, e, o).samples, maxWindows)|
    ensures x in AllSamples(e.windows, o.windows) && x.provenance.source == source
    ensures PositionOf(x) == Heard(source, IntakeOf(sch, e, o).samples, maxWindows)[i].position
  {
    hide AllSamples, RestoreOrder, KeptKeys, F.Own, ContentOf;
    var samples := IntakeOf(sch, e, o).samples;
    var order := RestoreOrder(samples, KeptKeys(samples, maxWindows));
    OrderedAreSamples(samples, KeptKeys(samples, maxWindows));
    var t := Heard(source, samples, maxWindows)[i];
    var n :| 0 <= n < |order| && TracesOf(order)[n] == t;
    assert order[n] in samples;
    var m :| 0 <= m < |samples| && samples[m] == order[n];
    x := AllSamples(e.windows, o.windows)[m];
  }

  /** A saved guard comes back when no retained sample of its source carries a larger sequence
      number; then every later batch of that source gets the verdict it would have got. */
  lemma GuardsSurvive(sch: Scheme, e: Engine, o: Order, source: Id, maxWindows: nat)
    requires ListsIds(o.guards, e.guards.Keys) && source in e.guards && e.guards[source].initialized
    requires forall s :: s in AllSamples(e.windows, o.windows) && s.provenance.source == source ==>
      s.provenance.sequence <= e.guards[source].position.sequence
    ensures RestoredGuard(source, IntakeOf(sch, e, o), maxWindows) == e.guards[source]
  {
    hide AllSamples, RestoredGuard, IntakeOf, Heard, F.TopEpoch, F.TopIncarnation;
    var own := Heard(source, IntakeOf(sch, e, o).samples, maxWindows);
    forall i | 0 <= i < |own|
      ensures own[i].position.sequence <= e.guards[source].position.sequence
    {
      var x := HeardFrom(sch, e, o, source, maxWindows, i);
    }
    GuardReturnsIff(sch, e, o, source, maxWindows);
  }
}
