/** What a restart keeps (src/engine.cpp): save, restore into a fresh engine with the same
    configuration, and compare. */
module RestartTheorems {
  import opened Errors
  import opened CanonicalBytes
  import opened Lists
  import opened RecordForms
  import opened Samples
  import opened SampleCodec
  import opened RecordCodec
  import opened Restart
  import opened RestartGuards
  import S = StoreFormat
  import L = StoreLoader
  import T = StoreTheorems
  import P = Paths
  import F = Fencing
  import V = Window
  import I = Ingest
  import Clocks
  import E = Evidence

  // ---------------------------------------------------------------------------
  // Everything is read back
  // ---------------------------------------------------------------------------

  // The records of a saved engine, kind by kind.
  lemma SavedInParts(e: Engine, o: Order, rest: seq<S.Rec>)
    ensures Saved(e, o) + rest ==
      Records(S.Path, EncPath, e.paths)
      + (Records(S.Generation, EncGeneration, P.AllGenerations(e.generations, o.paths))
         + (Records(S.Sample, EncSample, AllSamples(e.windows, o.windows))
            + (Records(S.SourceGuard, EncGuardPair, GuardPairs(e.guards, o.guards)) + rest)))
  {
    hide Records, P.AllGenerations, AllSamples, GuardPairs;
  }

  lemma RoutesAreTaken(sch: Scheme, limits: Limits, e: Engine, o: Order, rest: seq<S.Rec>)
    requires Sound(sch, limits, e, o)
    ensures TakenAll(sch, NOTHING,
                     Records(S.Path, EncPath, e.paths)
                     + (Records(S.Generation, EncGeneration, P.AllGenerations(e.generations, o.paths)) + rest))
      == TakenAll(sch, Intake(PathIds(e.paths), P.ImportedAll(map[], P.AllGenerations(e.generations, o.paths)), [], []),
                  rest)
  {
    hide TakenAll, Records, P.ImportedAll, P.AllImport, P.AllGenerations, PathIds;
    hide PathReturns, SoundWindow, SealedGeneration, P.Storable, ListsKeys;
    var gens := P.AllGenerations(e.generations, o.paths);
    TakePaths(sch, NOTHING, e.paths, Records(S.Generation, EncGeneration, gens) + rest);
    assert NOTHING.paths + PathIds(e.paths) == PathIds(e.paths);
    P.HistoriesSurviveImport(PathIds(e.paths), e.generations, o.paths);
    SealedGenerations(sch, PathIds(e.paths), e.generations, o.paths);
    TakeGenerations(sch, NOTHING.(paths := PathIds(e.paths)), gens, rest);
  }

  lemma EvidenceIsTaken(sch: Scheme, limits: Limits, e: Engine, o: Order, x: Intake, rest: seq<S.Rec>)
    requires Sound(sch, limits, e, o) && x.samples == [] && x.guards == []
    ensures TakenAll(sch, x,
                     Records(S.Sample, EncSample, AllSamples(e.windows, o.windows))
                     + (Records(S.SourceGuard, EncGuardPair, GuardPairs(e.guards, o.guards)) + rest))
      == TakenAll(sch, x.(samples := ResealedAll(sch, AllSamples(e.windows, o.windows)),
                          guards := GuardPairs(e.guards, o.guards)), rest)
  {
    hide TakenAll, Records, AllSamples, GuardPairs, ResealedAll, SoundHistory, SoundWindow, Acceptable, PathReturns;
    var samples := AllSamples(e.windows, o.windows);
    var guards := GuardPairs(e.guards, o.guards);
    AcceptableSamples(sch, limits.policy, e.windows, o.windows);
    TakeSamples(sch, x, samples, Records(S.SourceGuard, EncGuardPair, guards) + rest);
    var resealed := ResealedAll(sch, samples);
    assert [] + resealed == resealed;
    TakeGuards(sch, x.(samples := resealed), guards, rest);
    assert [] + guards == guards;
  }

  lemma IntakeOfSaved(sch: Scheme, limits: Limits, e: Engine, o: Order, rest: seq<S.Rec>)
    requires Sound(sch, limits, e, o)
    ensures TakenAll(sch, NOTHING, Saved(e, o) + rest) == TakenAll(sch, IntakeOf(sch, e, o), rest)
  {
    hide TakenAll, Records, P.ImportedAll, P.AllGenerations, AllSamples, GuardPairs, PathIds, ResealedAll, Sound, Saved;
    SavedInParts(e, o, rest);
    RoutesAreTaken(sch, limits, e, o,
                   Records(S.Sample, EncSample, AllSamples(e.windows, o.windows))
                   + (Records(S.SourceGuard, EncGuardPair, GuardPairs(e.guards, o.guards)) + rest));
    EvidenceIsTaken(sch, limits, e, o,
                    Intake(PathIds(e.paths), P.ImportedAll(map[], P.AllGenerations(e.generations, o.paths)), [], []),
                    rest);
  }

  lemma SavedOnlyData(e: Engine, o: Order)
    ensures OnlyData(Saved(e, o))
  {
    hide Records;
    OnlyDataRecords(S.Path, EncPath, e.paths);
    OnlyDataRecords(S.Generation, EncGeneration, P.AllGenerations(e.generations, o.paths));
    OnlyDataRecords(S.Sample, EncSample, AllSamples(e.windows, o.windows));
    OnlyDataRecords(S.SourceGuard, EncGuardPair, GuardPairs(e.guards, o.guards));
  }

  lemma TrailerSkipped(sch: Scheme, x: Intake, trailer: S.Rec)
    requires trailer.kind.Trailer?
    ensures TakenAll(sch, x, [trailer]) == Ok(x)
  {
    assert TakenAll(sch, x, [trailer][1..]) == Ok(x);
  }

  lemma HistoriesReturn(sch: Scheme, limits: Limits, e: Engine, o: Order)
    requires Sound(sch, limits, e, o)
    ensures forall p: Id ::
      P.HistoryOf(P.ImportedAll(map[], P.AllGenerations(e.generations, o.paths)), p) == P.HistoryOf(e.generations, p)
  {
    hide PathReturns, SoundWindow, SealedGeneration, P.Storable, P.HistoryOf, P.ImportedAll, P.AllImport;
    P.HistoriesSurviveImport(PathIds(e.paths), e.generations, o.paths);
  }

  // ---------------------------------------------------------------------------
  // Windows come back
  // ---------------------------------------------------------------------------

  lemma {:induction false} GroupResealed(sch: Scheme, samples: seq<Sample>, k: WindowKey)
    ensures GroupOf(ResealedAll(sch, samples), k) == ResealedAll(sch, GroupOf(samples, k))
  {
    hide ContentOf;
    if samples != [] {
      var n := |samples| - 1;
      GroupResealed(sch, samples[..n], k);
      assert ResealedAll(sch, samples)[..n] == ResealedAll(sch, samples[..n]);
    }
  }

  lemma SealedStay(sch: Scheme, s: seq<Sample>)
    requires AllSealed(sch, s)
    ensures ResealedAll(sch, s) == s
  {
    hide ContentOf, Acceptable;
  }

  /** What the restored window of a key is made of: the saved window's snapshot, resealed. */
  lemma GroupReturns(sch: Scheme, limits: Limits, e: Engine, o: Order, k: WindowKey)
    requires Sound(sch, limits, e, o)
    ensures GroupOf(IntakeOf(sch, e, o).samples, k) == ResealedAll(sch, Canonical(WindowOf(e.windows, k)))
    ensures SoundWindow(sch, limits.policy, k, WindowOf(e.windows, k))
  {
    hide PathReturns, SealedGeneration, P.Storable, Acceptable, Canonical, GroupOf, ResealedAll, AllSamples;
    GroupOfAll(sch, limits.policy, e.windows, o.windows, k);
    GroupResealed(sch, AllSamples(e.windows, o.windows), k);
    if k !in e.windows {
      EmptyCanonical();
    }
  }

  lemma EmptyCanonical()
    ensures Canonical([]) == []
  {
  }

  /** A window holds after the restart what it held before exactly when every sample in it carries
      the identity derived from its content, and then it selects what it selected. */
  lemma WindowReturnsIff(sch: Scheme, limits: Limits, e: Engine, o: Order, k: WindowKey)
    requires V.ValidPolicy(limits.policy) && Sound(sch, limits, e, o)
    ensures var restored := RestoredWindow(limits.policy, IntakeOf(sch, e, o).samples, k).samples;
      var before := WindowOf(e.windows, k);
      && (multiset(restored) == multiset(before) <==> AllSealed(sch, before))
      && (AllSealed(sch, before) ==> V.Selected(limits.policy, restored) == V.Selected(limits.policy, before))
  {
    hide Sound, GroupOf, Canonical, SortBy, RestoreLess, V.AddedAll, V.Selected, Sealed, Resealed, SoundWindow,
      IntakeOf, ResealedAll, AllSealed;
    var s := WindowOf(e.windows, k);
    GroupReturns(sch, limits, e, o, k);
    if AllSealed(sch, s) {
      CanonicalSealed(sch, s);
      SealedStay(sch, Canonical(s));
      WindowSurvives(sch, limits.policy, k, s, Canonical(s));
    } else if multiset(RestoredWindow(limits.policy, IntakeOf(sch, e, o).samples, k).samples) == multiset(s) {
      ReturnedAreSealed(sch, limits.policy, k, s);
      assert false;
    }
  }

  lemma CanonicalSealed(sch: Scheme, s: seq<Sample>)
    requires AllSealed(sch, s)
    ensures AllSealed(sch, Canonical(s))
  {
    hide Canonical, Sealed;
    forall i | 0 <= i < |Canonical(s)|
      ensures Sealed(sch, Canonical(s)[i])
    {
      V.SameMembers(s, Canonical(s)[i]);
      assert Canonical(s)[i] in s;
    }
  }

  lemma ReturnedAreSealed(sch: Scheme, policy: V.WindowPolicy, k: WindowKey, s: seq<Sample>)
    requires SoundWindow(sch, policy, k, s)
    requires multiset(V.AddedAll(policy, SortBy(RestoreLess, ResealedAll(sch, Canonical(s)))).samples) == multiset(s)
    ensures AllSealed(sch, s)
  {
    hide Canonical, SortBy, RestoreLess, V.AddedAll, Acceptable, Sealed, Resealed, DistinctIds;
    var resealed := ResealedAll(sch, Canonical(s));
    var sorted := SortBy(RestoreLess, resealed);
    SortMembers(RestoreLess, resealed);
    forall i | 0 <= i < |s|
      ensures Sealed(sch, s[i])
    {
      assert s[i] in multiset(V.AddedAll(policy, sorted).samples);
      V.RetainsOnlyArrivals(policy, sorted, s[i]);
      assert s[i] in multiset(resealed);
      var j :| 0 <= j < |resealed| && resealed[j] == s[i];
      V.SameMembers(s, Canonical(s)[j]);
      assert Canonical(s)[j] in s;
      ReadsResealed(sch, Canonical(s)[j], []);
    }
  }

  /** A restored engine opens exactly the windows that held something, all of them. */
  lemma KeysReturn(sch: Scheme, limits: Limits, e: Engine, o: Order)
    requires Sound(sch, limits, e, o)
    ensures forall k :: k in KeptKeys(IntakeOf(sch, e, o).samples, limits.maxWindows) <==> WindowOf(e.windows, k) != []
    ensures |KeysOf(IntakeOf(sch, e, o).samples)| <= limits.maxWindows
  {
    hide Sound, GroupOf, Canonical, KeysOf, KeysAreOrdered, IntakeOf, ResealedAll, V.KeyOf;
    var samples := IntakeOf(sch, e, o).samples;
    var keys := KeysOf(samples);
    KeysOrdered(samples);
    OrderedDistinct(keys);
    forall k: WindowKey
      ensures k in keys <==> WindowOf(e.windows, k) != []
    {
      GroupReturns(sch, limits, e, o, k);
      GroupIds(samples, k);
      V.CanonicalSize(WindowOf(e.windows, k));
      assert |GroupOf(samples, k)| == |WindowOf(e.windows, k)|;
      if k in keys {
        var s :| s in samples && V.KeyOf(s) == k;
        assert s in GroupOf(samples, k);
      }
      if GroupOf(samples, k) != [] {
        assert GroupOf(samples, k)[0] in GroupOf(samples, k);
      }
    }
    NoMoreThan(keys, e.windows.Keys);
    assert |e.windows.Keys| <= limits.maxWindows by { SoundBound(sch, limits, e, o); }
  }

  lemma SoundGuards(sch: Scheme, limits: Limits, e: Engine, o: Order)
    requires Sound(sch, limits, e, o)
    ensures ListsIds(o.guards, e.guards.Keys) && GuardsSet(e.guards)
  {
  }

  lemma SoundBound(sch: Scheme, limits: Limits, e: Engine, o: Order)
    requires Sound(sch, limits, e, o)
    ensures |e.windows.Keys| <= limits.maxWindows
  {
  }

  lemma {:induction false} NoMoreThan(keys: seq<WindowKey>, all: set<WindowKey>)
    requires forall i, j :: 0 <= i < j < |keys| ==> keys[i] != keys[j]
    requires forall k :: k in keys ==> k in all
    ensures |keys| <= |all|
  {
    if keys != [] {
      var n := |keys| - 1;
      assert keys[n] in all;
      forall k | k in keys[..n]
        ensures k in all - {keys[n]}
      {
        assert k in keys;
      }
      NoMoreThan(keys[..n], all - {keys[n]});
      assert |all - {keys[n]}| == |all| - 1;
    }
  }

  // ---------------------------------------------------------------------------
  // The restart
  // ---------------------------------------------------------------------------

  /** The restart as a whole. Save a sound engine and restore the file, without any repair, into a
      fresh engine with the same configuration: nothing is refused, every path has its history,
      every window that held something is opened again, and each window holds what it held exactly
      when all its samples carry the identity derived from their content; then it selects what it
      selected. Each source has the guard it had exactly when what the restored samples say of it
      does not run ahead of that guard. */
  lemma RestartPreserves(chk: S.Checks, h: S.StoreHeader, sch: Scheme, limits: Limits, e: Engine, o: Order)
    requires V.ValidPolicy(limits.policy) && Sound(sch, limits, e, o)
    requires S.DataCount(Saved(e, o)) < 0x1_0000_0000_0000_0000
    requires T.Reachable(chk, h, ClosedLog(chk, h, Saved(e, o)))
    ensures
      var intake := Recovered(chk, sch, S.Image(chk, h, ClosedLog(chk, h, Saved(e, o))), false);
      && intake.Ok?
      && (forall p: Id :: P.HistoryOf(intake.value.generations, p) == P.HistoryOf(e.generations, p))
      && intake.value.guards == GuardPairs(e.guards, o.guards)
      && (forall source: Id ::
            RestoredGuard(source, intake.value, limits.maxWindows) == F.GuardOf(e.guards, source) <==>
            GuardKept(e, intake.value.samples, source, limits.maxWindows))
      && (forall k :: k in KeptKeys(intake.value.samples, limits.maxWindows) <==> WindowOf(e.windows, k) != [])
      && (forall k: WindowKey :: Returns(sch, limits.policy, intake.value.samples, k, WindowOf(e.windows, k)))
      && intake.value.samples == ResealedAll(sch, AllSamples(e.windows, o.windows))
  {
    hide TakenAll, Saved, S.Image, S.DataCount, T.Reachable, L.Loaded, S.ChainAfter, RecordsOf, AllSamples, GuardPairs;
    hide P.ImportedAll, P.AllGenerations, PathIds, RestoredWindow, V.Selected, P.HistoryOf, Sound, ResealedAll,
      KeptKeys, AllSealed, RestoredGuard, GuardKept, F.GuardOf;
    var rs := Saved(e, o);
    SavedOnlyData(e, o);
    ClosedLogLoads(chk, h, rs);
    var trailer := ClosedLog(chk, h, rs)[|rs|];
    assert ClosedLog(chk, h, rs) == rs + [trailer];
    IntakeOfSaved(sch, limits, e, o, [trailer]);
    TrailerSkipped(sch, IntakeOf(sch, e, o), trailer);
    HistoriesReturn(sch, limits, e, o);
    KeysReturn(sch, limits, e, o);
    forall source: Id
      ensures RestoredGuard(source, IntakeOf(sch, e, o), limits.maxWindows) == F.GuardOf(e.guards, source) <==>
        GuardKept(e, IntakeOf(sch, e, o).samples, source, limits.maxWindows)
    {
      SoundGuards(sch, limits, e, o);
      EachGuardReturnsIff(sch, e, o, source, limits.maxWindows);
    }
    forall k: WindowKey
      ensures Returns(sch, limits.policy, IntakeOf(sch, e, o).samples, k, WindowOf(e.windows, k))
    {
      WindowReturnsIff(sch, limits, e, o, k);
    }
  }

  /** The restored window of a key holds the samples it held before exactly when they were all
      sealed, and then selects the same. */
  ghost predicate Returns(sch: Scheme, policy: V.WindowPolicy, samples: seq<Sample>, k: WindowKey, before: seq<Sample>)
    requires V.ValidPolicy(policy)
  {
    var restored := RestoredWindow(policy, samples, k).samples;
    && (multiset(restored) == multiset(before) <==> AllSealed(sch, before))
    && (AllSealed(sch, before) ==> V.Selected(policy, restored) == V.Selected(policy, before))
  }

  // ---------------------------------------------------------------------------
  // Engines that are reached
  // ---------------------------------------------------------------------------

  /** An engine after a stream of batches and, path by path, a run of route events. */
  ghost predicate Reached(c: I.Config, ds: seq<I.Delivery>, es: map<Id, seq<P.Event>>, e: Engine) {
    && e.windows.Keys == I.Run(c, ds).windows.Keys
    && (forall k :: k in e.windows ==> e.windows[k] == I.Run(c, ds).windows[k].samples)
    && e.guards == I.Run(c, ds).guards
    && (forall p: Id :: p in e.generations ==>
          && p in es && p in PathIds(e.paths)
          && e.generations[p] == P.Retained(c.sch, p, es[p]))
  }

  /** Whatever was delivered and however the routes changed, the engine is one the restart theorem
      speaks about. What is asked of the inputs is what the program's types and bounds say: texts
      and counts that fit, and registered paths that read back. */
  lemma ReachedIsSound(c: I.Config, ds: seq<I.Delivery>, es: map<Id, seq<P.Event>>, e: Engine, o: Order)
    requires Reached(c, ds, es, e) && I.Representable(ds)
    requires forall p: Id :: p in es ==> |es[p]| < P.MAX_ORDINAL && P.TextsFit(es[p])
    requires forall i :: 0 <= i < |e.paths| ==> PathReturns(c.sch, e.paths[i])
    requires ListsIds(o.paths, e.generations.Keys) && ListsKeys(o.windows, e.windows.Keys)
    requires ListsIds(o.guards, e.guards.Keys)
    ensures Sound(c.sch, Limits(c.policy, c.maxWindows), e, o)
  {
    hide I.Run, P.Retained, PathReturns, SoundHistory, SoundWindow, V.KeptFor, P.TextsFit, I.Representable;
    I.RunKeepsWindows(c, ds);
    I.GuardsAreSet(c, ds);
    forall p: Id | p in e.generations
      ensures SoundHistory(c.sch, PathIds(e.paths), p, e.generations[p])
    {
      HistoryIsSound(c.sch, PathIds(e.paths), p, es[p]);
    }
    forall k: WindowKey | k in e.windows
      ensures SoundWindow(c.sch, c.policy, k, e.windows[k])
    {
      WindowIsSound(c, ds, k);
    }
  }

  lemma HistoryIsSound(sch: Scheme, paths: set<Id>, p: Id, es: seq<P.Event>)
    requires p in paths && |es| < P.MAX_ORDINAL && P.TextsFit(es)
    ensures SoundHistory(sch, paths, p, P.Retained(sch, p, es))
  {
    hide P.Retained, P.GenerationId;
    P.RunStorable(sch, p, es);
    P.RunSealed(sch, p, es);
  }

  lemma WindowIsSound(c: I.Config, ds: seq<I.Delivery>, k: WindowKey)
    requires k in I.Run(c, ds).windows && I.Representable(ds)
    ensures SoundWindow(c.sch, c.policy, k, I.Run(c, ds).windows[k].samples)
  {
    hide I.Run, SampleRefusal, KeysAscend, ProvenanceFits;
    I.RunKeepsWindows(c, ds);
    var s := I.Run(c, ds).windows[k].samples;
    forall i | 0 <= i < |s|
      ensures Acceptable(c.sch, s[i])
    {
      var n := I.RetainsDelivered(c, ds, k, s[i]);
      var m :| 0 <= m < |ds[n].batch.samples| && ds[n].batch.samples[m] == s[i];
      assert I.Holdable(ds[n].batch.samples[m]);
    }
  }

  /** When every delivered sample carries its derived identity, so does every retained one: no
      window of such an engine changes over a restart. */
  lemma DeliveredSealed(c: I.Config, ds: seq<I.Delivery>, k: WindowKey)
    requires k in I.Run(c, ds).windows
    requires forall i :: 0 <= i < |ds| ==> AllSealed(c.sch, ds[i].batch.samples)
    ensures AllSealed(c.sch, I.Run(c, ds).windows[k].samples)
  {
    hide I.Run, Sealed;
    var s := I.Run(c, ds).windows[k].samples;
    forall i | 0 <= i < |s|
      ensures Sealed(c.sch, s[i])
    {
      var n := I.RetainsDelivered(c, ds, k, s[i]);
    }
  }

  /** From the first batch to the restart: whatever batches with derived identities were delivered,
      in whatever order, accepted or not, and however the routes changed, a saved engine that is
      restored has the route history of every path, selects what it selected from every window, and
      gives a source the guard the run left exactly when the retained samples do not run ahead of
      it. */
  lemma ReachedEngineReturns(chk: S.Checks, h: S.StoreHeader, c: I.Config, ds: seq<I.Delivery>,
                             es: map<Id, seq<P.Event>>, e: Engine, o: Order)
    requires V.ValidPolicy(c.policy) && Reached(c, ds, es, e)
    requires forall i :: 0 <= i < |ds| ==> AllSealed(c.sch, ds[i].batch.samples)
    requires forall p: Id :: p in es ==> |es[p]| < P.MAX_ORDINAL && P.TextsFit(es[p])
    requires forall i :: 0 <= i < |e.paths| ==> PathReturns(c.sch, e.paths[i])
    requires ListsIds(o.paths, e.generations.Keys) && ListsKeys(o.windows, e.windows.Keys)
    requires ListsIds(o.guards, e.guards.Keys)
    requires S.DataCount(Saved(e, o)) < 0x1_0000_0000_0000_0000
    requires T.Reachable(chk, h, ClosedLog(chk, h, Saved(e, o)))
    ensures
      var intake := Recovered(chk, c.sch, S.Image(chk, h, ClosedLog(chk, h, Saved(e, o))), false);
      && intake.Ok?
      && (forall p: Id :: p in e.generations ==>
            P.HistoryOf(intake.value.generations, p) == P.Retained(c.sch, p, es[p]))
      && (forall source: Id ::
            RestoredGuard(source, intake.value, c.maxWindows) == F.GuardOf(I.Run(c, ds).guards, source) <==>
            GuardKept(e, intake.value.samples, source, c.maxWindows))
      && (forall k: WindowKey :: k in e.windows ==>
            V.Selected(c.policy, RestoredWindow(c.policy, intake.value.samples, k).samples)
              == V.Selected(c.policy, I.Run(c, ds).windows[k].samples))
  {
    hide RestoredGuard, GuardKept, F.GuardOf;
    hide I.Run, P.Retained, PathReturns, Sealed, RestoredWindow, V.Selected, Saved, S.Image, T.Reachable, Recovered,
      S.DataCount, ClosedLog, ListsIds, ListsKeys, Sound, P.TextsFit, KeptKeys, ResealedAll, AllSamples, GuardPairs,
      AllSealed;
    assert I.Representable(ds) by {
      SealedAreRepresentable(c.sch, ds);
    }
    ReachedIsSound(c, ds, es, e, o);
    RestartPreserves(chk, h, c.sch, Limits(c.policy, c.maxWindows), e, o);
    var samples := Recovered(chk, c.sch, S.Image(chk, h, ClosedLog(chk, h, Saved(e, o))), false).value.samples;
    assert e.guards == I.Run(c, ds).guards;
    assert forall p: Id :: p in e.generations ==> P.HistoryOf(e.generations, p) == P.Retained(c.sch, p, es[p]);
    assert forall k: WindowKey :: k in e.windows ==>
      k in I.Run(c, ds).windows && WindowOf(e.windows, k) == I.Run(c, ds).windows[k].samples;
    hide Recovered, Returns, Reached, P.HistoryOf, WindowOf;
    forall k: WindowKey | k in e.windows
      ensures V.Selected(c.policy, RestoredWindow(c.policy, samples, k).samples)
        == V.Selected(c.policy, I.Run(c, ds).windows[k].samples)
    {
      assert Returns(c.sch, c.policy, samples, k, WindowOf(e.windows, k));
      DeliveredReturns(c, ds, k, samples);
    }
  }

  lemma DeliveredReturns(c: I.Config, ds: seq<I.Delivery>, k: WindowKey, samples: seq<Sample>)
    requires V.ValidPolicy(c.policy) && k in I.Run(c, ds).windows
    requires forall i :: 0 <= i < |ds| ==> AllSealed(c.sch, ds[i].batch.samples)
    requires Returns(c.sch, c.policy, samples, k, I.Run(c, ds).windows[k].samples)
    ensures V.Selected(c.policy, RestoredWindow(c.policy, samples, k).samples)
      == V.Selected(c.policy, I.Run(c, ds).windows[k].samples)
  {
    hide I.Run, Sealed, RestoredWindow, V.Selected;
    DeliveredSealed(c, ds, k);
  }

  lemma SealedAreRepresentable(sch: Scheme, ds: seq<I.Delivery>)
    requires forall i :: 0 <= i < |ds| ==> AllSealed(sch, ds[i].batch.samples)
    ensures I.Representable(ds)
  {
    hide SampleRefusal, KeysAscend, ProvenanceFits, ContentOf;
    forall i, j | 0 <= i < |ds| && 0 <= j < |ds[i].batch.samples|
      ensures I.Holdable(ds[i].batch.samples[j])
    {
      assert Sealed(sch, ds[i].batch.samples[j]);
    }
  }

  // ---------------------------------------------------------------------------
  // Evidence after the restart
  // ---------------------------------------------------------------------------

  /** While the configuration does not admit persisted evidence, nothing a restored window selects
      is fresh, at any time, under any clock model and freshness policy. */
  lemma RestoredNeverFresh(
    limits: Limits, samples: seq<Sample>, k: WindowKey, x: Sample,
    m: Clocks.ClockModel, localClock: Id, now: I64, freshness: E.FreshnessPolicy)
    requires V.ValidPolicy(limits.policy) && k in KeptKeys(samples, limits.maxWindows)
    requires x in V.Selected(limits.policy, RestoredWindow(limits.policy, samples, k).samples)
    ensures E.EngineAssessed(x, m, localClock, now, freshness, false,
                             IdsIn(samples, KeptKeys(samples, limits.maxWindows))).Stale?
  {
    hide V.Selected, V.AddedAll, SortBy, GroupOf, E.Assessed, RestoreLess, KeptKeys;
    var group := GroupOf(samples, k);
    var order := SortBy(RestoreLess, group);
    V.SelectedMember(limits.policy, RestoredWindow(limits.policy, samples, k).samples, x);
    V.RetainsOnlyArrivals(limits.policy, order, x);
    SortMembers(RestoreLess, group);
    assert x in multiset(order);
    assert x in group;
    GroupIds(samples, k);
  }
}
