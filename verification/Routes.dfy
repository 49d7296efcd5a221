/** Route generations and episodes coupled, as the engine drives them (src/engine.cpp): every open
    episode lies in the generation currently open on its series' path, and openings balance
    closings. */
module Routes {
  import opened Errors
  import opened CanonicalBytes
  import opened RecordForms
  import P = Paths
  import opened Episodes

  /** Only the last generation of a path can be open. */
  ghost predicate OnlyLastOpen(h: seq<P.Generation>) {
    forall i :: 0 <= i < |h| - 1 ==> h[i].closedAt.Some?
  }

  /** find_generation: the first generation carrying the identity. */
  function Find(h: seq<P.Generation>, id: Id): Option<P.Generation> {
    if h == [] then None else if h[0].id == id then Some(h[0]) else Find(h[1..], id)
  }

  /** is_current: the generation found is still open. */
  function IsCurrent(h: seq<P.Generation>, id: Id): bool {
    Find(h, id).Some? && Find(h, id).value.closedAt.None?
  }

  /** The look-up in the whole catalog, path after path. */
  function FindIn(gs: map<Id, seq<P.Generation>>, order: seq<Id>, id: Id): Option<P.Generation> {
    if order == [] then None
    else
      var found := Find(P.HistoryOf(gs, order[0]), id);
      if found.Some? then found else FindIn(gs, order[1..], id)
  }

  function CurrentIn(gs: map<Id, seq<P.Generation>>, order: seq<Id>, id: Id): bool {
    FindIn(gs, order, id).Some? && FindIn(gs, order, id).value.closedAt.None?
  }

  /** Every generation is kept under its own path. */
  ghost predicate OwnPaths(gs: map<Id, seq<P.Generation>>) {
    forall p: Id :: OwnPath(P.HistoryOf(gs, p), p)
  }

  ghost predicate OwnPath(h: seq<P.Generation>, p: Id) {
    forall i :: 0 <= i < |h| ==> h[i].path == p
  }

  lemma {:induction false} FoundOnPath(h: seq<P.Generation>, p: Id, id: Id)
    requires OwnPath(h, p)
    ensures Find(h, id).Some? ==> Find(h, id).value.path == p
  {
    if h != [] {
      FoundOnPath(h[1..], p, id);
    }
  }

  lemma {:induction false} FoundSomewhere(gs: map<Id, seq<P.Generation>>, order: seq<Id>, id: Id)
    requires OwnPaths(gs)
    ensures match FindIn(gs, order, id)
      case Some(g) => Find(P.HistoryOf(gs, g.path), id) == Some(g)
      case None => forall p :: p in order ==> Find(P.HistoryOf(gs, p), id) == None
  {
    hide OwnPath, P.HistoryOf;
    if order != [] {
      FoundOnPath(P.HistoryOf(gs, order[0]), order[0], id);
      FoundSomewhere(gs, order[1..], id);
      assert order == [order[0]] + order[1..];
    }
  }

  /** When an identity names no generation of another path, looking it up in the whole catalog is
      looking it up on the path. */
  lemma LookupIsLocal(gs: map<Id, seq<P.Generation>>, order: seq<Id>, path: Id, id: Id)
    requires OwnPaths(gs) && forall p: Id :: p in gs ==> p in order
    requires FoundOn(gs, order, id, path)
    ensures CurrentIn(gs, order, id) == IsCurrent(P.HistoryOf(gs, path), id)
  {
    FoundSomewhere(gs, order, id);
  }

  lemma {:induction false} CurrentIsLast(h: seq<P.Generation>, id: Id)
    requires OnlyLastOpen(h) && IsCurrent(h, id)
    ensures h != [] && P.Last(h).id == id && P.Last(h).closedAt.None?
  {
    if h[0].id != id {
      assert forall i :: 0 <= i < |h[1..]| - 1 ==> h[1..][i] == h[i + 1];
      CurrentIsLast(h[1..], id);
    }
  }

  /** The open generation of a history, if it has one, carries this identity. */
  ghost predicate OpenIs(h: seq<P.Generation>, id: Id) {
    h != [] && P.Last(h).closedAt.None? && P.Last(h).id == id
  }

  /** Only last generations are open, and every open episode lies in the generation currently open
      on the path of its series. */
  ghost predicate Coupled(gs: map<Id, seq<P.Generation>>, series: map<Id, Id>, open: map<EpisodeKey, Episode>) {
    OnlyLasts(gs) && AllInForce(gs, series, open)
  }

  ghost predicate OnlyLasts(gs: map<Id, seq<P.Generation>>) {
    forall p: Id :: OnlyLastOpen(P.HistoryOf(gs, p))
  }

  ghost predicate AllInForce(gs: map<Id, seq<P.Generation>>, series: map<Id, Id>, open: map<EpisodeKey, Episode>) {
    forall k :: k in open ==> InForce(gs, series, k)
  }

  ghost predicate Registered(series: map<Id, Id>, open: map<EpisodeKey, Episode>) {
    forall k: EpisodeKey :: k in open ==> k.series in series
  }

  /** The catalog after a topology was observed on a path. */
  ghost predicate Regrown(
    sch: Scheme, before: map<Id, seq<P.Generation>>, after: map<Id, seq<P.Generation>>, path: Id, t: P.Topology,
    now: I64, cause: Bytes)
  {
    && (forall p: Id :: p != path ==> P.HistoryOf(after, p) == P.HistoryOf(before, p))
    && P.HistoryOf(after, path) == P.HistoryAfter(sch, path, P.HistoryOf(before, path), t, now, cause)
  }

  ghost predicate InForce(gs: map<Id, seq<P.Generation>>, series: map<Id, Id>, k: EpisodeKey) {
    k.series in series && OpenIs(P.HistoryOf(gs, series[k.series]), k.generation)
  }

  /** Whether an opening generation on a path leaves the episode of a key open. */
  predicate Spared(k: EpisodeKey, series: map<Id, Id>, path: Id, generation: Id, policy: Id, window: Id) {
    k.series in series && series[k.series] == path ==>
      k.generation == generation && k.policy == policy && k.window == window
  }

  ghost function SparedOf(
    open: map<EpisodeKey, Episode>, series: map<Id, Id>, path: Id, generation: Id, policy: Id, window: Id
  ): map<EpisodeKey, Episode> {
    map k | k in open && Spared(k, series, path, generation, policy, window) :: open[k]
  }

  /** The engine's slice: the catalog, the episode log, which path each series lies on, and the two
      counters. */
  class RouteEngine {
    const catalog: P.PathCatalog
    const episodes: EpisodeLog
    const policy: Id
    const window: Id
    var series: map<Id, Id>
    var episodesOpened: nat
    var episodesClosed: nat

    /** What every operation keeps, whatever it is given. */
    ghost predicate Sane()
      reads this, catalog, episodes
    {
      && episodes.Valid()
      && OwnPaths(catalog.generations) && OnlyLasts(catalog.generations)
      && Registered(series, episodes.open)
      && episodesOpened == episodesClosed + |episodes.open|
    }

    /** Beyond that, every open episode lies in the generation in force on its series' path. */
    ghost predicate Valid()
      reads this, catalog, episodes
    {
      Sane() && AllInForce(catalog.generations, series, episodes.open)
    }

    constructor (sch: Scheme, naming: Naming, policy: Id, window: Id)
      ensures Valid() && fresh(catalog) && fresh(episodes) && catalog.sch == sch
      ensures series == map[] && episodesOpened == 0 && episodesClosed == 0
    {
      catalog := new P.PathCatalog(sch);
      episodes := new EpisodeLog(naming);
      this.policy, this.window := policy, window;
      series := map[];
      episodesOpened, episodesClosed := 0, 0;
    }

    // A series joins a path once; it has no episodes before that.
    method RegisterSeries(id: Id, path: Id)
      requires Sane()
      modifies this`series
      ensures Sane() && (old(Valid()) ==> Valid())
      ensures series == if id in old(series) then old(series) else old(series)[id := path]
    {
      hide EpisodeLog.Valid, OpenIs, OnlyLasts, OwnPaths;
      if id !in series {
        series := series[id := path];
      }
    }

    /** A new generation also brings back in step whatever was out of it on its path. */
    method ObserveTopology(path: Id, t: P.Topology, now: I64, cause: Bytes) returns (r: Result<(P.Generation, bool)>)
      requires Sane()
      modifies this`episodesClosed, catalog`generations, episodes
      ensures Sane() && (old(Valid()) ==> Valid())
      ensures r.Ok? ==> Regrown(catalog.sch, old(catalog.generations), catalog.generations, path, t, now, cause)
      ensures r.Err? ==> catalog.generations == old(catalog.generations)
      ensures episodes.open == if r.Ok? && r.value.1
        then SparedOf(old(episodes.open), series, path, r.value.0.id, policy, window) else old(episodes.open)
      ensures r.Ok? && r.value.1 ==> forall k :: k in episodes.open && series[k.series] == path ==>
        InForce(catalog.generations, series, k)
    {
      hide P.Grown, P.HistoryAfter, EpisodeLog.Valid, SparedOf, OwnPaths, OnlyLasts, Registered, AllInForce, InForce;
      r := catalog.ObserveTopology(path, t, now, cause);
      if r.Ok? {
        ghost var before, open := old(catalog.generations), old(episodes.open);
        TopologyKeepsOwnPaths(catalog.sch, before, catalog.generations, path, t, now, cause);
        if r.value.1 {
          RetireSeries(path, r.value.0.id, now);
          SparedIsRegistered(open, series, path, r.value.0.id, policy, window);
          SparedIsInForce(catalog.sch, before, catalog.generations, series, open, path, t, now, cause, policy, window);
        }
        if old(Valid()) {
          TopologyKeepsCoupled(catalog.sch, before, catalog.generations, series, open, path, t, now, cause,
                               policy, window);
        }
      }
    }

    /** Hops registered for a path that had none: a topology observed at time zero, with nothing
        retired. Of a coupled engine it breaks the coupling exactly when it opens a generation under
        an open episode of a series on the path. */
    method RegisterLateHops(path: Id, t: P.Topology, cause: Bytes) returns (r: Result<(P.Generation, bool)>)
      requires Sane()
      modifies catalog`generations
      ensures Sane()
      ensures r.Ok? ==> Regrown(catalog.sch, old(catalog.generations), catalog.generations, path, t, 0, cause)
      ensures r.Err? ==> catalog.generations == old(catalog.generations)
      ensures old(Valid()) ==> (Valid() <==>
        (r.Ok? && r.value.1 ==> NoneUnder(series, episodes.open, path, r.value.0.id)))
    {
      hide P.Grown, P.HistoryAfter, EpisodeLog.Valid, OwnPaths, OnlyLasts, Registered, AllInForce, InForce, NoneUnder;
      r := catalog.ObserveTopology(path, t, 0, cause);
      if r.Ok? {
        ghost var before := old(catalog.generations);
        TopologyKeepsOwnPaths(catalog.sch, before, catalog.generations, path, t, 0, cause);
        if old(Valid()) {
          LateHopsUncouple(catalog.sch, before, catalog.generations, series, episodes.open, path, t, 0, cause);
        }
      }
    }

    // The loop over the registered series: those on the path retire what is not current.
    method RetireSeries(path: Id, generation: Id, now: I64)
      requires episodes.Valid() && episodesOpened == episodesClosed + |episodes.open|
      modifies this`episodesClosed, episodes
      ensures episodes.Valid() && episodesOpened == episodesClosed + |episodes.open|
      ensures episodes.open == SparedOf(old(episodes.open), series, path, generation, policy, window)
    {
      hide EpisodeLog.Valid, RetireReason, SparedOf;
      var pending := series.Keys;
      SparedAtStart(episodes.open, series, path, generation, policy, window);
      while pending != {}
        invariant pending <= series.Keys
        invariant episodes.Valid() && episodesOpened == episodesClosed + |episodes.open|
        invariant episodes.open == SparedOf(old(episodes.open), series - pending, path, generation, policy, window)
        decreases |pending|
      {
        var s :| s in pending;
        ghost var done := series - pending;
        ghost var before := episodes.open;
        pending := pending - {s};
        if series[s] == path {
          var closedNow := episodes.Retire(s, generation, policy, window, now);
          episodesClosed := episodesClosed + |closedNow|;
        }
        assert series - pending == done[s := series[s]];
        SparedNext(old(episodes.open), before, episodes.open, done, s, series[s], path, generation, policy, window);
      }
      assert series - {} == series;
    }

    /** The episode part of summarize: the engine, not the caller, says whether the generation is
        current, by looking it up in the whole catalog, walked in some order of its paths. Of a
        coupled engine that keeps the coupling exactly when no episode is left open in a generation
        that is not the one in force on the path of the series; a generation found on that path
        always is. */
    method Track(c: Classified, now: I64, ghost order: seq<Id>) returns (u: Update)
      requires Sane()
      requires c.key.series in series && forall p: Id :: p in catalog.generations ==> p in order
      requires c.current == CurrentIn(catalog.generations, order, c.key.generation)
      modifies this`episodesOpened, this`episodesClosed, episodes
      ensures Sane()
      ensures u == Observed(episodes.naming, Slot(old(episodes.open), c.key), c, now)
      ensures episodes.open == WithSlot(old(episodes.open), c.key, u.slot)
      ensures old(Valid()) ==>
        (Valid() <==> (u.slot.Some? ==> InForce(catalog.generations, series, c.key)))
      ensures old(Valid()) && FoundOn(catalog.generations, order, c.key.generation, series[c.key.series]) ==> Valid()
    {
      hide EpisodeLog.Valid, Observed, WithSlot, OwnPaths, OnlyLasts, Registered, AllInForce, InForce, CurrentIn,
        FoundOn;
      u := episodes.Observe(c, now);
      if u.started.Some? {
        episodesOpened := episodesOpened + 1;
      }
      if u.closed.Some? {
        episodesClosed := episodesClosed + 1;
      }
      SlotCounts(episodes.naming, old(episodes.open), c, now);
      TrackRegistered(series, old(episodes.open), c.key, u.slot);
      if old(Valid()) {
        TrackCoupledIff(catalog.generations, series, old(episodes.open), c.key, u.slot);
        if FoundOn(catalog.generations, order, c.key.generation, series[c.key.series]) {
          TrackKeepsCoupled(episodes.naming, catalog.generations, order, series, old(episodes.open), c, now);
        }
      }
    }

    method BumpRevision(path: Id, cause: Bytes) returns (status: Status)
      requires Sane()
      modifies catalog`generations
      ensures Sane() && (old(Valid()) ==> Valid())
      ensures P.HistoryOf(catalog.generations, path) == P.Revised(P.HistoryOf(old(catalog.generations), path), cause)
    {
      hide EpisodeLog.Valid, OwnPaths, OnlyLasts, Registered, AllInForce;
      status := catalog.BumpRevision(path, cause);
      RevisionKeepsOwnPaths(old(catalog.generations), catalog.generations, path, cause);
      if old(Valid()) {
        RevisionKeepsCoupled(old(catalog.generations), catalog.generations, series, episodes.open, path, cause);
      }
    }
  }

  /** No open episode of a series on the path lies in another generation than this one. */
  ghost predicate NoneUnder(series: map<Id, Id>, open: map<EpisodeKey, Episode>, path: Id, generation: Id) {
    forall k: EpisodeKey :: k in open && k.series in series && series[k.series] == path ==> k.generation == generation
  }

  /** A look-up in the whole catalog finds the identity on this path, or nowhere. */
  predicate FoundOn(gs: map<Id, seq<P.Generation>>, order: seq<Id>, id: Id, path: Id) {
    FindIn(gs, order, id).Some? ==> FindIn(gs, order, id).value.path == path
  }

  // ---------------------------------------------------------------------------
  // Each step keeps the coupling
  // ---------------------------------------------------------------------------

  lemma SparedAtStart(
    open: map<EpisodeKey, Episode>, series: map<Id, Id>, path: Id, generation: Id, policy: Id, window: Id)
    ensures open == SparedOf(open, series - series.Keys, path, generation, policy, window)
  {
  }

  /** Retiring one more series: those on the path lose what is not current, the others nothing. */
  lemma SparedNext(
    start: map<EpisodeKey, Episode>, before: map<EpisodeKey, Episode>, after: map<EpisodeKey, Episode>,
    done: map<Id, Id>, s: Id, on: Id, path: Id, generation: Id, policy: Id, window: Id)
    requires before == SparedOf(start, done, path, generation, policy, window) && s !in done
    requires after == if on == path
      then map k | k in before && RetireReason(k, s, generation, policy, window).NotClosed? :: before[k] else before
    ensures after == SparedOf(start, done[s := on], path, generation, policy, window)
  {
    var goal := SparedOf(start, done[s := on], path, generation, policy, window);
    forall k: EpisodeKey
      ensures k in after <==> k in goal
    {
    }
  }

  lemma TopologyKeepsCoupled(
    sch: Scheme, before: map<Id, seq<P.Generation>>, after: map<Id, seq<P.Generation>>, series: map<Id, Id>,
    open: map<EpisodeKey, Episode>, path: Id, t: P.Topology, now: I64, cause: Bytes, policy: Id, window: Id)
    requires Coupled(before, series, open) && Regrown(sch, before, after, path, t, now, cause)
    ensures var h := P.HistoryOf(before, path);
      var grown := P.Grown(sch, path, h, t, now, cause);
      Coupled(after, series,
              if grown != h then SparedOf(open, series, path, P.Last(grown).id, policy, window) else open)
  {
    hide P.Grown, OnlyLastOpen, OpenIs, P.HistoryOf;
    GrownKeepsOpen(sch, path, P.HistoryOf(before, path), t, now, cause);
    forall p: Id
      ensures OnlyLastOpen(P.HistoryOf(after, p))
    {
      if p != path {
        assert P.HistoryOf(after, p) == P.HistoryOf(before, p);
      }
    }
  }

  lemma TopologyKeepsOwnPaths(
    sch: Scheme, before: map<Id, seq<P.Generation>>, after: map<Id, seq<P.Generation>>, path: Id, t: P.Topology,
    now: I64, cause: Bytes)
    requires OwnPaths(before) && OnlyLasts(before) && Regrown(sch, before, after, path, t, now, cause)
    ensures OwnPaths(after) && OnlyLasts(after)
  {
    hide OwnPath, P.HistoryOf, P.HistoryAfter, OnlyLastOpen;
    GrownOnPath(sch, path, P.HistoryOf(before, path), t, now, cause);
    GrownKeepsOpen(sch, path, P.HistoryOf(before, path), t, now, cause);
    forall p: Id
      ensures OwnPath(P.HistoryOf(after, p), p) && OnlyLastOpen(P.HistoryOf(after, p))
    {
      assert OwnPath(P.HistoryOf(before, p), p) && OnlyLastOpen(P.HistoryOf(before, p));
    }
  }

  lemma SparedIsRegistered(
    open: map<EpisodeKey, Episode>, series: map<Id, Id>, path: Id, generation: Id, policy: Id, window: Id)
    requires Registered(series, open)
    ensures Registered(series, SparedOf(open, series, path, generation, policy, window))
  {
  }

  /** Whatever was open before, what a new generation spares on its path lies in it. */
  lemma SparedIsInForce(
    sch: Scheme, before: map<Id, seq<P.Generation>>, after: map<Id, seq<P.Generation>>, series: map<Id, Id>,
    open: map<EpisodeKey, Episode>, path: Id, t: P.Topology, now: I64, cause: Bytes, policy: Id, window: Id)
    requires OnlyLasts(before) && Registered(series, open) && Regrown(sch, before, after, path, t, now, cause)
    requires P.Grown(sch, path, P.HistoryOf(before, path), t, now, cause) != P.HistoryOf(before, path)
    ensures var grown := P.Grown(sch, path, P.HistoryOf(before, path), t, now, cause);
      var spared := SparedOf(open, series, path, P.Last(grown).id, policy, window);
      forall k: EpisodeKey :: k in spared && series[k.series] == path ==> InForce(after, series, k)
  {
    hide P.Grown, OnlyLastOpen, OpenIs, P.HistoryOf, P.HistoryAfter;
    GrownKeepsOpen(sch, path, P.HistoryOf(before, path), t, now, cause);
  }

  /** A topology observed with nothing retired keeps a coupled engine coupled exactly when it opens
      no generation, or no open episode of a series on the path lies under it. */
  lemma LateHopsUncouple(
    sch: Scheme, before: map<Id, seq<P.Generation>>, after: map<Id, seq<P.Generation>>, series: map<Id, Id>,
    open: map<EpisodeKey, Episode>, path: Id, t: P.Topology, now: I64, cause: Bytes)
    requires Coupled(before, series, open) && Regrown(sch, before, after, path, t, now, cause)
    ensures var h := P.HistoryOf(before, path); var grown := P.Grown(sch, path, h, t, now, cause);
      AllInForce(after, series, open) <==> (grown != h ==> NoneUnder(series, open, path, P.Last(grown).id))
  {
    hide P.Grown, OnlyLastOpen, P.HistoryOf;
    var h := P.HistoryOf(before, path);
    var grown := P.Grown(sch, path, h, t, now, cause);
    GrownKeepsOpen(sch, path, h, t, now, cause);
    forall k: EpisodeKey | k in open
      ensures InForce(after, series, k) <==>
        (grown != h && series[k.series] == path ==> k.generation == P.Last(grown).id)
    {
      assert InForce(before, series, k);
    }
    hide InForce;
  }

  lemma TrackRegistered(series: map<Id, Id>, open: map<EpisodeKey, Episode>, key: EpisodeKey, slot: Option<Episode>)
    requires Registered(series, open) && key.series in series
    ensures Registered(series, WithSlot(open, key, slot))
  {
  }

  lemma TrackCoupledIff(gs: map<Id, seq<P.Generation>>, series: map<Id, Id>, open: map<EpisodeKey, Episode>,
                        key: EpisodeKey, slot: Option<Episode>)
    requires AllInForce(gs, series, open)
    ensures AllInForce(gs, series, WithSlot(open, key, slot)) <==> (slot.Some? ==> InForce(gs, series, key))
  {
    hide InForce;
    if slot.Some? {
      assert key in WithSlot(open, key, slot);
    }
  }

  lemma GrownOnPath(sch: Scheme, path: Id, h: seq<P.Generation>, t: P.Topology, now: I64, cause: Bytes)
    requires OwnPath(h, path)
    ensures OwnPath(P.HistoryAfter(sch, path, h, t, now, cause), path)
  {
    hide P.GenerationId, P.TopologyChanged;
  }

  lemma RevisionKeepsOwnPaths(
    before: map<Id, seq<P.Generation>>, after: map<Id, seq<P.Generation>>, path: Id, cause: Bytes)
    requires OwnPaths(before) && OnlyLasts(before)
    requires after == (if P.HistoryOf(before, path) == [] then before
                       else before[path := P.Revised(P.HistoryOf(before, path), cause)])
    ensures OwnPaths(after) && OnlyLasts(after)
  {
    hide P.Next, OnlyLastOpen;
    RevisedKeepsOpen(P.HistoryOf(before, path), cause);
    forall p: Id
      ensures OwnPath(P.HistoryOf(after, p), p) && OnlyLastOpen(P.HistoryOf(after, p))
    {
      assert OwnPath(P.HistoryOf(before, p), p) && OnlyLastOpen(P.HistoryOf(before, p));
    }
  }

  lemma TrackKeepsCoupled(
    n: Naming, gs: map<Id, seq<P.Generation>>, order: seq<Id>, series: map<Id, Id>, open: map<EpisodeKey, Episode>,
    c: Classified, now: I64)
    requires Coupled(gs, series, open) && OwnPaths(gs) && c.key.series in series
    requires forall p: Id :: p in gs ==> p in order
    requires c.current == CurrentIn(gs, order, c.key.generation)
    requires FoundOn(gs, order, c.key.generation, series[c.key.series])
    ensures Coupled(gs, series, WithSlot(open, c.key, Observed(n, Slot(open, c.key), c, now).slot))
  {
    hide EpisodeId, OnlyLastOpen, IsCurrent, Observed, CurrentIn, OwnPaths, FoundOn;
    LookupIsLocal(gs, order, series[c.key.series], c.key.generation);
    SlotNeedsCurrent(n, Slot(open, c.key), c, now);
    if c.current {
      CurrentIsLast(P.HistoryOf(gs, series[c.key.series]), c.key.generation);
    }
  }

  lemma SlotNeedsCurrent(n: Naming, slot: Option<Episode>, c: Classified, now: I64)
    ensures Observed(n, slot, c, now).slot.Some? ==> c.current
  {
    hide EpisodeId;
  }

  lemma RevisionKeepsCoupled(
    before: map<Id, seq<P.Generation>>, after: map<Id, seq<P.Generation>>, series: map<Id, Id>,
    open: map<EpisodeKey, Episode>, path: Id, cause: Bytes)
    requires Coupled(before, series, open)
    requires after == (if P.HistoryOf(before, path) == [] then before
                       else before[path := P.Revised(P.HistoryOf(before, path), cause)])
    ensures Coupled(after, series, open)
  {
    hide P.Revised, OnlyLastOpen, OpenIs;
    RevisedKeepsOpen(P.HistoryOf(before, path), cause);
    forall p: Id
      ensures OnlyLastOpen(P.HistoryOf(after, p))
      ensures forall id: Id :: OpenIs(P.HistoryOf(before, p), id) ==> OpenIs(P.HistoryOf(after, p), id)
    {
      assert OnlyLastOpen(P.HistoryOf(before, p));
    }
  }

  lemma GrownKeepsOpen(sch: Scheme, path: Id, h: seq<P.Generation>, t: P.Topology, now: I64, cause: Bytes)
    requires OnlyLastOpen(h)
    ensures OnlyLastOpen(P.HistoryAfter(sch, path, h, t, now, cause))
    ensures P.Grown(sch, path, h, t, now, cause) != h ==>
      && P.Grown(sch, path, h, t, now, cause) != []
      && OpenIs(P.HistoryAfter(sch, path, h, t, now, cause), P.Last(P.Grown(sch, path, h, t, now, cause)).id)
  {
    hide P.GenerationId, P.TopologyChanged, P.Later;
    var grown := P.Grown(sch, path, h, t, now, cause);
    var kept := P.HistoryAfter(sch, path, h, t, now, cause);
    if grown != h {
      var k := |grown| - |kept|;
      assert kept == grown[k..];
      assert forall i :: 0 <= i < |grown| - 1 ==> grown[i].closedAt.Some?;
      assert forall i :: 0 <= i < |kept| ==> kept[i] == grown[k + i];
      assert P.Last(kept) == P.Last(grown);
    }
  }

  lemma RevisedKeepsOpen(h: seq<P.Generation>, cause: Bytes)
    requires OnlyLastOpen(h)
    ensures OnlyLastOpen(P.Revised(h, cause))
    ensures forall id: Id :: OpenIs(h, id) ==> OpenIs(P.Revised(h, cause), id)
  {
  }

  /** Openings minus closings is the change in the number of open episodes. */
  lemma SlotCounts(n: Naming, open: map<EpisodeKey, Episode>, c: Classified, now: I64)
    ensures var u := Observed(n, Slot(open, c.key), c, now);
      |WithSlot(open, c.key, u.slot)|
        == |open| + (if u.started.Some? then 1 else 0) - (if u.closed.Some? then 1 else 0)
  {
    hide Observed;
    var u := Observed(n, Slot(open, c.key), c, now);
    SlotChanges(n, Slot(open, c.key), c, now);
    if u.slot.Some? {
      LargerMap(open, c.key, u.slot.value);
    } else if c.key in open {
      SmallerMap(open, c.key);
    } else {
      assert open - {c.key} == open;
    }
  }

  lemma SlotChanges(n: Naming, slot: Option<Episode>, c: Classified, now: I64)
    ensures var u := Observed(n, slot, c, now);
      && (u.started.Some? <==> slot.None? && u.slot.Some?)
      && (u.closed.Some? <==> slot.Some? && u.slot.None?)
  {
    hide EpisodeId;
  }

  lemma LargerMap(m: map<EpisodeKey, Episode>, k: EpisodeKey, e: Episode)
    ensures |m[k := e]| == |m| + if k in m then 0 else 1
  {
    assert m[k := e].Keys == m.Keys + {k};
    if k in m {
      assert m.Keys + {k} == m.Keys;
    }
  }
}
