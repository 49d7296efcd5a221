/** Fencing across a restart (src/engine.cpp): which batches an engine answered before it was saved
    are still recognised as replays by the engine restored from the file. */
module RestartReplays {
  import opened Errors
  import opened CanonicalBytes
  import opened Lists
  import opened RecordForms
  import opened Samples
  import opened SampleCodec
  import opened Restart
  import opened RestartGuards
  import opened RestartTheorems
  import B = BatchCodec
  import P = Paths
  import F = Fencing
  import V = Window
  import I = Ingest

  // ---------------------------------------------------------------------------
  // Replays
  // ---------------------------------------------------------------------------

  /** Delivery i is a current batch of the source that got an answer. */
  ghost predicate AnsweredOf(c: I.Config, ds: seq<I.Delivery>, source: Id, i: nat) {
    i < |ds| && I.Answered(c, ds, i) && I.SourceOf(ds[i].batch) == source
  }

  /** The restored guard accepts none of them again. */
  ghost predicate Fences(c: I.Config, ds: seq<I.Delivery>, source: Id, restored: F.Guard) {
    forall i: nat :: AnsweredOf(c, ds, source, i) ==>
      !F.Evaluate(restored, I.PositionOf(ds[i].batch), ds[i].batch.content, false).Accept?
  }

  /** Over any stream of deliveries: after the restart no batch that was answered before is accepted
      again, exactly when what the restored samples of the source say does not bring in a larger
      sequence number of an older incarnation or epoch than the guard's. */
  lemma ReplaysFencedIff(c: I.Config, ds: seq<I.Delivery>, es: map<Id, seq<P.Event>>, e: Engine, o: Order, source: Id)
    requires Reached(c, ds, es, e) && ListsIds(o.guards, e.guards.Keys) && source in e.guards
    ensures Fences(c, ds, source, RestoredGuard(source, IntakeOf(c.sch, e, o), c.maxWindows)) <==>
      F.StillCovers(Heard(source, IntakeOf(c.sch, e, o).samples, c.maxWindows), e.guards[source].position)
  {
    hide I.Run, I.Answered, RestoredGuard, IntakeOf, Heard, F.StillCovers, Reached, ListsIds, I.ReachedBy, F.Evaluate;
    SameGuards(c, ds, es, e);
    var g, restored := e.guards[source], RestoredGuard(source, IntakeOf(c.sch, e, o), c.maxWindows);
    GuardCoversIff(c.sch, e, o, source, c.maxWindows);
    I.SourceGuardIsMaximum(c, ds, source);
    if F.Covers(restored, g.position) {
      forall i: nat | AnsweredOf(c, ds, source, i)
        ensures !F.Evaluate(restored, I.PositionOf(ds[i].batch), ds[i].batch.content, false).Accept?
      {
        CoveredNotAccepted(restored, g.position, I.PositionOf(ds[i].batch), ds[i].batch.content);
      }
    } else {
      var i := I.GuardReached(c, ds, source);
      I.AnsweredAt(c, ds, ds, i, g, source);
      UncoveredAccepted(restored, g.position, ds[i].batch.content);
      assert AnsweredOf(c, ds, source, i);
    }
  }

  lemma SameGuards(c: I.Config, ds: seq<I.Delivery>, es: map<Id, seq<P.Event>>, e: Engine)
    requires Reached(c, ds, es, e)
    ensures e.guards == I.Run(c, ds).guards && GuardsSet(e.guards)
  {
    hide I.Run;
    I.GuardsAreSet(c, ds);
  }

  lemma CoveredNotAccepted(g: F.Guard, top: F.Position, p: F.Position, content: Digest)
    requires F.Covers(g, top) && F.AtMost(p, top)
    ensures !F.Evaluate(g, p, content, false).Accept?
  {
  }

  lemma UncoveredAccepted(g: F.Guard, p: F.Position, content: Digest)
    requires !F.Covers(g, p)
    ensures F.Evaluate(g, p, content, false).Accept?
  {
  }

  /** While that holds a replay changes nothing, however much the restored engine took in before the
      replay came. */
  lemma ReplayChangesNothingAfterRestart(
    c: I.Config, ds: seq<I.Delivery>, es: map<Id, seq<P.Event>>, e: Engine, o: Order, i: nat,
    start: I.State, more: seq<I.Delivery>)
    requires Reached(c, ds, es, e) && ListsIds(o.guards, e.guards.Keys) && I.Answered(c, ds, i)
    requires var source := I.SourceOf(ds[i].batch);
      && F.GuardOf(start.guards, source) == RestoredGuard(source, IntakeOf(c.sch, e, o), c.maxWindows)
      && (source in e.guards ==>
            F.StillCovers(Heard(source, IntakeOf(c.sch, e, o).samples, c.maxWindows), e.guards[source].position))
    ensures var s := I.RunFrom(c, start, more);
      && I.After(c, s, ds[i]) == s
      && I.Answer(c, s, ds[i]).Ok? && !I.Stores(I.Answer(c, s, ds[i]).value)
  {
    hide I.Run, I.RunFrom, RestoredGuard, IntakeOf, Heard, F.StillCovers, Reached, ListsIds, F.Evaluate, I.After,
      I.Refusal, I.HasRoom;
    var source, p := I.SourceOf(ds[i].batch), I.PositionOf(ds[i].batch);
    SameGuards(c, ds, es, e);
    I.CoveredEver(c, ds, i);
    assert source in e.guards;
    GuardCoversIff(c.sch, e, o, source, c.maxWindows);
    assert I.GuardCovers(start.guards, source, p);
    I.CoveredFrom(c, start, more, source, p);
    I.CoveredIsFenced(c, I.RunFrom(c, start, more), ds[i]);
  }

  /** In particular while a sample at the guard's own position is retained. */
  lemma RetainedPositionFences(
    c: I.Config, ds: seq<I.Delivery>, es: map<Id, seq<P.Event>>, e: Engine, o: Order, x: Sample)
    requires Reached(c, ds, es, e) && x.provenance.source in e.guards
    requires Sound(c.sch, Limits(c.policy, c.maxWindows), e, o)
    requires x in AllSamples(e.windows, o.windows) && PositionOf(x) == e.guards[x.provenance.source].position
    ensures Fences(c, ds, x.provenance.source,
                   RestoredGuard(x.provenance.source, IntakeOf(c.sch, e, o), c.maxWindows))
  {
    hide I.Run, RestoredGuard, Heard, F.StillCovers, Reached, AllSamples, Fences, ContentOf, KeysOf, KeptKeys,
      SoundHistory, SoundWindow, PathReturns;
    var all := AllSamples(e.windows, o.windows);
    var m :| 0 <= m < |all| && all[m] == x;
    var y := ResealedAll(c.sch, all)[m];
    assert y in IntakeOf(c.sch, e, o).samples;
    KeysReturn(c.sch, Limits(c.policy, c.maxWindows), e, o);
    RestoredSampleCovers(IntakeOf(c.sch, e, o).samples, c.maxWindows, y, e.guards[x.provenance.source].position);
    ReplaysFencedIff(c, ds, es, e, o, x.provenance.source);
  }

  // ---------------------------------------------------------------------------
  // Guards, from the deliveries
  // ---------------------------------------------------------------------------

  /** No source starts its sequence numbers over: of two answered current batches the later position
      has no smaller number. */
  ghost predicate NumbersClimb(c: I.Config, ds: seq<I.Delivery>) {
    forall source: Id, i: nat, j: nat :: AnsweredOf(c, ds, source, i) && AnsweredOf(c, ds, source, j) ==>
      Climbs(I.PositionOf(ds[i].batch), I.PositionOf(ds[j].batch))
  }

  predicate Climbs(p: F.Position, q: F.Position) {
    F.Below(p, q) ==> p.sequence <= q.sequence
  }

  /** No stored sample carries a larger sequence number than every answered current batch of its
      source. */
  ghost predicate NumbersAnswered(c: I.Config, ds: seq<I.Delivery>) {
    forall i: nat, x: Sample :: I.CameWith(c, ds, i, x) ==>
      exists j: nat :: AnsweredOf(c, ds, x.provenance.source, j)
        && x.provenance.sequence <= I.PositionOf(ds[j].batch).sequence
  }

  /** Then every source gets back exactly the guard the deliveries left it, and so gives every later
      batch the verdict it would have given. */
  lemma GuardsReturnWhenNumbersClimb(
    c: I.Config, ds: seq<I.Delivery>, es: map<Id, seq<P.Event>>, e: Engine, o: Order, source: Id)
    requires Reached(c, ds, es, e) && ListsIds(o.guards, e.guards.Keys) && ListsKeys(o.windows, e.windows.Keys)
    requires NumbersClimb(c, ds) && NumbersAnswered(c, ds)
    ensures RestoredGuard(source, IntakeOf(c.sch, e, o), c.maxWindows) == F.GuardOf(I.Run(c, ds).guards, source)
  {
    hide I.Run, RestoredGuard, IntakeOf, Reached, AllSamples, ListsIds, ListsKeys, NumbersClimb, NumbersAnswered,
      F.NotAhead, Heard;
    SameGuards(c, ds, es, e);
    EachGuardReturnsIff(c.sch, e, o, source, c.maxWindows);
    var own := Heard(source, IntakeOf(c.sch, e, o).samples, c.maxWindows);
    if source in e.guards {
      forall i | 0 <= i < |own|
        ensures own[i].position.sequence <= e.guards[source].position.sequence
      {
        var x := HeardFrom(c.sch, e, o, source, c.maxWindows, i);
        RetainedNumber(c, ds, es, e, o, x);
      }
      NoneAhead(own, e.guards[source].position.sequence);
    } else if own != [] {
      var x := HeardFrom(c.sch, e, o, source, c.maxWindows, 0);
      RetainedNumber(c, ds, es, e, o, x);
      assert false;
    }
  }

  lemma NoneAhead(own: seq<F.Trace>, sequence: U64)
    requires forall i :: 0 <= i < |own| ==> own[i].position.sequence <= sequence
    ensures F.NotAhead(own, sequence)
  {
    hide F.TopEpoch, F.TopIncarnation;
  }

  lemma RetainedNumber(
    c: I.Config, ds: seq<I.Delivery>, es: map<Id, seq<P.Event>>, e: Engine, o: Order, x: Sample)
    requires Reached(c, ds, es, e) && ListsKeys(o.windows, e.windows.Keys)
    requires NumbersClimb(c, ds) && NumbersAnswered(c, ds) && x in AllSamples(e.windows, o.windows)
    ensures x.provenance.source in e.guards
    ensures x.provenance.sequence <= e.guards[x.provenance.source].position.sequence
  {
    hide I.Run, I.CameWith, AnsweredOf, AllSamples, NumbersClimb, NumbersAnswered, ListsKeys;
    var source := x.provenance.source;
    var k := SavedIn(e.windows, o.windows, x);
    var i := I.RetainsDelivered(c, ds, k, x);
    SameGuards(c, ds, es, e);
    AnsweredNumber(c, ds, i, x);
  }

  lemma AnsweredNumber(c: I.Config, ds: seq<I.Delivery>, i: nat, x: Sample)
    requires NumbersClimb(c, ds) && NumbersAnswered(c, ds) && I.CameWith(c, ds, i, x)
    ensures var g := F.GuardOf(I.Run(c, ds).guards, x.provenance.source);
      g.initialized && x.provenance.sequence <= g.position.sequence
  {
    hide I.Run, I.CameWith, I.Answered, F.GuardOf;
    var source := x.provenance.source;
    var j: nat :| AnsweredOf(c, ds, source, j) && x.provenance.sequence <= I.PositionOf(ds[j].batch).sequence;
    I.SourceGuardIsMaximum(c, ds, source);
    var g := F.GuardOf(I.Run(c, ds).guards, source);
    var q := I.GuardReached(c, ds, source);
    I.AnsweredAt(c, ds, ds, q, g, source);
    assert AnsweredOf(c, ds, source, q);
    assert Climbs(I.PositionOf(ds[j].batch), I.PositionOf(ds[q].batch));
  }

  lemma {:induction false} SavedIn(windows: map<WindowKey, seq<Sample>>, order: seq<WindowKey>, x: Sample)
    returns (k: WindowKey)
    requires x in AllSamples(windows, order)
    ensures k in windows && x in windows[k]
  {
    hide Canonical;
    var w := WindowOf(windows, order[0]);
    if x in Canonical(w) {
      V.SameMembers(w, x);
      k := order[0];
    } else {
      k := SavedIn(windows, order[1..], x);
    }
  }

  // ---------------------------------------------------------------------------
  // How a guard is lost
  // ---------------------------------------------------------------------------

  const OLD: F.Position := F.Position(1, 1, 100)
  const NEW: F.Position := F.Position(2, 1, 1)

  /** The engine that a stream of deliveries leaves, its routes left out. */
  ghost function EngineAfter(c: I.Config, ds: seq<I.Delivery>): Engine {
    var s := I.Run(c, ds);
    Engine([], map[], map k | k in s.windows :: s.windows[k].samples, s.guards)
  }

  lemma EngineAfterIsReached(c: I.Config, ds: seq<I.Delivery>)
    ensures Reached(c, ds, map[], EngineAfter(c, ds))
  {
    hide I.Run;
  }

  /** A valid batch of one sample, both at position p. */
  ghost predicate Carries(c: I.Config, d: I.Delivery, p: F.Position, x: Sample) {
    && I.Refusal(c, d) == None && d.batch.samples == [x]
    && I.PositionOf(d.batch) == p && PositionOf(x) == p
    && x.provenance.source == I.SourceOf(d.batch) && V.KeyOf(x) == I.KeyOf(d.batch)
  }

  function SampleAt(c: I.Config, source: Id, k: WindowKey, p: F.Position, id: Id): Sample {
    var provenance := Provenance(source, p.incarnation, p.epoch, p.sequence, 0, LAST_ORIGIN, []);
    Sample(id, k.series, source, k.generation, 1, provenance, 0, TimePoint(c.sch.localClock, 0),
           TimePoint(c.sch.localClock, 0), [], [], ZERO_DIGEST)
  }

  function DeliveryAt(
    c: I.Config, source: Id, k: WindowKey, p: F.Position, id: Id, content: Digest, historical: bool): I.Delivery
  {
    var x := SampleAt(c, source, k, p, id);
    I.Delivery(B.Batch(id, B.Header(x.provenance, PlaceOf(x), c.sch.localClock, 1), [x], content), historical, None)
  }

  /** There are such deliveries: whatever the source, window, position and identity. */
  lemma DeliveryCarries(
    c: I.Config, source: Id, k: WindowKey, p: F.Position, id: Id, content: Digest, historical: bool)
    requires source != NIL_ID && k.series != NIL_ID && k.generation != NIL_ID && c.sch.localClock != NIL_ID
    requires p.incarnation > 0 && p.sequence > 0
    ensures Carries(c, DeliveryAt(c, source, k, p, id, content, historical), p, SampleAt(c, source, k, p, id))
  {
    hide SampleRefusal;
    var x := SampleAt(c, source, k, p, id);
    SampleAccepted(c, source, k, p, id);
    assert [x][1..] == [];
    assert B.SamplesRefusal(c.sch, B.Header(x.provenance, PlaceOf(x), c.sch.localClock, 1), [x][1..]) == None;
  }

  lemma SampleAccepted(c: I.Config, source: Id, k: WindowKey, p: F.Position, id: Id)
    requires source != NIL_ID && k.series != NIL_ID && k.generation != NIL_ID && c.sch.localClock != NIL_ID
    requires p.incarnation > 0 && p.sequence > 0
    ensures SampleRefusal(c.sch, SampleAt(c, source, k, p, id)) == None
  {
  }

  lemma OneAdded(p: V.WindowPolicy, w: V.Contents, x: Sample)
    ensures I.AddedTo(p, w, [x]) == V.Added(p, w, x)
  {
    hide V.Added;
    assert [x][..0] == [];
    assert I.AddedTo(p, w, [x][..0]) == w;
  }

  // The first delivery of all, accepted.
  lemma FirstStored(c: I.Config, d: I.Delivery, p: F.Position, x: Sample)
    requires Carries(c, d, p, x) && !d.historical && c.maxWindows >= 1 && c.policy.capacity >= 1
    ensures var s := I.Run(c, [d]);
      && s.guards == map[I.SourceOf(d.batch) := F.Guard(true, p, d.batch.content)]
      && s.windows == map[I.KeyOf(d.batch) := V.Added(c.policy, V.EMPTY, x)]
      && V.Added(c.policy, V.EMPTY, x).samples == [x]
  {
    hide I.Refusal;
    assert [d][..0] == [];
    OneAdded(c.policy, V.EMPTY, x);
    assert I.Run(c, [d]) == I.After(c, I.START, d);
    assert V.EMPTY.samples + [x] == [x];
  }

  /** A source restarts its numbering: its batch of the old incarnation went to one window, that of
      the new one to another, restored before it. The engine saved the guard of the new incarnation
      and would accept the next batch; the restored engine has mixed the two and fences it off. */
  lemma GuardLostAtRestart(c: I.Config, first: I.Delivery, second: I.Delivery, a: Sample, b: Sample, next: Digest)
    requires Carries(c, first, OLD, b) && !first.historical && Carries(c, second, NEW, a) && !second.historical
    requires I.SourceOf(first.batch) == I.SourceOf(second.batch)
    requires KeyLess(I.KeyOf(second.batch), I.KeyOf(first.batch))
    requires c.maxWindows >= 2 && c.policy.capacity >= 1
    ensures var source := I.SourceOf(first.batch);
      var e := EngineAfter(c, [first, second]);
      var o := Order([], [I.KeyOf(second.batch), I.KeyOf(first.batch)], [source]);
      var restored := RestoredGuard(source, IntakeOf(c.sch, e, o), c.maxWindows);
      && Reached(c, [first, second], map[], e)
      && ListsKeys(o.windows, e.windows.Keys) && ListsIds(o.guards, e.guards.Keys)
      && e.guards[source].position == NEW && restored.position == F.Position(2, 1, 100)
      && F.Evaluate(e.guards[source], F.Position(2, 1, 2), next, false) == F.Accept
      && F.Evaluate(restored, F.Position(2, 1, 2), next, false) == F.StaleSequence
  {
    hide I.Refusal, F.Rebuilt, RestoreOrder, KeptKeys, V.Added, I.Run, IntakeOf, Reached;
    var source, ka, kb := I.SourceOf(first.batch), I.KeyOf(second.batch), I.KeyOf(first.batch);
    var ds := [first, second];
    EngineAfterIsReached(c, ds);
    KeyOrder(ka, kb, ka);
    BothStored(c, first, second, a, b);
    var e := EngineAfter(c, ds);
    var o := Order([], [ka, kb], [source]);
    assert source in e.guards.Keys;
    var samples := IntakeOf(c.sch, e, o).samples;
    SavedBoth(c.sch, e, o, ka, kb, a, b);
    RestoredInOrder(samples, ka, kb, c.maxWindows);
    MergedWithSaved(c.sch, e, o, source, c.maxWindows);
    RebuiltMixed(source, TracesOf(samples));
  }

  lemma BothStored(c: I.Config, first: I.Delivery, second: I.Delivery, a: Sample, b: Sample)
    requires Carries(c, first, OLD, b) && !first.historical && Carries(c, second, NEW, a) && !second.historical
    requires I.SourceOf(first.batch) == I.SourceOf(second.batch) && I.KeyOf(first.batch) != I.KeyOf(second.batch)
    requires c.maxWindows >= 2 && c.policy.capacity >= 1
    ensures var e := EngineAfter(c, [first, second]);
      && e.guards == map[I.SourceOf(first.batch) := F.Guard(true, NEW, second.batch.content)]
      && e.windows == map[I.KeyOf(first.batch) := [b], I.KeyOf(second.batch) := [a]]
  {
    hide I.Refusal, V.Added;
    FirstStored(c, first, OLD, b);
    var ds := [first, second];
    assert ds[..1] == [first];
    var s := I.Run(c, [first]);
    assert |s.windows.Keys| == 1 by {
      assert s.windows.Keys == {I.KeyOf(first.batch)};
    }
    OneAdded(c.policy, V.EMPTY, a);
    AddedToEmpty(c.policy, a);
    assert I.Run(c, ds) == I.After(c, s, second);
  }

  lemma AddedToEmpty(p: V.WindowPolicy, x: Sample)
    requires p.capacity >= 1
    ensures V.Added(p, V.EMPTY, x).samples == [x]
  {
    assert V.EMPTY.samples + [x] == [x];
  }

  lemma CanonicalOne(x: Sample)
    ensures Canonical([x]) == [x]
  {
    assert [x][1..] == [];
    assert SortBy(Less, [x][1..]) == [];
  }

  lemma SavedBoth(sch: Scheme, e: Engine, o: Order, ka: WindowKey, kb: WindowKey, a: Sample, b: Sample)
    requires ka != kb && e.windows == map[kb := [b], ka := [a]] && o.windows == [ka, kb]
    ensures IntakeOf(sch, e, o).samples == [Resealed(sch, a), Resealed(sch, b)]
  {
    hide Canonical, Resealed;
    CanonicalOne(a);
    CanonicalOne(b);
    assert o.windows[1..] == [kb] && [kb][1..] == [];
    assert AllSamples(e.windows, [kb]) == [b];
    assert AllSamples(e.windows, o.windows) == [a, b];
  }

  // Two samples of two windows, restored window by window.
  lemma RestoredInOrder(samples: seq<Sample>, ka: WindowKey, kb: WindowKey, maxWindows: nat)
    requires |samples| == 2 && V.KeyOf(samples[0]) == ka && V.KeyOf(samples[1]) == kb && KeyLess(ka, kb)
    requires maxWindows >= 2
    ensures RestoreOrder(samples, KeptKeys(samples, maxWindows)) == samples
  {
    hide KeyLess, RestoreLess, V.KeyOf;
    var x, y := samples[0], samples[1];
    KeyOrder(ka, kb, ka);
    assert samples[..1] == [x] && [x][..0] == [] && samples == [x] + [y];
    assert KeysOf([x]) == [ka];
    assert [ka][1..] == [];
    assert WithKey([ka], kb) == [ka] + WithKey([], kb);
    assert KeysOf(samples) == WithKey([ka], kb) == [ka, kb];
    GroupOfSingle(x, ka);
    GroupOfSingle(x, kb);
    GroupOfSingle(y, ka);
    GroupOfSingle(y, kb);
    GroupConcat([x], [y], ka);
    GroupConcat([x], [y], kb);
    SortedOne(x);
    SortedOne(y);
    var keys := [ka, kb];
    assert keys[..1] == [ka] && [ka][..0] == [];
    assert RestoreOrder(samples, [ka]) == [x];
  }

  lemma SortedOne(x: Sample)
    ensures SortBy(RestoreLess, [x]) == [x]
  {
    assert SortBy(RestoreLess, [x][1..]) == [];
  }

  lemma RebuiltMixed(source: Id, ts: seq<F.Trace>)
    requires |ts| == 2 && ts[0].source == source && ts[1].source == source
    requires ts[0].position == NEW && ts[1].position == OLD
    ensures F.Rebuilt(source, ts) == F.Guard(true, F.Position(2, 1, 100), ts[1].content)
  {
    assert ts[..1][..0] == [];
    assert F.Rebuilt(source, ts[..1]) == F.Guard(true, NEW, ts[0].content);
  }

  /** Worse, an answered batch is accepted again: the window has room for one sample, which a
      historical batch of the old incarnation has taken. The restored guard is that of the old
      incarnation, and the batch of the new one comes as if for the first time. */
  lemma ReplayAcceptedAfterRestart(c: I.Config, live: I.Delivery, old_: I.Delivery, a: Sample, b: Sample)
    requires Carries(c, live, NEW, a) && !live.historical && Carries(c, old_, OLD, b) && old_.historical
    requires I.SourceOf(live.batch) == I.SourceOf(old_.batch) && I.KeyOf(live.batch) == I.KeyOf(old_.batch)
    requires a.id != b.id && c.maxWindows >= 1 && c.policy.capacity == 1
    ensures var source := I.SourceOf(live.batch);
      var ds := [live, old_];
      var e := EngineAfter(c, ds);
      var o := Order([], [I.KeyOf(live.batch)], [source]);
      var restored := RestoredGuard(source, IntakeOf(c.sch, e, o), c.maxWindows);
      && Reached(c, ds, map[], e)
      && ListsKeys(o.windows, e.windows.Keys) && ListsIds(o.guards, e.guards.Keys)
      && I.Answered(c, ds, 0) && e.guards[source].position == NEW && restored.position == OLD
      && F.Evaluate(e.guards[source], I.PositionOf(live.batch), live.batch.content, false) == F.DuplicateIdempotent
      && F.Evaluate(restored, I.PositionOf(live.batch), live.batch.content, false) == F.Accept
  {
    hide I.Refusal, F.Rebuilt, RestoreOrder, KeptKeys, V.Added, I.Run, IntakeOf, Reached;
    var source, k := I.SourceOf(live.batch), I.KeyOf(live.batch);
    var ds := [live, old_];
    EngineAfterIsReached(c, ds);
    OnlyOldLeft(c, live, old_, a, b);
    var e := EngineAfter(c, ds);
    var o := Order([], [k], [source]);
    assert source in e.guards.Keys;
    SavedOne(c.sch, e, o, k, b);
    var samples := IntakeOf(c.sch, e, o).samples;
    RestoredAlone(samples[0], c.maxWindows);
    assert samples == [samples[0]];
    MergedWithSaved(c.sch, e, o, source, c.maxWindows);
    RebuiltAlone(source, TracesOf(samples));
  }

  lemma OnlyOldLeft(c: I.Config, live: I.Delivery, old_: I.Delivery, a: Sample, b: Sample)
    requires Carries(c, live, NEW, a) && !live.historical && Carries(c, old_, OLD, b) && old_.historical
    requires I.SourceOf(live.batch) == I.SourceOf(old_.batch) && I.KeyOf(live.batch) == I.KeyOf(old_.batch)
    requires a.id != b.id && c.maxWindows >= 1 && c.policy.capacity == 1
    ensures I.Answered(c, [live, old_], 0)
    ensures var e := EngineAfter(c, [live, old_]);
      && e.guards == map[I.SourceOf(live.batch) := F.Guard(true, NEW, live.batch.content)]
      && e.windows == map[I.KeyOf(live.batch) := [b]]
  {
    hide I.Refusal, V.Added;
    FirstStored(c, live, NEW, a);
    var ds := [live, old_];
    assert ds[..1] == [live] && ds[..0] == [];
    var s := I.Run(c, [live]);
    var w := V.Added(c.policy, V.EMPTY, a);
    OneAdded(c.policy, w, b);
    AddedEvicts(c.policy, a, b);
    assert I.Run(c, ds) == I.After(c, s, old_);
  }

  lemma AddedEvicts(p: V.WindowPolicy, a: Sample, b: Sample)
    requires p.capacity == 1 && a.id != b.id && V.KeyOf(a) == V.KeyOf(b)
    ensures V.Added(p, V.Added(p, V.EMPTY, a), b).samples == [b]
  {
    AddedToEmpty(p, a);
    var w := V.Added(p, V.EMPTY, a);
    assert w.owner == Some(V.OwnerOf(a));
    assert !V.HasId(w.samples, b.id);
    assert LastN([a] + [b], 1) == [b];
  }

  lemma SavedOne(sch: Scheme, e: Engine, o: Order, k: WindowKey, b: Sample)
    requires e.windows == map[k := [b]] && o.windows == [k]
    ensures IntakeOf(sch, e, o).samples == [Resealed(sch, b)]
  {
    hide Canonical, Resealed;
    CanonicalOne(b);
    assert o.windows[1..] == [];
    assert AllSamples(e.windows, o.windows) == [b];
  }

  lemma RestoredAlone(x: Sample, maxWindows: nat)
    requires maxWindows >= 1
    ensures RestoreOrder([x], KeptKeys([x], maxWindows)) == [x]
  {
    hide RestoreLess, V.KeyOf;
    var k := V.KeyOf(x);
    assert [x][..0] == [] && [k][..0] == [];
    assert KeysOf([x]) == [k];
    GroupOfSingle(x, k);
    SortedOne(x);
  }

  lemma RebuiltAlone(source: Id, ts: seq<F.Trace>)
    requires |ts| == 1 && ts[0].source == source
    ensures F.Rebuilt(source, ts) == F.Guard(true, ts[0].position, ts[0].content)
  {
    assert ts[..0] == [];
  }
}
