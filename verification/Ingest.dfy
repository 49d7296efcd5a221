/** The ingest slice of the engine (src/engine.cpp): validation, fencing, window storage and the
    guard, as one state machine over a stream of batches. */
module Ingest {
  import opened Errors
  import opened CanonicalBytes
  import opened Lists
  import opened RecordForms
  import opened Samples
  import C = SampleCodec
  import opened BatchCodec
  import F = Fencing
  import V = Window

  type WindowKey = V.WindowKey

  /** A batch as delivered; refusal is what the checks against the registries say of it. */
  datatype Delivery = Delivery(batch: Batch, historical: bool, refusal: Option<ErrorCode>)

  datatype State = State(guards: map<Id, F.Guard>, windows: map<WindowKey, V.Contents>)

  const START: State := State(map[], map[])

  // The engine's configuration as far as ingest is concerned.
  datatype Config = Config(sch: Scheme, policy: V.WindowPolicy, maxWindows: nat)

  function KeyOf(b: Batch): WindowKey {
    V.WindowKey(b.header.place.series, b.header.place.generation)
  }

  function SourceOf(b: Batch): Id { b.header.provenance.source }

  function PositionOf(b: Batch): F.Position {
    F.Position(b.header.provenance.incarnation, b.header.provenance.epoch, b.header.provenance.sequence)
  }

  function Refusal(c: Config, d: Delivery): Option<ErrorCode> {
    var invalid := BatchRefusal(c.sch, d.batch.header, d.batch.samples);
    if invalid.Some? then invalid else d.refusal
  }

  function VerdictOf(guards: map<Id, F.Guard>, d: Delivery): F.Verdict {
    F.Evaluate(F.GuardOf(guards, SourceOf(d.batch)), PositionOf(d.batch), d.batch.content, d.historical)
  }

  predicate Stores(v: F.Verdict) {
    v.Accept? || v.Historical?
  }

  function HasRoom(c: Config, keys: set<WindowKey>, k: WindowKey): bool {
    k in keys || |keys| < c.maxWindows
  }

  /** What ingest answers: a refusal, or the verdict. */
  function Answer(c: Config, s: State, d: Delivery): Result<F.Verdict> {
    var refusal := Refusal(c, d);
    if refusal.Some? then Err(refusal.value)
    else
      var v := VerdictOf(s.guards, d);
      if Stores(v) && !HasRoom(c, s.windows.Keys, KeyOf(d.batch)) then Err(CapacityExceeded) else Ok(v)
  }

  /** Whether the samples of the delivery enter their window. */
  predicate Enters(c: Config, s: State, d: Delivery) {
    Answer(c, s, d).Ok? && Stores(Answer(c, s, d).value)
  }

  function WindowAt(windows: map<WindowKey, V.Contents>, k: WindowKey): V.Contents {
    if k in windows then windows[k] else V.EMPTY
  }

  ghost function AddedTo(p: V.WindowPolicy, w: V.Contents, samples: seq<Sample>): V.Contents {
    if samples == [] then w
    else V.Added(p, AddedTo(p, w, samples[..|samples| - 1]), samples[|samples| - 1])
  }

  ghost function After(c: Config, s: State, d: Delivery): State {
    if !Enters(c, s, d) then s
    else
      var k := KeyOf(d.batch);
      var source := SourceOf(d.batch);
      State(if Answer(c, s, d).value.Accept?
            then s.guards[source := F.Applied(F.GuardOf(s.guards, source), PositionOf(d.batch), d.batch.content)]
            else s.guards,
            s.windows[k := AddedTo(c.policy, WindowAt(s.windows, k), d.batch.samples)])
  }

  ghost function Run(c: Config, ds: seq<Delivery>): State {
    if ds == [] then START else After(c, Run(c, ds[..|ds| - 1]), ds[|ds| - 1])
  }

  // ---------------------------------------------------------------------------
  // The engine object
  // ---------------------------------------------------------------------------

  class Engine {
    const config: Config
    var guards: map<Id, F.Guard>
    var windows: map<WindowKey, V.SampleWindow>

    ghost predicate Valid()
      reads this`windows, windows.Values
    {
      && (forall k :: k in windows ==> WindowValid(k, windows[k]))
      && (forall j, k :: j in windows && k in windows && j != k ==> windows[j] != windows[k])
    }

    ghost predicate WindowValid(k: WindowKey, w: V.SampleWindow)
      reads w
    {
      w.policy == config.policy && V.KeptFor(config.policy, k, w.Value())
    }

    ghost function Windows(): (m: map<WindowKey, V.Contents>)
      reads this`windows, windows.Values
      ensures m.Keys == windows.Keys
    {
      map k | k in windows :: windows[k].Value()
    }

    ghost function View(): State
      reads this, windows.Values
    {
      State(guards, Windows())
    }

    constructor (config: Config)
      ensures this.config == config && Valid() && View() == START && windows == map[]
    {
      this.config := config;
      guards, windows := map[], map[];
    }

    method Ingest(d: Delivery) returns (r: Result<F.Verdict>)
      requires Valid()
      modifies this, windows.Values
      ensures Valid() && fresh(windows.Values - old(windows.Values))
      ensures r == Answer(config, old(View()), d)
      ensures View() == After(config, old(View()), d)
    {
      hide BatchRefusal, F.Evaluate, F.Applied, AddedTo, Windows, Valid, V.KeyOf;
      var invalid := BatchRefusal(config.sch, d.batch.header, d.batch.samples);
      if invalid.Some? {
        return Err(invalid.value);
      }
      if d.refusal.Some? {
        return Err(d.refusal.value);
      }
      var source := SourceOf(d.batch);
      var guard := F.GuardOf(guards, source);
      var verdict := F.Evaluate(guard, PositionOf(d.batch), d.batch.content, d.historical);
      if !Stores(verdict) {
        return Ok(verdict);
      }
      var k := KeyOf(d.batch);
      BatchIsKeyed(config.sch, d.batch);
      var status := StoreIn(k, d.batch.samples);
      if status.Failure? {
        return Err(status.error);
      }
      if verdict.Accept? {
        guards := guards[source := F.Applied(guard, PositionOf(d.batch), d.batch.content)];
      }
      r := Ok(verdict);
    }

    // window_for and store_samples.
    method StoreIn(k: WindowKey, samples: seq<Sample>) returns (status: Status)
      requires Valid() && forall i :: 0 <= i < |samples| ==> V.KeyOf(samples[i]) == k
      modifies this`windows, windows.Values
      ensures Valid() && fresh(windows.Values - old(windows.Values))
      ensures status == if HasRoom(config, old(windows.Keys), k) then Success else Failure(CapacityExceeded)
      ensures Windows() == if status.Success?
        then old(Windows())[k := AddedTo(config.policy, WindowAt(old(Windows()), k), samples)] else old(Windows())
    {
      hide AddedTo, Windows, Valid, V.KeyOf;
      status := WindowFor(k);
      if status.Success? {
        StoreAt(k, samples);
      }
    }

    // window_for with create.
    method WindowFor(k: WindowKey) returns (status: Status)
      requires Valid()
      modifies this`windows
      ensures Valid() && fresh(windows.Values - old(windows.Values))
      ensures status == if HasRoom(config, old(windows.Keys), k) then Success else Failure(CapacityExceeded)
      ensures status.Failure? ==> windows == old(windows)
      ensures status.Success? ==> k in windows && (windows[k] in old(windows.Values) || fresh(windows[k]))
      ensures Windows() == if status.Success?
        then old(Windows())[k := WindowAt(old(Windows()), k)] else old(Windows())
    {
      hide V.SampleWindow.Value, V.KeptFor;
      if k in windows {
        return Success;
      }
      if |windows.Keys| >= config.maxWindows {
        return Failure(CapacityExceeded);
      }
      var w := new V.SampleWindow(config.policy);
      EmptyIsKept(config.policy, k);
      windows := windows[k := w];
      status := Success;
    }

    method StoreAt(k: WindowKey, samples: seq<Sample>)
      requires Valid() && k in windows
      requires forall i :: 0 <= i < |samples| ==> V.KeyOf(samples[i]) == k
      modifies windows[k]
      ensures Valid()
      ensures Windows() == old(Windows())[k := AddedTo(config.policy, old(Windows())[k], samples)]
    {
      hide AddedTo, V.SampleWindow.Value, V.KeptFor, V.KeyOf;
      var w := windows[k];
      var status := Store(k, w, samples);
      assert forall j :: j in windows && j != k ==> windows[j] != w;
      assert forall j :: j in windows && j != k ==> windows[j].Value() == old(windows[j].Value());
    }

    // store_samples: a validated batch has one series and one generation, so no add is refused and
    // the error return of ingest behind it is never taken.
    method Store(k: WindowKey, w: V.SampleWindow, samples: seq<Sample>) returns (status: Status)
      requires V.KeptFor(w.policy, k, w.Value())
      requires forall i :: 0 <= i < |samples| ==> V.KeyOf(samples[i]) == k
      modifies w
      ensures status == Success
      ensures V.KeptFor(w.policy, k, w.Value())
      ensures w.Value() == AddedTo(w.policy, old(w.Value()), samples)
    {
      hide V.Added, V.KeptFor, V.KeyOf, V.Foreign;
      for i := 0 to |samples|
        invariant V.KeptFor(w.policy, k, w.Value())
        invariant w.Value() == AddedTo(w.policy, old(w.Value()), samples[..i])
      {
        assert samples[..i + 1][..i] == samples[..i];
        V.AddedKeeps(w.policy, k, w.Value(), samples[i]);
        status := w.Add(samples[i]);
        assert status.Success?;
      }
      assert samples[..|samples|] == samples;
      status := Success;
    }
  }

  lemma EmptyIsKept(p: V.WindowPolicy, k: WindowKey)
    ensures V.KeptFor(p, k, V.EMPTY)
  {
  }

  /** What validate_batch accepts belongs to one series and one generation, sample by sample. */
  lemma BatchIsKeyed(sch: Scheme, b: Batch)
    requires BatchRefusal(sch, b.header, b.samples) == None
    ensures forall i :: 0 <= i < |b.samples| ==>
      && V.KeyOf(b.samples[i]) == KeyOf(b) && b.samples[i].provenance.source == SourceOf(b)
      && C.SampleRefusal(sch, b.samples[i]) == None
  {
    hide SamplesRefusal, C.SampleRefusal;
    SamplesKeyed(sch, b.header, b.samples);
  }

  lemma {:induction false} SamplesKeyed(sch: Scheme, h: Header, samples: seq<Sample>)
    requires SamplesRefusal(sch, h, samples) == None
    ensures forall i :: 0 <= i < |samples| ==>
      && V.KeyOf(samples[i]) == V.WindowKey(h.place.series, h.place.generation)
      && samples[i].provenance.source == h.provenance.source
      && C.SampleRefusal(sch, samples[i]) == None
  {
    hide C.SampleRefusal;
    if samples != [] {
      SamplesKeyed(sch, h, samples[1..]);
    }
  }

  // ---------------------------------------------------------------------------
  // What windows hold
  // ---------------------------------------------------------------------------

  /** The batches whose samples entered window k, in order of arrival. */
  ghost function Entered(c: Config, ds: seq<Delivery>, k: WindowKey): seq<seq<Sample>> {
    if ds == [] then []
    else
      var n := |ds| - 1;
      Entered(c, ds[..n], k)
        + if Enters(c, Run(c, ds[..n]), ds[n]) && KeyOf(ds[n].batch) == k then [ds[n].batch.samples] else []
  }

  lemma {:induction false} AddedToAll(p: V.WindowPolicy, h: seq<Sample>, samples: seq<Sample>)
    ensures AddedTo(p, V.AddedAll(p, h), samples) == V.AddedAll(p, h + samples)
  {
    hide V.Added;
    if samples == [] {
      assert h + samples == h;
    } else {
      AddedToAll(p, h, samples[..|samples| - 1]);
      assert (h + samples)[..|h + samples| - 1] == h + samples[..|samples| - 1];
    }
  }

  /** Every window is the window of exactly the batches that were accepted or declared historical;
      duplicates, replays, contradictions and refused batches leave no trace. */
  lemma {:induction false} WindowsHoldEntered(c: Config, ds: seq<Delivery>, k: WindowKey)
    ensures WindowAt(Run(c, ds).windows, k) == V.AddedAll(c.policy, V.Flat(Entered(c, ds, k)))
  {
    hide Enters, V.AddedAll, AddedTo;
    if ds == [] {
      NothingAdded(c.policy);
    } else {
      var n := |ds| - 1;
      WindowsHoldEntered(c, ds[..n], k);
      if Enters(c, Run(c, ds[..n]), ds[n]) && KeyOf(ds[n].batch) == k {
        var before := Entered(c, ds[..n], k);
        var all := before + [ds[n].batch.samples];
        assert all[..|all| - 1] == before;
        AddedToAll(c.policy, V.Flat(before), ds[n].batch.samples);
        assert Entered(c, ds, k) == all;
      } else {
        assert Entered(c, ds, k) == Entered(c, ds[..n], k);
      }
    }
  }

  lemma NothingAdded(p: V.WindowPolicy)
    ensures V.AddedAll(p, []) == V.EMPTY
  {
  }

  /** Every delivered sample is what the types of the program can hold. */
  ghost predicate Representable(ds: seq<Delivery>) {
    forall i, j :: 0 <= i < |ds| && 0 <= j < |ds[i].batch.samples| ==> Holdable(ds[i].batch.samples[j])
  }

  ghost predicate Holdable(s: Sample) {
    C.ProvenanceFits(s.provenance) && C.KeysAscend(s.metadata)
  }

  lemma AddedToKeeps(p: V.WindowPolicy, k: WindowKey, w: V.Contents, samples: seq<Sample>)
    requires V.KeptFor(p, k, w) && forall i :: 0 <= i < |samples| ==> V.KeyOf(samples[i]) == k
    ensures V.KeptFor(p, k, AddedTo(p, w, samples))
  {
    hide V.Added, V.KeptFor, V.KeyOf, V.Foreign;
    if samples != [] {
      AddedToKeeps(p, k, w, samples[..|samples| - 1]);
      V.AddedKeeps(p, k, AddedTo(p, w, samples[..|samples| - 1]), samples[|samples| - 1]);
    }
  }

  /** Whatever is delivered: no more windows than the engine's bound, each holding distinct samples
      of its own series and generation, no more than its capacity, all of them valid. */
  lemma {:induction false} RunKeepsWindows(c: Config, ds: seq<Delivery>)
    ensures |Run(c, ds).windows.Keys| <= c.maxWindows
    ensures forall k :: k in Run(c, ds).windows ==> V.KeptFor(c.policy, k, Run(c, ds).windows[k])
  {
    hide V.KeptFor, AddedTo, BatchRefusal, VerdictOf, V.KeyOf;
    if ds != [] {
      var n := |ds| - 1;
      var s := Run(c, ds[..n]);
      RunKeepsWindows(c, ds[..n]);
      if Enters(c, s, ds[n]) {
        var k := KeyOf(ds[n].batch);
        BatchIsKeyed(c.sch, ds[n].batch);
        EmptyIsKept(c.policy, k);
        AddedToKeeps(c.policy, k, WindowAt(s.windows, k), ds[n].batch.samples);
        assert After(c, s, ds[n]).windows.Keys == s.windows.Keys + {k};
      }
    }
  }

  /** In every state a run reaches, a batch that nothing else refuses is refused for want of a window exactly
      when it would be stored, has none yet, and all windows there may be are taken. */
  lemma RefusedForRoomIff(c: Config, ds: seq<Delivery>, d: Delivery)
    requires Refusal(c, d) == None
    ensures var s := Run(c, ds);
      Answer(c, s, d) == Err(CapacityExceeded) <==>
        Stores(VerdictOf(s.guards, d)) && KeyOf(d.batch) !in s.windows && |s.windows.Keys| == c.maxWindows
  {
    hide Refusal, VerdictOf, Run, V.KeptFor;
    RunKeepsWindows(c, ds);
  }

  /** Sample x came with delivery i, and that was stored. */
  ghost predicate CameWith(c: Config, ds: seq<Delivery>, i: nat, x: Sample) {
    i < |ds| && Enters(c, Run(c, ds[..i]), ds[i]) && x in ds[i].batch.samples
  }

  /** Only valid samples of stored deliveries are retained. */
  lemma RetainsDelivered(c: Config, ds: seq<Delivery>, k: WindowKey, x: Sample) returns (i: nat)
    requires k in Run(c, ds).windows && x in Run(c, ds).windows[k].samples
    ensures C.SampleRefusal(c.sch, x) == None
    ensures CameWith(c, ds, i, x) && V.KeyOf(x) == k && x.provenance.source == SourceOf(ds[i].batch)
  {
    hide V.AddedAll, Run, Entered, C.SampleRefusal, CameWith;
    WindowsHoldEntered(c, ds, k);
    V.RetainsOnlyArrivals(c.policy, V.Flat(Entered(c, ds, k)), x);
    i := EnteredDelivered(c, ds, k, x);
  }

  lemma {:induction false} EnteredDelivered(c: Config, ds: seq<Delivery>, k: WindowKey, x: Sample) returns (i: nat)
    requires x in V.Flat(Entered(c, ds, k))
    ensures C.SampleRefusal(c.sch, x) == None
    ensures CameWith(c, ds, i, x) && V.KeyOf(x) == k && x.provenance.source == SourceOf(ds[i].batch)
  {
    hide BatchRefusal, C.SampleRefusal, VerdictOf, Run;
    var n := |ds| - 1;
    var before := Entered(c, ds[..n], k);
    if x in V.Flat(before) {
      i := EnteredDelivered(c, ds[..n], k, x);
      assert ds[..n][..i] == ds[..i];
    } else {
      i := n;
      var all := before + [ds[n].batch.samples];
      assert all[..|all| - 1] == before;
      assert Entered(c, ds, k) == all || Entered(c, ds, k) == before;
      BatchIsKeyed(c.sch, ds[n].batch);
    }
  }

  /** End to end: whatever is replayed, duplicated, reordered inside its batch, contradicted or
      refused on the way, a count window with room for b - 1 late arrivals selects the last count
      samples of everything that entered it, sorted. */
  lemma IngestedWindowAgrees(c: Config, ds: seq<Delivery>, k: WindowKey, b: nat)
    requires V.ValidPolicy(c.policy) && c.policy.kind.Count? && b >= 1 && c.policy.count + b - 1 <= c.policy.capacity
    requires var bs := Entered(c, ds, k);
      && V.BatchesAscend(bs) && (forall i :: 0 <= i < |bs| ==> |bs[i]| <= b)
      && DistinctIds(V.Flat(bs)) && V.OneOwner(V.Flat(bs))
    ensures V.Selected(c.policy, WindowAt(Run(c, ds).windows, k).samples)
      == LastN(Canonical(V.Flat(Entered(c, ds, k))), c.policy.count)
  {
    hide Run, Entered, V.Selected, Canonical, V.AddedAll, V.BatchesAscend, DistinctIds, V.OneOwner, V.Flat, LastN;
    WindowsHoldEntered(c, ds, k);
    V.BatchedWindowAgrees(c.policy, Entered(c, ds, k), b);
  }

  // ---------------------------------------------------------------------------
  // Replays
  // ---------------------------------------------------------------------------

  /** The guard of a source never moves back. */
  ghost predicate GuardCovers(guards: map<Id, F.Guard>, source: Id, p: F.Position) {
    F.GuardOf(guards, source).initialized && F.AtMost(p, F.GuardOf(guards, source).position)
  }

  lemma GuardNeverRetreats(c: Config, s: State, d: Delivery, source: Id, p: F.Position)
    requires GuardCovers(s.guards, source, p)
    ensures GuardCovers(After(c, s, d).guards, source, p)
  {
    hide Refusal, AddedTo, HasRoom;
  }

  lemma AnsweredIsCovered(c: Config, s: State, d: Delivery)
    requires Answer(c, s, d).Ok? && !d.historical
    ensures GuardCovers(After(c, s, d).guards, SourceOf(d.batch), PositionOf(d.batch))
  {
    hide Refusal, AddedTo, HasRoom;
  }

  lemma {:induction false} CoveredEver(c: Config, ds: seq<Delivery>, i: nat)
    requires i < |ds| && Answer(c, Run(c, ds[..i]), ds[i]).Ok? && !ds[i].historical
    ensures GuardCovers(Run(c, ds).guards, SourceOf(ds[i].batch), PositionOf(ds[i].batch))
  {
    hide Answer, GuardCovers, After;
    var n := |ds| - 1;
    if i == n {
      AnsweredIsCovered(c, Run(c, ds[..n]), ds[n]);
    } else {
      assert ds[..n][..i] == ds[..i];
      CoveredEver(c, ds[..n], i);
      GuardNeverRetreats(c, Run(c, ds[..n]), ds[n], SourceOf(ds[i].batch), PositionOf(ds[i].batch));
    }
  }

  /** Once a current batch got an answer, delivering it again, any number of batches later, stores
      nothing, moves no guard and is never accepted. */
  lemma ReplayChangesNothing(c: Config, ds: seq<Delivery>, i: nat)
    requires i < |ds| && Answer(c, Run(c, ds[..i]), ds[i]).Ok? && !ds[i].historical
    ensures var s := Run(c, ds);
      && After(c, s, ds[i]) == s
      && Answer(c, s, ds[i]).Ok? && !Stores(Answer(c, s, ds[i]).value)
  {
    hide Run, Refusal, AddedTo, HasRoom;
    CoveredEver(c, ds, i);
  }

  /** What an engine that starts in state s makes of a stream. */
  ghost function RunFrom(c: Config, s: State, ds: seq<Delivery>): State {
    if ds == [] then s else After(c, RunFrom(c, s, ds[..|ds| - 1]), ds[|ds| - 1])
  }

  /** Wherever an engine starts, what its guards cover they cover for ever. */
  lemma {:induction false} CoveredFrom(c: Config, s: State, ds: seq<Delivery>, source: Id, p: F.Position)
    requires GuardCovers(s.guards, source, p)
    ensures GuardCovers(RunFrom(c, s, ds).guards, source, p)
  {
    hide GuardCovers, After;
    if ds != [] {
      CoveredFrom(c, s, ds[..|ds| - 1], source, p);
      GuardNeverRetreats(c, RunFrom(c, s, ds[..|ds| - 1]), ds[|ds| - 1], source, p);
    }
  }

  /** A current batch at a position its guard covers is fenced: never stored, nothing changed. */
  lemma CoveredIsFenced(c: Config, s: State, d: Delivery)
    requires Refusal(c, d) == None && !d.historical && GuardCovers(s.guards, SourceOf(d.batch), PositionOf(d.batch))
    ensures After(c, s, d) == s && Answer(c, s, d).Ok? && !Stores(Answer(c, s, d).value)
  {
    hide Refusal, AddedTo, HasRoom;
  }

  lemma {:induction false} GuardsAreSet(c: Config, ds: seq<Delivery>)
    ensures forall source :: source in Run(c, ds).guards ==> Run(c, ds).guards[source].initialized
  {
    hide Refusal, AddedTo, HasRoom;
    if ds != [] {
      GuardsAreSet(c, ds[..|ds| - 1]);
    }
  }

  // ---------------------------------------------------------------------------
  // Running maxima
  // ---------------------------------------------------------------------------

  /** Delivery i is current evidence that got an answer. */
  ghost predicate Answered(c: Config, ds: seq<Delivery>, i: nat) {
    i < |ds| && !ds[i].historical && Answer(c, Run(c, ds[..i]), ds[i]).Ok?
  }

  /** Delivery i is the first answered one of its source at the position of this guard. */
  ghost predicate ReachedBy(c: Config, ds: seq<Delivery>, g: F.Guard, source: Id, i: nat) {
    && Answered(c, ds, i) && SourceOf(ds[i].batch) == source
    && PositionOf(ds[i].batch) == g.position && ds[i].batch.content == g.content
  }

  lemma {:induction false} GuardReached(c: Config, ds: seq<Delivery>, source: Id) returns (i: nat)
    requires F.GuardOf(Run(c, ds).guards, source).initialized
    ensures ReachedBy(c, ds, F.GuardOf(Run(c, ds).guards, source), source, i)
  {
    hide Refusal, AddedTo, HasRoom;
    var n := |ds| - 1;
    var s := Run(c, ds[..n]);
    if Enters(c, s, ds[n]) && Answer(c, s, ds[n]).value.Accept? && SourceOf(ds[n].batch) == source {
      i := n;
      AcceptReaches(c, s, ds[n]);
    } else {
      assert F.GuardOf(Run(c, ds).guards, source) == F.GuardOf(s.guards, source);
      i := GuardReached(c, ds[..n], source);
      assert ds[..n][..i] == ds[..i];
    }
  }

  lemma AcceptReaches(c: Config, s: State, d: Delivery)
    requires Enters(c, s, d) && Answer(c, s, d).value.Accept?
    ensures !d.historical
    ensures F.GuardOf(After(c, s, d).guards, SourceOf(d.batch)) == F.Guard(true, PositionOf(d.batch), d.batch.content)
  {
    hide Refusal, AddedTo, HasRoom;
  }

  /** Whatever is delivered, the guard of every source stands at the largest position of the
      current batches of that source that got an answer, and is unset while there is none. */
  lemma SourceGuardIsMaximum(c: Config, ds: seq<Delivery>, source: Id)
    ensures var g := F.GuardOf(Run(c, ds).guards, source);
      && (g.initialized <==> exists i: nat :: Answered(c, ds, i) && SourceOf(ds[i].batch) == source)
      && (g.initialized ==> exists i: nat :: ReachedBy(c, ds, g, source, i))
      && (forall i: nat :: Answered(c, ds, i) && SourceOf(ds[i].batch) == source ==>
            F.AtMost(PositionOf(ds[i].batch), g.position))
  {
    hide Run, Answer, F.AtMost, F.GuardOf, ReachedBy;
    var g := F.GuardOf(Run(c, ds).guards, source);
    forall i: nat | Answered(c, ds, i) && SourceOf(ds[i].batch) == source
      ensures g.initialized && F.AtMost(PositionOf(ds[i].batch), g.position)
    {
      CoveredEver(c, ds, i);
    }
    if g.initialized {
      var i := GuardReached(c, ds, source);
      AnsweredAt(c, ds, ds, i, g, source);
    }
  }

  /** Over any stream of batches from any number of sources: a current batch that gets an answer is
      accepted exactly when its position is above that of every current batch of its source
      answered before it. */
  lemma AcceptedAreMaxima(c: Config, ds: seq<Delivery>, i: nat)
    requires Answered(c, ds, i)
    ensures Answer(c, Run(c, ds[..i]), ds[i]).value.Accept? <==>
      forall j: nat :: Answered(c, ds, j) && j < i && SourceOf(ds[j].batch) == SourceOf(ds[i].batch) ==>
        F.Below(PositionOf(ds[j].batch), PositionOf(ds[i].batch))
  {
    hide Run, Refusal, HasRoom, ReachedBy;
    var before, source := ds[..i], SourceOf(ds[i].batch);
    forall j: nat | j < i
      ensures Answered(c, before, j) <==> Answered(c, ds, j)
    {
      assert before[..j] == ds[..j];
    }
    SourceGuardIsMaximum(c, before, source);
    var g := F.GuardOf(Run(c, before).guards, source);
    if g.initialized {
      var j := GuardReached(c, before, source);
      AnsweredAt(c, before, ds, j, g, source);
      F.VerdictIsOrder(g, PositionOf(ds[i].batch), ds[i].batch.content);
    }
  }

  lemma AnsweredAt(c: Config, before: seq<Delivery>, ds: seq<Delivery>, j: nat, g: F.Guard, source: Id)
    requires ReachedBy(c, before, g, source, j) && |before| <= |ds| && before == ds[..|before|]
    ensures j < |before| && Answered(c, ds, j)
    ensures SourceOf(ds[j].batch) == source && PositionOf(ds[j].batch) == g.position
  {
    hide Answer, Run;
    assert before[..j] == ds[..j];
  }
}
