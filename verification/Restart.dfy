/** Saving the engine and restoring it into a fresh one (src/engine.cpp): what a restart keeps of
    windows, route histories and fencing guards. */
module Restart {
  import opened Errors
  import opened CanonicalBytes
  import opened Lists
  import opened RecordForms
  import opened Samples
  import opened SampleCodec
  import opened RecordCodec
  import S = StoreFormat
  import L = StoreLoader
  import R = StoreRecovery
  import W = StoreWriter
  import T = StoreTheorems
  import P = Paths
  import F = Fencing
  import V = Window
  import I = Ingest

  type WindowKey = V.WindowKey

  /** The part of the engine modelled here; a window is the samples it retains. */
  datatype Engine = Engine(
    paths: seq<PathDescriptor>, generations: map<Id, seq<P.Generation>>, windows: map<WindowKey, seq<Sample>>,
    guards: map<Id, F.Guard>)

  // The order in which the engine's maps are walked.
  datatype Order = Order(paths: seq<Id>, windows: seq<WindowKey>, guards: seq<Id>)

  ghost predicate ListsIds(order: seq<Id>, keys: set<Id>) {
    && (forall k: Id :: k in order <==> k in keys)
    && (forall i, j :: 0 <= i < j < |order| ==> order[i] != order[j])
  }

  ghost predicate ListsKeys(order: seq<WindowKey>, keys: set<WindowKey>) {
    && (forall k: WindowKey :: k in order <==> k in keys)
    && (forall i, j :: 0 <= i < j < |order| ==> order[i] != order[j])
  }

  function WindowOf(windows: map<WindowKey, seq<Sample>>, k: WindowKey): seq<Sample> {
    if k in windows then windows[k] else []
  }

  // ---------------------------------------------------------------------------
  // Saving
  // ---------------------------------------------------------------------------

  function Records<A>(kind: S.RecordType, enc: A -> Bytes, s: seq<A>): seq<S.Rec> {
    if s == [] then [] else [S.Rec(kind, enc(s[0]))] + Records(kind, enc, s[1..])
  }

  /** Each window's snapshot, one window after the other. */
  function AllSamples(windows: map<WindowKey, seq<Sample>>, order: seq<WindowKey>): seq<Sample> {
    if order == [] then [] else Canonical(WindowOf(windows, order[0])) + AllSamples(windows, order[1..])
  }

  function GuardPairs(guards: map<Id, F.Guard>, order: seq<Id>): (s: seq<(Id, F.Guard)>)
    ensures |s| == |order|
    ensures forall i :: 0 <= i < |s| ==> s[i] == (order[i], F.GuardOf(guards, order[i]))
  {
    if order == [] then [] else [(order[0], F.GuardOf(guards, order[0]))] + GuardPairs(guards, order[1..])
  }

  function EncGuardPair(g: (Id, F.Guard)): Bytes {
    EncGuard(g.0, g.1)
  }

  /** The records save writes, in order. */
  function Saved(e: Engine, o: Order): seq<S.Rec> {
    Records(S.Path, EncPath, e.paths)
      + (Records(S.Generation, EncGeneration, P.AllGenerations(e.generations, o.paths))
         + (Records(S.Sample, EncSample, AllSamples(e.windows, o.windows))
            + Records(S.SourceGuard, EncGuardPair, GuardPairs(e.guards, o.guards))))
  }

  /** The writer is open and has written exactly the records rs. */
  ghost predicate Holds(w: W.Writer, h: S.StoreHeader, rs: seq<S.Rec>)
    reads w, w.file
  {
    w.open && T.Reachable(w.chk, h, rs) && w.Abstract() == T.StateOf(w.chk, h, rs)
  }

  // One append; on success the writer is the writer of the longer log.
  method AppendRecord(w: W.Writer, kind: S.RecordType, payload: Bytes, ghost h: S.StoreHeader, ghost rs: seq<S.Rec>)
    returns (status: Status)
    requires Holds(w, h, rs) && !kind.Trailer?
    modifies w, w.file
    ensures status.Success? ==> Holds(w, h, rs + [S.Rec(kind, payload)])
  {
    hide T.Reachable, T.StateOf, W.Appended, W.AppendRefusal;
    status := w.Append(kind, payload);
    if status.Success? {
      AcceptedGrows(w.chk, h, rs, kind, payload);
    }
  }

  lemma AcceptedGrows(chk: S.Checks, h: S.StoreHeader, rs: seq<S.Rec>, kind: S.RecordType, payload: Bytes)
    requires T.Reachable(chk, h, rs) && W.Appended(chk, T.StateOf(chk, h, rs), kind, payload).status.Success?
    ensures T.Reachable(chk, h, rs + [S.Rec(kind, payload)])
    ensures W.Appended(chk, T.StateOf(chk, h, rs), kind, payload).state
      == T.StateOf(chk, h, rs + [S.Rec(kind, payload)])
  {
    hide T.Reachable, T.StateOf, W.AppendRefusal;
    T.StepKeepsLog(chk, h, rs, T.AppendCall(kind, payload));
  }

  // One loop of save: encode and append each record of a kind.
  method AppendAll<A>(w: W.Writer, kind: S.RecordType, enc: A -> Bytes, s: seq<A>,
                      ghost h: S.StoreHeader, ghost rs: seq<S.Rec>)
    returns (status: Status)
    requires Holds(w, h, rs) && !kind.Trailer?
    modifies w, w.file
    ensures status.Success? ==> Holds(w, h, rs + Records(kind, enc, s))
  {
    hide Holds;
    ghost var done := rs;
    for i := 0 to |s|
      invariant Holds(w, h, done)
      invariant rs + Records(kind, enc, s) == done + Records(kind, enc, s[i..])
    {
      var payload := enc(s[i]);
      status := AppendRecord(w, kind, payload, h, done);
      if status.Failure? {
        return;
      }
      assert s[i..][1..] == s[i + 1..];
      Regroup(done, [S.Rec(kind, payload)], Records(kind, enc, s[i + 1..]));
      done := done + [S.Rec(kind, payload)];
    }
    assert done + Records(kind, enc, s[|s|..]) == done;
    status := Success;
  }

  // The four loops of save, in its order.
  method AppendEngine(w: W.Writer, e: Engine, o: Order, ghost h: S.StoreHeader) returns (status: Status)
    requires Holds(w, h, [])
    modifies w, w.file
    ensures status.Success? ==> Holds(w, h, Saved(e, o))
  {
    hide Holds, Records, P.AllGenerations, AllSamples, GuardPairs;
    ghost var a := Records(S.Path, EncPath, e.paths);
    ghost var b := Records(S.Generation, EncGeneration, P.AllGenerations(e.generations, o.paths));
    ghost var c := Records(S.Sample, EncSample, AllSamples(e.windows, o.windows));
    ghost var d := Records(S.SourceGuard, EncGuardPair, GuardPairs(e.guards, o.guards));
    assert [] + a == a;
    status := AppendAll(w, S.Path, EncPath, e.paths, h, []);
    if status.Failure? { return; }
    status := AppendAll(w, S.Generation, EncGeneration, P.AllGenerations(e.generations, o.paths), h, a);
    if status.Failure? { return; }
    status := AppendAll(w, S.Sample, EncSample, AllSamples(e.windows, o.windows), h, a + b);
    if status.Failure? { return; }
    Regroup(a, b, c);
    status := AppendAll(w, S.SourceGuard, EncGuardPair, GuardPairs(e.guards, o.guards), h, (a + b) + c);
    Regroup(a + b, c, d);
    Regroup(a, b, c + d);
  }

  /** A log of data records closed by its trailer. */
  function ClosedLog(chk: S.Checks, h: S.StoreHeader, rs: seq<S.Rec>): seq<S.Rec>
    requires S.DataCount(rs) < 0x1_0000_0000_0000_0000
  {
    rs + [S.Rec(S.Trailer, S.TrailerPayload(S.DataCount(rs), S.ChainAfter(chk, h, rs)))]
  }

  /** save: create, append every record, close with the trailer. When nothing was refused the file
      is the image of exactly those records. */
  method Save(chk: S.Checks, file: W.StoreFile, header: S.StoreHeader, fileExists: bool, truncateExisting: bool,
              e: Engine, o: Order)
    returns (status: Status)
    modifies file
    ensures status.Success? ==>
      && T.Reachable(chk, header, Saved(e, o))
      && S.DataCount(Saved(e, o)) < 0x1_0000_0000_0000_0000
      && T.Reachable(chk, header, ClosedLog(chk, header, Saved(e, o)))
      && file.bytes == S.Image(chk, header, ClosedLog(chk, header, Saved(e, o)))
  {
    hide T.Reachable, T.StateOf, W.Closed, S.Image, W.Created, Saved, ClosedLog;
    var created := W.Writer.Create(chk, file, header, fileExists, truncateExisting);
    if created.Err? {
      return Failure(created.error);
    }
    var w := created.value;
    T.CreatedIsEmptyLog(chk, header);
    status := AppendEngine(w, e, o, header);
    if status.Failure? { return; }
    CountFits(chk, header, Saved(e, o));
    status := w.AppendTrailer();
    if status.Success? {
      ClosedGrows(chk, header, Saved(e, o));
    }
  }

  lemma CountFits(chk: S.Checks, h: S.StoreHeader, rs: seq<S.Rec>)
    requires T.Reachable(chk, h, rs)
    ensures S.DataCount(rs) < 0x1_0000_0000_0000_0000
    ensures T.StateOf(chk, h, rs).recordCount == S.DataCount(rs)
  {
    hide S.Image, S.ChainAfter, R.Written;
  }

  lemma ClosedGrows(chk: S.Checks, h: S.StoreHeader, rs: seq<S.Rec>)
    requires T.Reachable(chk, h, rs) && S.DataCount(rs) < 0x1_0000_0000_0000_0000
    requires T.StateOf(chk, h, rs).recordCount < 0x1_0000_0000_0000_0000
    requires W.Closed(chk, T.StateOf(chk, h, rs)).status.Success?
    ensures T.Reachable(chk, h, ClosedLog(chk, h, rs))
    ensures W.Closed(chk, T.StateOf(chk, h, rs)).state.file == S.Image(chk, h, ClosedLog(chk, h, rs))
  {
    hide T.Reachable, S.Image, S.ChainAfter, S.DataCount, W.Grow;
    T.StepKeepsLog(chk, h, rs, T.TrailerCall);
    assert T.Added(T.StateOf(chk, h, rs), T.TrailerCall) == [W.TrailerRecord(T.StateOf(chk, h, rs))];
  }

  // ---------------------------------------------------------------------------
  // Loading back
  // ---------------------------------------------------------------------------

  function RecordsOf(rs: seq<L.StoredRecord>): (s: seq<S.Rec>)
    ensures |s| == |rs|
    ensures forall i :: 0 <= i < |s| ==> s[i] == S.Rec(rs[i].kind, rs[i].payload)
  {
    if rs == [] then [] else [S.Rec(rs[0].kind, rs[0].payload)] + RecordsOf(rs[1..])
  }

  ghost predicate OnlyData(rs: seq<S.Rec>) {
    forall i :: 0 <= i < |rs| ==> !rs[i].kind.Trailer?
  }

  /** A closed log loads clean, with its trailer, and gives back its records. */
  lemma ClosedLogLoads(chk: S.Checks, h: S.StoreHeader, rs: seq<S.Rec>)
    requires OnlyData(rs) && S.DataCount(rs) < 0x1_0000_0000_0000_0000
    requires T.Reachable(chk, h, ClosedLog(chk, h, rs))
    ensures var file := S.Image(chk, h, ClosedLog(chk, h, rs));
      && L.Loaded(chk, file).Ok?
      && var l := L.Loaded(chk, file).value;
      && l.header == h && l.recovery.clean && !l.recovery.midFileCorruption && l.recovery.trailerPresent
      && l.trailerRecordCount == l.recovery.recordsRecovered - 1
      && RecordsOf(l.records) == ClosedLog(chk, h, rs)
  {
    hide S.Image, L.Loaded, S.ChainAfter, R.Stored, S.Offset, T.Reachable;
    var all := ClosedLog(chk, h, rs);
    var n := |S.Image(chk, h, all)|;
    T.ReachableIsWritten(chk, h, all);
    R.WholeOffset(chk, h, all);
    R.LoadCut(chk, h, all, n, |all|);
    assert S.Image(chk, h, all)[..n] == S.Image(chk, h, all);
    var stored := R.Stored(chk, h, all, |all|);
    forall i | 0 <= i < |all|
      ensures RecordsOf(stored)[i] == all[i]
    {
      R.StoredAt(chk, h, all, |all|, i);
    }
  }

  // ---------------------------------------------------------------------------
  // Reading the records
  // ---------------------------------------------------------------------------

  datatype Intake = Intake(
    paths: set<Id>, generations: map<Id, seq<P.Generation>>, samples: seq<Sample>, guards: seq<(Id, F.Guard)>)

  const NOTHING: Intake := Intake({}, map[], [], [])

  function Taken(sch: Scheme, x: Intake, r: S.Rec): Result<Intake> {
    match r.kind
    case Path =>
      (match DecPath(sch, r.payload)
       case Malformed(e) => Err(e)
       case Parsed(p, _) => Ok(x.(paths := x.paths + {p.id})))
    case Generation =>
      (match DecGeneration(sch, r.payload)
       case Malformed(e) => Err(e)
       case Parsed(g, _) =>
         match P.ImportStatus(x.paths, x.generations, g)
         case Failure(e) => Err(e)
         case Success => Ok(x.(generations := P.Imported(x.generations, g))))
    case Sample =>
      (match DecSample(sch, r.payload)
       case Malformed(e) => Err(e)
       case Parsed(s, _) => Ok(x.(samples := x.samples + [s])))
    case SourceGuard =>
      (match DecGuard(r.payload)
       case Malformed(e) => Err(e)
       case Parsed(g, _) => Ok(x.(guards := x.guards + [g])))
    case _ => Ok(x)
  }

  function TakenAll(sch: Scheme, x: Intake, rs: seq<S.Rec>): Result<Intake>
    decreases |rs|
  {
    if rs == [] then Ok(x)
    else
      var next :- Taken(sch, x, rs[0]);
      TakenAll(sch, next, rs[1..])
  }

  // The record loop of restore.
  method TakeIn(sch: Scheme, rs: seq<L.StoredRecord>) returns (res: Result<Intake>)
    ensures res == TakenAll(sch, NOTHING, RecordsOf(rs))
  {
    hide DecPath, DecGeneration, DecSample, DecGuard, P.Imported, P.ImportStatus;
    var x := NOTHING;
    ghost var all := RecordsOf(rs);
    for i := 0 to |rs|
      invariant TakenAll(sch, NOTHING, all) == TakenAll(sch, x, all[i..])
    {
      assert all[i..][1..] == all[i + 1..];
      x :- TakeOne(sch, x, rs[i].kind, rs[i].payload);
    }
    res := Ok(x);
  }

  method TakeOne(sch: Scheme, x: Intake, kind: S.RecordType, payload: Bytes) returns (res: Result<Intake>)
    ensures res == Taken(sch, x, S.Rec(kind, payload))
  {
    hide DecPath, DecGeneration, DecSample, DecGuard, P.Imported, P.ImportStatus;
    match kind
    case Path =>
      res := TakePath(sch, x, payload);
    case Generation =>
      res := TakeGeneration(sch, x, payload);
    case Sample =>
      res := TakeSample(sch, x, payload);
    case SourceGuard =>
      res := TakeGuard(sch, x, payload);
    case _ =>
      res := Ok(x);
  }

  method TakePath(sch: Scheme, x: Intake, payload: Bytes) returns (res: Result<Intake>)
    ensures res == Taken(sch, x, S.Rec(S.Path, payload))
  {
    hide DecPath, DecGeneration, DecSample, DecGuard, P.Imported, P.ImportStatus;
    var reader := new ByteReader(payload);
    var p :- ReadPath(sch, reader);
    res := Ok(x.(paths := x.paths + {p.id}));
  }

  method TakeGeneration(sch: Scheme, x: Intake, payload: Bytes) returns (res: Result<Intake>)
    ensures res == Taken(sch, x, S.Rec(S.Generation, payload))
  {
    hide DecPath, DecGeneration, DecSample, DecGuard, P.Imported, P.ImportStatus;
    var reader := new ByteReader(payload);
    var g :- ReadGeneration(sch, reader);
    var status := P.ImportStatus(x.paths, x.generations, g);
    if status.Failure? {
      return Err(status.error);
    }
    res := Ok(x.(generations := P.Imported(x.generations, g)));
  }

  method TakeSample(sch: Scheme, x: Intake, payload: Bytes) returns (res: Result<Intake>)
    ensures res == Taken(sch, x, S.Rec(S.Sample, payload))
  {
    hide DecPath, DecGeneration, DecSample, DecGuard, P.Imported, P.ImportStatus;
    var reader := new ByteReader(payload);
    var s :- ReadSample(sch, reader);
    res := Ok(x.(samples := x.samples + [s]));
  }

  method TakeGuard(sch: Scheme, x: Intake, payload: Bytes) returns (res: Result<Intake>)
    ensures res == Taken(sch, x, S.Rec(S.SourceGuard, payload))
  {
    hide DecPath, DecGeneration, DecSample, DecGuard, P.Imported, P.ImportStatus;
    var reader := new ByteReader(payload);
    var g :- ReadGuard(reader);
    res := Ok(x.(guards := x.guards + [g]));
  }

  /** A path whose encoding gives it back. */
  ghost predicate PathReturns(sch: Scheme, p: PathDescriptor) {
    SealedPath(sch, p) && forall i :: 0 <= i < |p.hops| ==> p.hops[i].timingClock != Some(NIL_ID)
  }

  function PathIds(ps: seq<PathDescriptor>): set<Id> {
    if ps == [] then {} else {ps[0].id} + PathIds(ps[1..])
  }

  lemma {:induction false} TakePaths(sch: Scheme, x: Intake, ps: seq<PathDescriptor>, rest: seq<S.Rec>)
    requires forall i :: 0 <= i < |ps| ==> PathReturns(sch, ps[i])
    ensures TakenAll(sch, x, Records(S.Path, EncPath, ps) + rest)
      == TakenAll(sch, x.(paths := x.paths + PathIds(ps)), rest)
    decreases |ps|
  {
    hide PathReturns, DecPath, EncPath, DecGeneration, DecSample, DecGuard;
    if ps == [] {
      assert Records(S.Path, EncPath, ps) + rest == rest;
      assert x.paths + PathIds(ps) == x.paths;
    } else {
      var all := Records(S.Path, EncPath, ps) + rest;
      assert all[0] == S.Rec(S.Path, EncPath(ps[0])) && all[1..] == Records(S.Path, EncPath, ps[1..]) + rest;
      PathComesBack(sch, ps[0]);
      TakePaths(sch, x.(paths := x.paths + {ps[0].id}), ps[1..], rest);
      assert x.paths + {ps[0].id} + PathIds(ps[1..]) == x.paths + PathIds(ps);
    }
  }

  lemma PathComesBack(sch: Scheme, p: PathDescriptor)
    requires PathReturns(sch, p)
    ensures DecPath(sch, EncPath(p)) == Parsed(p, [])
  {
    hide DecPath, EncPath, SealedPath;
    PathRoundTripIff(sch, p, []);
    assert EncPath(p) + [] == EncPath(p);
  }

  lemma {:induction false} TakeGenerations(sch: Scheme, x: Intake, gs: seq<P.Generation>, rest: seq<S.Rec>)
    requires forall i :: 0 <= i < |gs| ==> SealedGeneration(sch, gs[i])
    requires P.AllImport(x.paths, x.generations, gs)
    ensures TakenAll(sch, x, Records(S.Generation, EncGeneration, gs) + rest)
      == TakenAll(sch, x.(generations := P.ImportedAll(x.generations, gs)), rest)
    decreases |gs|
  {
    hide DecPath, EncGeneration, DecGeneration, DecSample, DecGuard, SealedGeneration, P.Imported, P.ImportStatus;
    if gs == [] {
      assert Records(S.Generation, EncGeneration, gs) + rest == rest;
    } else {
      var all := Records(S.Generation, EncGeneration, gs) + rest;
      assert all[0] == S.Rec(S.Generation, EncGeneration(gs[0]));
      assert all[1..] == Records(S.Generation, EncGeneration, gs[1..]) + rest;
      GenerationRoundTrip(sch, gs[0], []);
      assert EncGeneration(gs[0]) + [] == EncGeneration(gs[0]);
      TakeGenerations(sch, x.(generations := P.Imported(x.generations, gs[0])), gs[1..], rest);
    }
  }

  function ResealedAll(sch: Scheme, ss: seq<Sample>): (r: seq<Sample>)
    ensures |r| == |ss| && forall i :: 0 <= i < |ss| ==> r[i] == Resealed(sch, ss[i])
  {
    seq(|ss|, i requires 0 <= i < |ss| => Resealed(sch, ss[i]))
  }

  /** Samples are read back resealed, whatever identities they were saved under. */
  lemma {:induction false} TakeSamples(sch: Scheme, x: Intake, ss: seq<Sample>, rest: seq<S.Rec>)
    requires forall i :: 0 <= i < |ss| ==> Acceptable(sch, ss[i])
    ensures TakenAll(sch, x, Records(S.Sample, EncSample, ss) + rest)
      == TakenAll(sch, x.(samples := x.samples + ResealedAll(sch, ss)), rest)
    decreases |ss|
  {
    hide DecPath, DecGeneration, DecSample, EncSample, DecGuard, Acceptable, Resealed;
    if ss == [] {
      assert Records(S.Sample, EncSample, ss) + rest == rest;
      assert x.samples + ResealedAll(sch, ss) == x.samples;
    } else {
      var all := Records(S.Sample, EncSample, ss) + rest;
      assert all[0] == S.Rec(S.Sample, EncSample(ss[0])) && all[1..] == Records(S.Sample, EncSample, ss[1..]) + rest;
      ReadsResealed(sch, ss[0], []);
      assert EncSample(ss[0]) + [] == EncSample(ss[0]);
      TakeSamples(sch, x.(samples := x.samples + [Resealed(sch, ss[0])]), ss[1..], rest);
      assert x.samples + [Resealed(sch, ss[0])] + ResealedAll(sch, ss[1..]) == x.samples + ResealedAll(sch, ss);
    }
  }

  lemma {:induction false} TakeGuards(sch: Scheme, x: Intake, gs: seq<(Id, F.Guard)>, rest: seq<S.Rec>)
    ensures TakenAll(sch, x, Records(S.SourceGuard, EncGuardPair, gs) + rest)
      == TakenAll(sch, x.(guards := x.guards + gs), rest)
    decreases |gs|
  {
    hide DecPath, DecGeneration, DecSample, DecGuard, EncGuard;
    if gs == [] {
      assert Records(S.SourceGuard, EncGuardPair, gs) + rest == rest;
      assert x.guards + gs == x.guards;
    } else {
      var all := Records(S.SourceGuard, EncGuardPair, gs) + rest;
      assert all[0] == S.Rec(S.SourceGuard, EncGuardPair(gs[0]));
      assert all[1..] == Records(S.SourceGuard, EncGuardPair, gs[1..]) + rest;
      GuardRoundTrip(gs[0].0, gs[0].1, []);
      assert EncGuard(gs[0].0, gs[0].1) + [] == EncGuard(gs[0].0, gs[0].1);
      TakeGuards(sch, x.(guards := x.guards + [gs[0]]), gs[1..], rest);
      assert x.guards + [gs[0]] + gs[1..] == x.guards + gs;
    }
  }

  lemma {:induction false} OnlyDataRecords<A>(kind: S.RecordType, enc: A -> Bytes, s: seq<A>)
    requires !kind.Trailer?
    ensures OnlyData(Records(kind, enc, s))
  {
    if s != [] {
      OnlyDataRecords(kind, enc, s[1..]);
    }
  }

  // ---------------------------------------------------------------------------
  // What the engine holds
  // ---------------------------------------------------------------------------

  // The engine's configuration as far as windows are concerned.
  datatype Limits = Limits(policy: V.WindowPolicy, maxWindows: nat)

  /** An engine as its operations leave it: histories within bounds and with derived identities,
      every window holding distinct valid samples of its own series and generation. */
  ghost predicate Sound(sch: Scheme, limits: Limits, e: Engine, o: Order) {
    && (forall i :: 0 <= i < |e.paths| ==> PathReturns(sch, e.paths[i]))
    && ListsIds(o.paths, e.generations.Keys) && ListsKeys(o.windows, e.windows.Keys)
    && ListsIds(o.guards, e.guards.Keys)
    && (forall p: Id :: p in e.generations ==> SoundHistory(sch, PathIds(e.paths), p, e.generations[p]))
    && (forall k: WindowKey :: k in e.windows ==> SoundWindow(sch, limits.policy, k, e.windows[k]))
    && |e.windows.Keys| <= limits.maxWindows
    && GuardsSet(e.guards)
  }

  // A guard that was looked up but never set is the same as none.
  ghost predicate GuardsSet(guards: map<Id, F.Guard>) {
    forall source: Id :: source in guards ==> guards[source].initialized
  }

  ghost predicate SoundHistory(sch: Scheme, paths: set<Id>, p: Id, h: seq<P.Generation>) {
    p in paths && P.Storable(h, p) && forall i :: 0 <= i < |h| ==> SealedGeneration(sch, h[i])
  }

  ghost predicate SoundWindow(sch: Scheme, policy: V.WindowPolicy, k: WindowKey, s: seq<Sample>) {
    && |s| <= policy.capacity && DistinctIds(s)
    && forall i :: 0 <= i < |s| ==> Acceptable(sch, s[i]) && V.KeyOf(s[i]) == k
  }

  ghost predicate AllSealed(sch: Scheme, s: seq<Sample>) {
    forall i :: 0 <= i < |s| ==> Sealed(sch, s[i])
  }

  lemma {:induction false} SealedGenerations(
    sch: Scheme, paths: set<Id>, gs: map<Id, seq<P.Generation>>, order: seq<Id>)
    requires forall p: Id :: p in gs ==> SoundHistory(sch, paths, p, gs[p])
    ensures forall i :: 0 <= i < |P.AllGenerations(gs, order)| ==> SealedGeneration(sch, P.AllGenerations(gs, order)[i])
  {
    hide SealedGeneration, P.Storable;
    if order != [] {
      SealedGenerations(sch, paths, gs, order[1..]);
    }
  }

  lemma {:induction false} AcceptableSamples(
    sch: Scheme, policy: V.WindowPolicy, windows: map<WindowKey, seq<Sample>>, order: seq<WindowKey>)
    requires forall k: WindowKey :: k in windows ==> SoundWindow(sch, policy, k, windows[k])
    ensures forall i :: 0 <= i < |AllSamples(windows, order)| ==> Acceptable(sch, AllSamples(windows, order)[i])
  {
    hide Acceptable, Canonical, DistinctIds;
    if order != [] {
      AcceptableSamples(sch, policy, windows, order[1..]);
      var w := WindowOf(windows, order[0]);
      forall i | 0 <= i < |Canonical(w)|
        ensures Acceptable(sch, Canonical(w)[i])
      {
        V.SameMembers(w, Canonical(w)[i]);
        assert Canonical(w)[i] in w;
      }
    }
  }

  // ---------------------------------------------------------------------------
  // Regrouping samples into windows
  // ---------------------------------------------------------------------------

  /** The samples of one window among all that were read. */
  function GroupOf(samples: seq<Sample>, k: WindowKey): seq<Sample> {
    if samples == [] then []
    else
      var last := samples[|samples| - 1];
      GroupOf(samples[..|samples| - 1], k) + if V.KeyOf(last) == k then [last] else []
  }

  lemma {:induction false} GroupConcat(a: seq<Sample>, b: seq<Sample>, k: WindowKey)
    ensures GroupOf(a + b, k) == GroupOf(a, k) + GroupOf(b, k)
  {
    hide V.KeyOf;
    if b == [] {
      assert a + b == a;
    } else {
      GroupConcat(a, b[..|b| - 1], k);
      assert (a + b)[..|a + b| - 1] == a + b[..|b| - 1];
    }
  }

  lemma {:induction false} GroupOfOne(s: seq<Sample>, k: WindowKey, own: WindowKey)
    requires forall i :: 0 <= i < |s| ==> V.KeyOf(s[i]) == own
    ensures GroupOf(s, k) == if k == own then s else []
  {
    hide V.KeyOf;
    if s != [] {
      GroupOfOne(s[..|s| - 1], k, own);
    }
  }

  /** Grouping what was saved gives each window its snapshot. */
  lemma {:induction false} GroupOfAll(
    sch: Scheme, policy: V.WindowPolicy, windows: map<WindowKey, seq<Sample>>, order: seq<WindowKey>, k: WindowKey)
    requires forall w: WindowKey :: w in windows ==> SoundWindow(sch, policy, w, windows[w])
    requires forall i, j :: 0 <= i < j < |order| ==> order[i] != order[j]
    ensures GroupOf(AllSamples(windows, order), k) == if k in order then Canonical(WindowOf(windows, k)) else []
  {
    hide Acceptable, Canonical, DistinctIds, GroupOf, V.KeyOf;
    if order == [] {
      NoGroup(k);
    } else {
      var w := WindowOf(windows, order[0]);
      GroupOfAll(sch, policy, windows, order[1..], k);
      forall i | 0 <= i < |Canonical(w)|
        ensures V.KeyOf(Canonical(w)[i]) == order[0]
      {
        V.SameMembers(w, Canonical(w)[i]);
        assert Canonical(w)[i] in w;
      }
      GroupOfOne(Canonical(w), k, order[0]);
      GroupConcat(Canonical(w), AllSamples(windows, order[1..]), k);
      assert k in order <==> k == order[0] || k in order[1..];
    }
  }

  lemma NoGroup(k: WindowKey)
    ensures GroupOf([], k) == []
  {
  }

  /** The comparator restore sorts by: observation time, then identity, without the sequence. */
  predicate RestoreLess(a: Sample, b: Sample) {
    if a.observedAt.ticks != b.observedAt.ticks then a.observedAt.ticks < b.observedAt.ticks else LexLess(a.id, b.id)
  }

  ghost function RestoredWindow(policy: V.WindowPolicy, samples: seq<Sample>, k: WindowKey): V.Contents {
    V.AddedAll(policy, SortBy(RestoreLess, GroupOf(samples, k)))
  }

  /** Although restore re-adds the samples in another order, the window selects what it selected,
      whatever its kind, and would be saved as it was saved. */
  lemma WindowSurvives(sch: Scheme, policy: V.WindowPolicy, k: WindowKey, s: seq<Sample>, snapshot: seq<Sample>)
    requires V.ValidPolicy(policy) && SoundWindow(sch, policy, k, s) && snapshot == Canonical(s)
    ensures var restored := V.AddedAll(policy, SortBy(RestoreLess, snapshot));
      && V.Selected(policy, restored.samples) == V.Selected(policy, s)
      && Canonical(restored.samples) == Canonical(s)
      && multiset(restored.samples) == multiset(s)
  {
    hide Canonical, RestoreLess, SortBy, V.Selected, V.AddedAll, Sealed;
    SortMembers(RestoreLess, snapshot);
    CanonicalMembers(s);
    V.RestoredSelectsSame(policy, s, SortBy(RestoreLess, snapshot));
  }

  lemma CanonicalMembers(s: seq<Sample>)
    ensures multiset(Canonical(s)) == multiset(s)
  {
    SortMembers(Less, s);
  }

  ghost predicate Refilled(policy: V.WindowPolicy, samples: seq<Sample>, k: WindowKey, w: V.SampleWindow)
    reads w
  {
    w.policy == policy && w.Value() == RestoredWindow(policy, samples, k)
  }

  // ---------------------------------------------------------------------------
  // The order of restoring
  // ---------------------------------------------------------------------------

  /** The order of the map restore groups by: series, then generation. */
  predicate KeyLess(a: WindowKey, b: WindowKey) {
    if a.series != b.series then LexLess(a.series, b.series) else LexLess(a.generation, b.generation)
  }

  function WithKey(keys: seq<WindowKey>, k: WindowKey): seq<WindowKey> {
    if keys == [] || KeyLess(k, keys[0]) then [k] + keys
    else if k == keys[0] then keys
    else [keys[0]] + WithKey(keys[1..], k)
  }

  /** The keys of the windows the samples belong to, in order. */
  function KeysOf(samples: seq<Sample>): seq<WindowKey> {
    if samples == [] then []
    else WithKey(KeysOf(samples[..|samples| - 1]), V.KeyOf(samples[|samples| - 1]))
  }

  /** Those for which a fresh engine still has room. */
  function KeptKeys(samples: seq<Sample>, maxWindows: nat): seq<WindowKey> {
    var keys := KeysOf(samples);
    if |keys| <= maxWindows then keys else keys[..maxWindows]
  }

  /** Window by window, each in the order restore sorts it. */
  function RestoreOrder(samples: seq<Sample>, keys: seq<WindowKey>): seq<Sample> {
    if keys == [] then []
    else
      var n := |keys| - 1;
      RestoreOrder(samples, keys[..n]) + SortBy(RestoreLess, GroupOf(samples, keys[n]))
  }

  ghost predicate KeysAreOrdered(keys: seq<WindowKey>) {
    forall i, j :: 0 <= i < j < |keys| ==> KeyLess(keys[i], keys[j])
  }

  lemma KeyOrder(a: WindowKey, b: WindowKey, c: WindowKey)
    ensures KeyLess(a, b) || a == b || KeyLess(b, a)
    ensures !KeyLess(a, a)
    ensures KeyLess(a, b) && KeyLess(b, c) ==> KeyLess(a, c)
  {
    hide LexLess;
    LexTotal(a.series, b.series);
    LexTotal(a.generation, b.generation);
    LexTotal(a.series, a.series);
    LexTotal(a.generation, a.generation);
    if LexLess(a.series, b.series) && LexLess(b.series, c.series) {
      LexTransitive(a.series, b.series, c.series);
      LexTotal(a.series, c.series);
    }
    if LexLess(a.generation, b.generation) && LexLess(b.generation, c.generation) {
      LexTransitive(a.generation, b.generation, c.generation);
    }
  }

  lemma {:induction false} WithKeyOrdered(keys: seq<WindowKey>, k: WindowKey)
    requires KeysAreOrdered(keys)
    ensures KeysAreOrdered(WithKey(keys, k))
    ensures forall x :: x in WithKey(keys, k) <==> x == k || x in keys
  {
    hide KeyLess;
    if keys == [] {
    } else if KeyLess(k, keys[0]) {
      forall j | 0 < j < |keys|
        ensures KeyLess(k, keys[j])
      {
        KeyOrder(k, keys[0], keys[j]);
      }
    } else if k != keys[0] {
      KeyOrder(k, keys[0], k);
      WithKeyOrdered(keys[1..], k);
      assert keys == [keys[0]] + keys[1..];
      var rest := WithKey(keys[1..], k);
      forall j | 0 <= j < |rest|
        ensures KeyLess(keys[0], rest[j])
      {
        assert rest[j] in rest;
      }
    }
  }

  lemma {:induction false} KeysOrdered(samples: seq<Sample>)
    ensures KeysAreOrdered(KeysOf(samples))
    ensures forall k :: k in KeysOf(samples) <==> exists s :: s in samples && V.KeyOf(s) == k
  {
    hide KeysAreOrdered, WithKey, V.KeyOf;
    if samples == [] {
      assert KeysAreOrdered([]) by { NoKeys(); }
    } else {
      var n := |samples| - 1;
      KeysOrdered(samples[..n]);
      WithKeyOrdered(KeysOf(samples[..n]), V.KeyOf(samples[n]));
      assert samples == samples[..n] + [samples[n]];
    }
  }

  lemma NoKeys()
    ensures KeysAreOrdered([])
  {
  }

  lemma OrderedDistinct(keys: seq<WindowKey>)
    requires KeysAreOrdered(keys)
    ensures forall i, j :: 0 <= i < j < |keys| ==> keys[i] != keys[j]
  {
    hide KeyLess;
    forall i, j | 0 <= i < j < |keys|
      ensures keys[i] != keys[j]
    {
      KeyOrder(keys[i], keys[j], keys[j]);
    }
  }

  lemma KeptDistinct(samples: seq<Sample>, maxWindows: nat)
    ensures var keys := KeptKeys(samples, maxWindows); forall i, j :: 0 <= i < j < |keys| ==> keys[i] != keys[j]
  {
    hide KeysOf, KeysAreOrdered;
    KeysOrdered(samples);
    OrderedDistinct(KeysOf(samples));
  }

  /** While there is room for every window, restoring loses no sample and repeats none. */
  lemma EverySampleRestored(samples: seq<Sample>, maxWindows: nat)
    requires |KeysOf(samples)| <= maxWindows
    ensures multiset(RestoreOrder(samples, KeptKeys(samples, maxWindows))) == multiset(samples)
  {
    hide KeysOf, RestoreOrder, KeysAreOrdered;
    KeysOrdered(samples);
    OrderedDistinct(KeysOf(samples));
    OrderMembers(samples, KeysOf(samples));
  }

  lemma {:induction false} OrderMembers(samples: seq<Sample>, keys: seq<WindowKey>)
    requires forall i, j :: 0 <= i < j < |keys| ==> keys[i] != keys[j]
    requires forall s :: s in samples ==> V.KeyOf(s) in keys
    ensures multiset(RestoreOrder(samples, keys)) == multiset(samples)
  {
    hide RestoreOrder, V.KeyOf;
    if samples == [] {
      NothingOrdered(keys);
    } else {
      var n := |samples| - 1;
      assert samples == samples[..n] + [samples[n]];
      OrderMembers(samples[..n], keys);
      OneMoreOrdered(samples[..n], samples[n], keys);
    }
  }

  lemma {:induction false} NothingOrdered(keys: seq<WindowKey>)
    ensures RestoreOrder([], keys) == []
  {
    if keys != [] {
      NothingOrdered(keys[..|keys| - 1]);
    }
  }

  lemma {:induction false} OneMoreOrdered(samples: seq<Sample>, x: Sample, keys: seq<WindowKey>)
    requires forall i, j :: 0 <= i < j < |keys| ==> keys[i] != keys[j]
    ensures multiset(RestoreOrder(samples + [x], keys))
      == multiset(RestoreOrder(samples, keys)) + if V.KeyOf(x) in keys then multiset{x} else multiset{}
  {
    hide V.KeyOf, SortBy, RestoreLess, GroupOf;
    if keys != [] {
      var n := |keys| - 1;
      var k := keys[n];
      OneMoreOrdered(samples, x, keys[..n]);
      assert keys == keys[..n] + [k];
      GroupConcat(samples, [x], k);
      GroupOfSingle(x, k);
      SortMembers(RestoreLess, GroupOf(samples, k));
      SortMembers(RestoreLess, GroupOf(samples + [x], k));
    }
  }

  lemma GroupOfSingle(x: Sample, k: WindowKey)
    ensures GroupOf([x], k) == if V.KeyOf(x) == k then [x] else []
  {
    assert [x][..0] == [];
    NoGroup(k);
  }

  lemma {:induction false} OrderedAreSamples(samples: seq<Sample>, keys: seq<WindowKey>)
    ensures forall s :: s in RestoreOrder(samples, keys) ==> s in samples
  {
    hide SortBy, RestoreLess, GroupOf;
    if keys != [] {
      var n := |keys| - 1;
      OrderedAreSamples(samples, keys[..n]);
      var group := GroupOf(samples, keys[n]);
      SortMembers(RestoreLess, group);
      GroupIds(samples, keys[n]);
      forall s | s in SortBy(RestoreLess, group)
        ensures s in samples
      {
        assert s in multiset(group);
      }
    }
  }

  // ---------------------------------------------------------------------------
  // Restoring windows
  // ---------------------------------------------------------------------------

  ghost function IdsIn(samples: seq<Sample>, keys: seq<WindowKey>): set<Id> {
    set s | s in samples && V.KeyOf(s) in keys :: s.id
  }

  function TraceOf(s: Sample): F.Trace {
    F.Trace(s.provenance.source,
            F.Position(s.provenance.incarnation, s.provenance.epoch, s.provenance.sequence), s.content)
  }

  function TracesOf(s: seq<Sample>): (ts: seq<F.Trace>)
    ensures |ts| == |s| && forall i :: 0 <= i < |s| ==> ts[i] == TraceOf(s[i])
  {
    seq(|s|, i requires 0 <= i < |s| => TraceOf(s[i]))
  }

  // Grouping and re-adding, as restore does it with its window objects, until the engine has no
  // room for another window: which samples are withheld, and in which order they speak for their
  // sources.
  method RestoreWindows(limits: Limits, samples: seq<Sample>, withhold: bool)
    returns (windows: map<WindowKey, V.SampleWindow>, restored: set<Id>, ts: seq<F.Trace>)
    ensures forall k :: k in windows <==> k in KeptKeys(samples, limits.maxWindows)
    ensures forall k :: k in windows ==> fresh(windows[k]) && Refilled(limits.policy, samples, k, windows[k])
    ensures restored == if withhold then IdsIn(samples, KeptKeys(samples, limits.maxWindows)) else {}
    ensures ts == TracesOf(RestoreOrder(samples, KeptKeys(samples, limits.maxWindows)))
  {
    hide Refilled, IdsIn, GroupOf, KeysOf, KeysAreOrdered, RestoreOrder, TracesOf, KeySet;
    var keys, grouped := Group(samples);
    KeysOrdered(samples);
    OrderedDistinct(keys);
    var kept;
    windows, kept := RefillAll(limits, samples, keys, grouped);
    var ids;
    ids, ts := Account(samples, kept, grouped);
    restored := if withhold then ids else {};
    KeySetMembers(kept);
  }

  // Opening windows in key order while there is room.
  method RefillAll(limits: Limits, ghost samples: seq<Sample>, keys: seq<WindowKey>,
    grouped: map<WindowKey, seq<Sample>>)
    returns (windows: map<WindowKey, V.SampleWindow>, kept: seq<WindowKey>)
    requires forall i, j :: 0 <= i < j < |keys| ==> keys[i] != keys[j]
    requires forall k :: k in keys ==> k in grouped && grouped[k] == GroupOf(samples, k)
    ensures kept == if |keys| <= limits.maxWindows then keys else keys[..limits.maxWindows]
    ensures windows.Keys == KeySet(kept)
    ensures forall k :: k in windows ==> fresh(windows[k]) && Refilled(limits.policy, samples, k, windows[k])
  {
    hide Refilled, GroupOf, SortBy, RestoreLess, KeySet;
    windows := map[];
    NoKeyYet(samples, keys);
    var i := 0;
    while i < |keys| && |windows.Keys| < limits.maxWindows
      invariant i <= |keys| && |windows.Keys| == i <= limits.maxWindows
      invariant windows.Keys == KeySet(keys[..i])
      invariant forall k :: k in windows ==> fresh(windows[k]) && Refilled(limits.policy, samples, k, windows[k])
    {
      var k := keys[i];
      assert k in keys;
      var w := Refill(limits.policy, samples, k, SortBy(RestoreLess, grouped[k]));
      NextKey(samples, keys, i, SortBy(RestoreLess, grouped[k]));
      assert windows[k := w].Keys == windows.Keys + {k};
      windows := windows[k := w];
      i := i + 1;
    }
    kept := keys[..i];
  }

  // What each re-added sample is recorded as: withheld from current evidence, and heard for its
  // source.
  method Account(ghost samples: seq<Sample>, keys: seq<WindowKey>, grouped: map<WindowKey, seq<Sample>>)
    returns (ids: set<Id>, ts: seq<F.Trace>)
    requires forall i, j :: 0 <= i < j < |keys| ==> keys[i] != keys[j]
    requires forall k :: k in keys ==> k in grouped && grouped[k] == GroupOf(samples, k)
    ensures ids == IdsIn(samples, keys)
    ensures ts == TracesOf(RestoreOrder(samples, keys))
  {
    hide IdsIn, GroupOf, SortBy, RestoreLess, RestoreOrder, TracesOf, IdsOf;
    ids, ts := {}, [];
    NoKeyYet(samples, keys);
    for i := 0 to |keys|
      invariant ids == IdsIn(samples, keys[..i])
      invariant ts == TracesOf(RestoreOrder(samples, keys[..i]))
    {
      assert keys[i] in keys;
      var sorted := SortBy(RestoreLess, grouped[keys[i]]);
      NextKey(samples, keys, i, sorted);
      ids := ids + IdsOf(sorted);
      ts := ts + TracesOf(sorted);
    }
    assert keys[..|keys|] == keys;
  }

  function KeySet(keys: seq<WindowKey>): set<WindowKey> {
    set k | k in keys
  }

  lemma KeySetMembers(keys: seq<WindowKey>)
    ensures forall k :: k in KeySet(keys) <==> k in keys
  {
  }

  function IdsOf(s: seq<Sample>): set<Id> {
    set x | x in s :: x.id
  }

  lemma NoKeyYet(samples: seq<Sample>, keys: seq<WindowKey>)
    ensures KeySet(keys[..0]) == {} && IdsIn(samples, keys[..0]) == {}
    ensures TracesOf(RestoreOrder(samples, keys[..0])) == []
  {
  }

  lemma NextKey(samples: seq<Sample>, keys: seq<WindowKey>, i: nat, sorted: seq<Sample>)
    requires i < |keys| && sorted == SortBy(RestoreLess, GroupOf(samples, keys[i]))
    requires forall a, b :: 0 <= a < b < |keys| ==> keys[a] != keys[b]
    ensures KeySet(keys[..i + 1]) == KeySet(keys[..i]) + {keys[i]} && keys[i] !in KeySet(keys[..i])
    ensures IdsIn(samples, keys[..i + 1]) == IdsIn(samples, keys[..i]) + IdsOf(sorted)
    ensures TracesOf(RestoreOrder(samples, keys[..i + 1]))
      == TracesOf(RestoreOrder(samples, keys[..i])) + TracesOf(sorted)
  {
    hide GroupOf, SortBy, RestoreLess, IdsIn, IdsOf, TracesOf;
    assert keys[..i + 1] == keys[..i] + [keys[i]] && keys[..i + 1][..i] == keys[..i];
    MoreIds(samples, keys[..i], keys[i], sorted);
    TracesConcat(RestoreOrder(samples, keys[..i]), sorted);
  }

  lemma TracesConcat(a: seq<Sample>, b: seq<Sample>)
    ensures TracesOf(a + b) == TracesOf(a) + TracesOf(b)
  {
  }

  lemma MoreIds(samples: seq<Sample>, done: seq<WindowKey>, k: WindowKey, sorted: seq<Sample>)
    requires sorted == SortBy(RestoreLess, GroupOf(samples, k))
    ensures IdsIn(samples, done + [k]) == IdsIn(samples, done) + IdsOf(sorted)
  {
    hide GroupOf, SortBy, RestoreLess;
    GroupIds(samples, k);
    SortMembers(RestoreLess, GroupOf(samples, k));
    forall s: Sample
      ensures s in sorted <==> s in samples && V.KeyOf(s) == k
    {
      assert s in sorted <==> s in multiset(sorted);
      assert s in GroupOf(samples, k) <==> s in multiset(GroupOf(samples, k));
    }
    SameIds(samples, done, k, sorted);
  }

  lemma SameIds(samples: seq<Sample>, done: seq<WindowKey>, k: WindowKey, sorted: seq<Sample>)
    requires forall s: Sample :: s in sorted <==> s in samples && V.KeyOf(s) == k
    ensures IdsIn(samples, done + [k]) == IdsIn(samples, done) + IdsOf(sorted)
  {
  }

  lemma {:induction false} GroupIds(samples: seq<Sample>, k: WindowKey)
    ensures forall s :: s in GroupOf(samples, k) <==> s in samples && V.KeyOf(s) == k
  {
    hide V.KeyOf;
    if samples != [] {
      GroupIds(samples[..|samples| - 1], k);
      assert samples == samples[..|samples| - 1] + [samples[|samples| - 1]];
    }
  }

  // The grouping loop: the map's keys in order, and what each holds.
  method Group(samples: seq<Sample>) returns (keys: seq<WindowKey>, grouped: map<WindowKey, seq<Sample>>)
    ensures keys == KeysOf(samples)
    ensures forall k :: k in keys ==> k in grouped && grouped[k] == GroupOf(samples, k)
  {
    hide V.KeyOf, WithKey, KeysAreOrdered;
    keys, grouped := [], map[];
    for i := 0 to |samples|
      invariant keys == KeysOf(samples[..i])
      invariant forall k :: WindowOf(grouped, k) == GroupOf(samples[..i], k)
      invariant forall k :: k in keys ==> k in grouped
    {
      assert samples[..i + 1][..i] == samples[..i];
      var k := V.KeyOf(samples[i]);
      KeysOrdered(samples[..i]);
      WithKeyOrdered(keys, k);
      keys := WithKey(keys, k);
      grouped := grouped[k := WindowOf(grouped, k) + [samples[i]]];
    }
    assert samples[..|samples|] == samples;
  }

  // The samples of one window re-added to it; as they all carry its key, no add is refused.
  method Refill(policy: V.WindowPolicy, ghost all: seq<Sample>, ghost k: WindowKey, samples: seq<Sample>)
    returns (w: V.SampleWindow)
    requires samples == SortBy(RestoreLess, GroupOf(all, k))
    ensures fresh(w) && Refilled(policy, all, k, w)
  {
    hide V.Added, GroupOf, SortBy, RestoreLess, V.KeptFor, V.Foreign, V.KeyOf;
    w := new V.SampleWindow(policy);
    SortedGroupKeyed(all, k);
    I.EmptyIsKept(policy, k);
    for i := 0 to |samples|
      invariant fresh(w) && w.policy == policy && w.Value() == V.AddedAll(policy, samples[..i])
      invariant V.KeptFor(policy, k, w.Value())
    {
      assert samples[..i + 1][..i] == samples[..i];
      V.AddedKeeps(policy, k, w.Value(), samples[i]);
      var status := w.Add(samples[i]);
      assert status.Success?;
    }
    assert samples[..|samples|] == samples;
  }

  lemma SortedGroupKeyed(samples: seq<Sample>, k: WindowKey)
    ensures var sorted := SortBy(RestoreLess, GroupOf(samples, k));
      forall i :: 0 <= i < |sorted| ==> V.KeyOf(sorted[i]) == k
  {
    hide GroupOf, SortBy, RestoreLess, V.KeyOf;
    GroupIds(samples, k);
    var group := GroupOf(samples, k);
    var sorted := SortBy(RestoreLess, group);
    SortMembers(RestoreLess, group);
    forall i | 0 <= i < |sorted|
      ensures V.KeyOf(sorted[i]) == k
    {
      assert sorted[i] in multiset(group);
    }
  }

  // ---------------------------------------------------------------------------
  // Restoring
  // ---------------------------------------------------------------------------

  /** What restore reads from a file, or why it refuses it. */
  function Recovered(chk: S.Checks, sch: Scheme, file: Bytes, repair: bool): Result<Intake> {
    var l :- L.Loaded(chk, file);
    if l.recovery.midFileCorruption then Err(Corrupt)
    else if !l.recovery.clean && !repair then Err(IntegrityFailure)
    else if l.recovery.trailerPresent && l.trailerRecordCount != l.recovery.recordsRecovered - 1
    then Err(IntegrityFailure)
    else TakenAll(sch, NOTHING, RecordsOf(l.records))
  }

  /** The guard of a source after a restart: rebuilt from the samples in the order they are restored,
      then merged with those that were saved. */
  function RestoredGuard(source: Id, x: Intake, maxWindows: nat): F.Guard {
    F.MergedAll(F.Rebuilt(source, TracesOf(RestoreOrder(x.samples, KeptKeys(x.samples, maxWindows)))), source, x.guards)
  }

  /** restore into a fresh engine: check the recovery report, take in the records, rebuild windows
      and guards. Samples are withheld unless caller and configuration both admit them. */
  method Restore(chk: S.Checks, sch: Scheme, file: Bytes, limits: Limits, repair: bool,
                 callerAdmits: bool, configAdmits: bool)
    returns (res: Result<Intake>, windows: map<WindowKey, V.SampleWindow>, restored: set<Id>,
             guards: map<Id, F.Guard>)
    ensures res == Recovered(chk, sch, file, repair)
    ensures res.Ok? ==>
      var keys := KeptKeys(res.value.samples, limits.maxWindows);
      && (forall k :: k in windows <==> k in keys)
      && (forall k :: k in windows ==>
            fresh(windows[k]) && Refilled(limits.policy, res.value.samples, k, windows[k]))
      && restored == (if callerAdmits && configAdmits then {} else IdsIn(res.value.samples, keys))
      && (forall source: Id :: F.GuardOf(guards, source) == RestoredGuard(source, res.value, limits.maxWindows))
  {
    hide L.Loaded, TakenAll, Refilled, KeptKeys, RestoreOrder, IdsIn, F.MergedAll, F.Rebuilt;
    windows, restored, guards := map[], {}, map[];
    var loaded := L.LoadStore(chk, file);
    if loaded.Err? {
      res := Err(loaded.error);
      return;
    }
    var l := loaded.value;
    if l.recovery.midFileCorruption {
      res := Err(Corrupt);
      return;
    }
    if !l.recovery.clean && !repair {
      res := Err(IntegrityFailure);
      return;
    }
    if l.recovery.trailerPresent && l.trailerRecordCount != l.recovery.recordsRecovered - 1 {
      res := Err(IntegrityFailure);
      return;
    }
    res := TakeIn(sch, l.records);
    if res.Err? {
      return;
    }
    var traces;
    windows, restored, traces := RestoreWindows(limits, res.value.samples, !(callerAdmits && configAdmits));
    guards := F.RestoreGuards(traces, res.value.guards);
  }

  /** What restore reads of a saved engine, the samples resealed. */
  ghost function IntakeOf(sch: Scheme, e: Engine, o: Order): Intake {
    Intake(PathIds(e.paths), P.ImportedAll(map[], P.AllGenerations(e.generations, o.paths)),
           ResealedAll(sch, AllSamples(e.windows, o.windows)), GuardPairs(e.guards, o.guards))
  }
}
