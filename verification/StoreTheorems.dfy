/** Whole runs of the store: what every sequence of writer calls keeps, and why a crash and a
    reopen cannot be told from never having stopped. */
module StoreTheorems {
  import opened Errors
  import opened CanonicalBytes
  import opened StoreFormat
  import opened StoreLoader
  import opened StoreRecovery
  import opened StoreWriter

  // ---------------------------------------------------------------------------
  // Runs
  // ---------------------------------------------------------------------------

  datatype Call = AppendCall(kind: RecordType, payload: Bytes) | TrailerCall

  function Step(chk: Checks, s: State, c: Call): State {
    match c
    case AppendCall(kind, payload) => Appended(chk, s, kind, payload).state
    case TrailerCall =>
      if s.recordCount < 0x1_0000_0000_0000_0000 then Closed(chk, s).state else s
  }

  function Run(chk: Checks, s: State, calls: seq<Call>): State {
    if calls == [] then s
    else Step(chk, Run(chk, s, calls[..|calls| - 1]), calls[|calls| - 1])
  }

  /** The state of a writer that has written exactly the records rs. */
  function StateOf(chk: Checks, h: StoreHeader, rs: seq<Rec>): State {
    State(h, Image(chk, h, rs), ChainAfter(chk, h, rs), DataCount(rs), |Image(chk, h, rs)|)
  }

  /** A log a writer can hold: well formed and inside the bounds on records and bytes. */
  ghost predicate Reachable(chk: Checks, h: StoreHeader, rs: seq<Rec>) {
    && Written(chk, h, rs)
    && DataCount(rs) <= MAX_STORE_RECORDS
    && |Image(chk, h, rs)| <= MAX_STORE_BYTES
  }

  /** The records of rs and those that a run of calls from there adds. */
  function Log(chk: Checks, h: StoreHeader, rs: seq<Rec>, calls: seq<Call>): seq<Rec> {
    if calls == [] then rs
    else
      var before := Log(chk, h, rs, calls[..|calls| - 1]);
      before + Added(StateOf(chk, h, before), calls[|calls| - 1])
  }

  /** The record one call adds: one, or none when the call is refused. */
  function Added(s: State, c: Call): (r: seq<Rec>)
    ensures |r| <= 1
  {
    match c
    case AppendCall(kind, payload) =>
      if AppendRefusal(s, kind, payload).Success? then [Rec(kind, payload)] else []
    case TrailerCall =>
      if s.recordCount < 0x1_0000_0000_0000_0000
        && SizeRefusal(s, PREFIX_BYTES + TRAILER_PAYLOAD_BYTES + SUFFIX_BYTES).Success?
      then [TrailerRecord(s)] else []
  }

  lemma GrowLog(chk: Checks, h: StoreHeader, rs: seq<Rec>, r: Rec)
    ensures Grow(chk, StateOf(chk, h, rs), r, DataCount(rs) + if r.kind.Trailer? then 0 else 1) ==
      StateOf(chk, h, rs + [r])
  {
    hide EncodeHeader, RecordBytes, Covered;
    assert (rs + [r])[..|rs|] == rs;
  }

  lemma WrittenGrows(chk: Checks, h: StoreHeader, rs: seq<Rec>, r: Rec)
    requires Written(chk, h, rs) && Fits(r)
    requires r.kind.Trailer? ==> TrailerStates(chk, h, rs, r)
    ensures Written(chk, h, rs + [r])
  {
    hide Image, ChainAfter, DataCount;
    var all := rs + [r];
    forall i | 0 <= i < |all| && all[i].kind.Trailer?
      ensures TrailerStates(chk, h, all[..i], all[i])
    {
      if i < |rs| {
        assert all[..i] == rs[..i];
      } else {
        assert all[..i] == rs;
      }
    }
  }

  /** One call keeps the writer equal to its log. */
  lemma StepKeepsLog(chk: Checks, h: StoreHeader, rs: seq<Rec>, c: Call)
    requires Reachable(chk, h, rs)
    ensures var next := rs + Added(StateOf(chk, h, rs), c);
      Reachable(chk, h, next) && Step(chk, StateOf(chk, h, rs), c) == StateOf(chk, h, next)
  {
    hide Image, ChainAfter, DataCount, RecordBytes, Written;
    var s := StateOf(chk, h, rs);
    var added := Added(s, c);
    if added == [] {
      assert rs + added == rs;
    } else {
      GrowLog(chk, h, rs, added[0]);
      AddedIsWritten(chk, h, rs, c);
      WrittenGrows(chk, h, rs, added[0]);
    }
  }

  lemma AddedIsWritten(chk: Checks, h: StoreHeader, rs: seq<Rec>, c: Call)
    requires Reachable(chk, h, rs)
    requires Added(StateOf(chk, h, rs), c) != []
    ensures var r := Added(StateOf(chk, h, rs), c)[0];
      Fits(r) && (r.kind.Trailer? ==> TrailerStates(chk, h, rs, r))
  {
    hide Image, ChainAfter, DataCount, Written;
  }

  /** A call is accepted exactly when the log with its record is still one a writer can hold, and
      no trailer passes for data. Any other refusal is one of limits; nothing overflows. */
  lemma AcceptsIff(chk: Checks, h: StoreHeader, rs: seq<Rec>, kind: RecordType, payload: Bytes)
    requires Reachable(chk, h, rs)
    ensures var s := StateOf(chk, h, rs); var refusal := AppendRefusal(s, kind, payload);
      && (Added(s, AppendCall(kind, payload)) == [Rec(kind, payload)] <==>
            !kind.Trailer? && Reachable(chk, h, rs + [Rec(kind, payload)]))
      && (refusal == Failure(InvalidArgument) <==> kind.Trailer?)
      && (refusal.Failure? && !kind.Trailer? ==> refusal == Failure(LimitExceeded))
      && (Added(s, TrailerCall) != [] <==> Reachable(chk, h, rs + [TrailerRecord(s)]))
      && (Closed(chk, s).status.Failure? ==> Closed(chk, s).status == Failure(LimitExceeded))
  {
    hide EncodeHeader, RecordBytes, Covered, Written, AppendRefusal, SizeRefusal, DataCount, Added, Closed;
    var s := StateOf(chk, h, rs);
    AppendsIff(chk, h, rs, kind, payload);
    ClosesIff(chk, h, rs);
  }

  lemma AppendsIff(chk: Checks, h: StoreHeader, rs: seq<Rec>, kind: RecordType, payload: Bytes)
    requires Reachable(chk, h, rs)
    ensures var s := StateOf(chk, h, rs); var refusal := AppendRefusal(s, kind, payload);
      && (Added(s, AppendCall(kind, payload)) == [Rec(kind, payload)] <==>
            !kind.Trailer? && Reachable(chk, h, rs + [Rec(kind, payload)]))
      && (refusal == Failure(InvalidArgument) <==> kind.Trailer?)
      && (refusal.Failure? && !kind.Trailer? ==> refusal == Failure(LimitExceeded))
  {
    hide EncodeHeader, RecordBytes, Covered, Written, ChainStep;
    var all := rs + [Rec(kind, payload)];
    assert all[..|rs|] == rs;
    assert all[|rs|] == Rec(kind, payload);
    if !kind.Trailer? {
      if Fits(all[|rs|]) {
        WrittenGrows(chk, h, rs, all[|rs|]);
      } else {
        WrittenFits(chk, h, all, |rs|);
      }
    }
  }

  lemma WrittenFits(chk: Checks, h: StoreHeader, rs: seq<Rec>, i: nat)
    requires i < |rs|
    ensures Written(chk, h, rs) ==> Fits(rs[i])
  {
  }

  lemma ClosesIff(chk: Checks, h: StoreHeader, rs: seq<Rec>)
    requires Reachable(chk, h, rs)
    ensures var s := StateOf(chk, h, rs);
      && (Added(s, TrailerCall) != [] <==> Reachable(chk, h, rs + [TrailerRecord(s)]))
      && (Closed(chk, s).status.Failure? ==> Closed(chk, s).status == Failure(LimitExceeded))
  {
    hide EncodeHeader, RecordBytes, Covered, Written, ChainStep;
    var r := TrailerRecord(StateOf(chk, h, rs));
    assert (rs + [r])[..|rs|] == rs;
    WrittenGrows(chk, h, rs, r);
  }

  /** What create accepts loads again as the empty store with that header, and the one thing it
      refuses a header for that could be loaded is a nil store id. */
  lemma CreatedLoads(chk: Checks, h: StoreHeader, exists_: bool, truncate: bool)
    ensures CreateRefusal(h, exists_, truncate).Success? <==>
      (exists_ ==> truncate) && h.storeId != ZERO_DIGEST && Loaded(chk, Created(chk, h).file).Ok?
    ensures CreateRefusal(h, exists_, truncate) == Failure(Duplicate) <==> exists_ && !truncate
    ensures Loaded(chk, Created(chk, h).file).Ok? ==>
      var l := Loaded(chk, Created(chk, h).file).value;
      l.header == h && l.records == [] && l.recovery.clean && l.recovery.validBytes == HEADER_BYTES
    ensures Loaded(chk, Created(chk, h).file).Ok? && (exists_ ==> truncate) && h.storeId == ZERO_DIGEST ==>
      CreateRefusal(h, exists_, truncate) == Failure(InvalidArgument)
    ensures Loaded(chk, Created(chk, h).file).Err? && (exists_ ==> truncate) ==>
      CreateRefusal(h, exists_, truncate) == Failure(Loaded(chk, Created(chk, h).file).error)
  {
    hide EncodeHeader, DecodeHeader;
    var file := EncodeHeader(chk, h);
    assert file + [] == file && file[..HEADER_BYTES] == file;
    if h.formatVersion == FORMAT_VERSION {
      HeaderRoundTrip(chk, h, []);
    } else {
      OtherVersionRefused(chk, h, []);
    }
  }

  /** Every state of every run is the state of its log. */
  lemma {:induction false} RunKeepsLog(chk: Checks, h: StoreHeader, rs: seq<Rec>, calls: seq<Call>)
    requires Reachable(chk, h, rs)
    ensures Reachable(chk, h, Log(chk, h, rs, calls))
    ensures Run(chk, StateOf(chk, h, rs), calls) == StateOf(chk, h, Log(chk, h, rs, calls))
  {
    hide StateOf, Reachable, Step, Added;
    if calls != [] {
      var front := calls[..|calls| - 1];
      RunKeepsLog(chk, h, rs, front);
      StepKeepsLog(chk, h, Log(chk, h, rs, front), calls[|calls| - 1]);
    }
  }

  lemma CreatedIsEmptyLog(chk: Checks, h: StoreHeader)
    requires h.formatVersion == FORMAT_VERSION
    ensures Reachable(chk, h, []) && Created(chk, h) == StateOf(chk, h, [])
  {
  }

  // ---------------------------------------------------------------------------
  // A log can be written again
  // ---------------------------------------------------------------------------

  /** The calls that write the records rs; none of them is a trailer. */
  function Calls(rs: seq<Rec>): seq<Call> {
    seq(|rs|, i requires 0 <= i < |rs| => AppendCall(rs[i].kind, rs[i].payload))
  }

  lemma PrefixReachable(chk: Checks, h: StoreHeader, rs: seq<Rec>, k: nat)
    requires Reachable(chk, h, rs) && k <= |rs|
    ensures Reachable(chk, h, rs[..k])
  {
    hide Image, ChainAfter, DataCount;
    ImagePrefix(chk, h, rs, k);
    DataCountGrows(rs, k);
    forall i | 0 <= i < k && rs[i].kind.Trailer?
      ensures TrailerStates(chk, h, rs[..k][..i], rs[i])
    {
      assert rs[..k][..i] == rs[..i];
    }
  }

  lemma {:induction false} DataCountGrows(rs: seq<Rec>, k: nat)
    requires k <= |rs|
    ensures DataCount(rs[..k]) <= DataCount(rs)
    decreases |rs| - k
  {
    if k == |rs| {
      assert rs[..k] == rs;
    } else {
      assert rs[..k + 1][..k] == rs[..k];
      DataCountGrows(rs, k + 1);
    }
  }

  /** A fresh writer given the data records of a log accepts them all and writes that log. */
  lemma {:induction false} Rewritten(chk: Checks, h: StoreHeader, rs: seq<Rec>)
    requires Reachable(chk, h, rs) && NoTrailer(rs, |rs|)
    ensures Run(chk, Created(chk, h), Calls(rs)) == StateOf(chk, h, rs)
  {
    hide StateOf, Reachable, Step, Run, Calls, Created, Added;
    if rs == [] {
      ReachableVersion(chk, h, rs);
      CreatedIsEmptyLog(chk, h);
      NoCalls(chk, h);
    } else {
      var k := |rs| - 1;
      var last := AppendCall(rs[k].kind, rs[k].payload);
      PrefixReachable(chk, h, rs, k);
      Rewritten(chk, h, rs[..k]);
      LastCall(chk, Created(chk, h), rs);
      AcceptsNext(chk, h, rs);
      StepKeepsLog(chk, h, rs[..k], last);
      assert rs[..k] + [rs[k]] == rs;
    }
  }

  lemma NoCalls(chk: Checks, h: StoreHeader)
    ensures Run(chk, Created(chk, h), Calls([])) == Created(chk, h)
  {
    hide Created;
    assert Calls([]) == [];
  }

  lemma LastCall(chk: Checks, s: State, rs: seq<Rec>)
    requires rs != []
    ensures var k := |rs| - 1;
      Run(chk, s, Calls(rs)) == Step(chk, Run(chk, s, Calls(rs[..k])), AppendCall(rs[k].kind, rs[k].payload))
  {
    hide Step;
    var k := |rs| - 1;
    assert Calls(rs)[..k] == Calls(rs[..k]);
  }

  lemma ReachableVersion(chk: Checks, h: StoreHeader, rs: seq<Rec>)
    requires Reachable(chk, h, rs)
    ensures h.formatVersion == FORMAT_VERSION
  {
  }

  lemma AcceptsNext(chk: Checks, h: StoreHeader, rs: seq<Rec>)
    requires Reachable(chk, h, rs) && rs != [] && !rs[|rs| - 1].kind.Trailer?
    ensures Added(StateOf(chk, h, rs[..|rs| - 1]), AppendCall(rs[|rs| - 1].kind, rs[|rs| - 1].payload)) ==
      [rs[|rs| - 1]]
  {
    hide EncodeHeader, RecordBytes, ChainAfter;
  }

  // ---------------------------------------------------------------------------
  // Reopening
  // ---------------------------------------------------------------------------

  /** The data records of the log that survive when the scan stops at k. */
  function Kept(rs: seq<Rec>, k: nat): seq<Rec>
    requires k <= |rs|
  {
    if EndsWithTrailer(rs, k) then rs[..k - 1] else rs[..k]
  }

  lemma {:induction false} StoredDataRecords(chk: Checks, h: StoreHeader, rs: seq<Rec>, k: nat)
    requires k <= |rs| && NoTrailer(rs, k)
    ensures DataRecords(Stored(chk, h, rs, k)) == k
    ensures LastDataChain(Stored(chk, h, rs, k), Seed(chk, h)) == ChainAfter(chk, h, rs[..k])
    ensures TrailerOffset(Stored(chk, h, rs, k)) == None
  {
    hide Offset, Seed;
    if k > 0 {
      StoredDataRecords(chk, h, rs, k - 1);
      assert Stored(chk, h, rs, k)[..k - 1] == Stored(chk, h, rs, k - 1);
    }
  }

  lemma StoredSummary(chk: Checks, h: StoreHeader, rs: seq<Rec>, k: nat)
    requires k <= |rs| && NoTrailer(rs, if k == 0 then 0 else k - 1)
    ensures DataRecords(Stored(chk, h, rs, k)) == |Kept(rs, k)|
    ensures LastDataChain(Stored(chk, h, rs, k), Seed(chk, h)) == ChainAfter(chk, h, Kept(rs, k))
    ensures TrailerOffset(Stored(chk, h, rs, k)) ==
      if EndsWithTrailer(rs, k) then Some(Offset(chk, h, rs, k - 1)) else None
  {
    hide Offset, Seed, ChainAfter;
    if EndsWithTrailer(rs, k) {
      StoredDataRecords(chk, h, rs, k - 1);
      assert Stored(chk, h, rs, k)[..k - 1] == Stored(chk, h, rs, k - 1);
    } else {
      StoredDataRecords(chk, h, rs, k);
    }
  }

  /** Reopening the first n bytes of a written file, at a cut anywhere. Without repair it is
      refused exactly when bytes would be lost behind the last whole record; otherwise the
      writer is the one that has written the surviving data records and nothing else. */
  lemma ReopenCut(chk: Checks, h: StoreHeader, rs: seq<Rec>, n: nat, stop: nat, repair: bool)
    requires Written(chk, h, rs) && StopsAt(chk, h, rs, n, stop)
    ensures |Image(chk, h, Kept(rs, stop))| <= n
    ensures Reopened(chk, Image(chk, h, rs)[..n], repair) ==
      if Offset(chk, h, rs, stop) < n && !repair then Err(IntegrityFailure)
      else Ok(Reopening(StateOf(chk, h, Kept(rs, stop)), n - |Image(chk, h, Kept(rs, stop))|))
  {
    hide Image, Offset, Loaded, Written, Resumed, StateOf, Stored, ChainAfter, Kept;
    LoadCut(chk, h, rs, n, stop);
    ResumeReported(chk, h, rs, n, stop);
  }

  // Where reopening resumes, once what loading reports is known.
  lemma ResumeReported(chk: Checks, h: StoreHeader, rs: seq<Rec>, n: nat, stop: nat)
    requires StopsAt(chk, h, rs, n, stop)
    ensures |Image(chk, h, Kept(rs, stop))| <= n
    ensures Resumed(chk, Image(chk, h, rs)[..n], Report(chk, h, rs, n, stop)) ==
      Reopening(StateOf(chk, h, Kept(rs, stop)), n - |Image(chk, h, Kept(rs, stop))|)
  {
    hide Image, Offset, ChainAfter, Stored, Seed, DataRecords, LastDataChain, ReopenTarget;
    var kept := Kept(rs, stop);
    StoredSummary(chk, h, rs, stop);
    DataCountAll(kept);
    OffsetsGrow(chk, h, rs, |kept|, stop);
    KeptImage(chk, h, rs, n, |kept|);
    TargetReported(chk, h, rs, n, stop);
  }

  lemma TargetReported(chk: Checks, h: StoreHeader, rs: seq<Rec>, n: nat, stop: nat)
    requires StopsAt(chk, h, rs, n, stop)
    ensures ReopenTarget(Report(chk, h, rs, n, stop)) == Offset(chk, h, rs, |Kept(rs, stop)|)
  {
    hide Offset, ChainAfter, Stored, TrailerOffset;
    StoredSummary(chk, h, rs, stop);
    OffsetsGrow(chk, h, rs, |Kept(rs, stop)|, stop);
  }

  lemma KeptImage(chk: Checks, h: StoreHeader, rs: seq<Rec>, n: nat, k: nat)
    requires k <= |rs| && Offset(chk, h, rs, k) <= n <= |Image(chk, h, rs)|
    ensures Image(chk, h, rs)[..n][..Offset(chk, h, rs, k)] == Image(chk, h, rs[..k])
    ensures Offset(chk, h, rs, k) == n ==> Image(chk, h, rs)[..n] == Image(chk, h, rs[..k])
    ensures Offset(chk, h, rs, k) == |Image(chk, h, rs[..k])|
  {
    hide EncodeHeader, RecordBytes, ChainAfter;
    ImagePrefix(chk, h, rs, k);
  }

  /** Run a writer, cut its file anywhere behind the header, reopen with repair, go on: the
      writer, its chain, its counts and every byte of its file are what a writer would have
      that was given only the surviving records and then the same calls, never stopping. */
  lemma ReopenRefinesNeverStopping(
    chk: Checks, h: StoreHeader, before: seq<Call>, n: nat, stop: nat, after: seq<Call>)
    requires h.formatVersion == FORMAT_VERSION
    requires StopsAt(chk, h, Log(chk, h, [], before), n, stop)
    ensures Run(chk, Created(chk, h), before).file == Image(chk, h, Log(chk, h, [], before))
    ensures
      var rs := Log(chk, h, [], before);
      var reopened := Reopened(chk, Run(chk, Created(chk, h), before).file[..n], true);
      && reopened.Ok?
      && Run(chk, reopened.value.state, after) ==
           Run(chk, Run(chk, Created(chk, h), Calls(Kept(rs, stop))), after)
  {
    hide StateOf, Reachable, Reopened, Image, Run, Log, Created;
    var rs := Log(chk, h, [], before);
    CreatedIsEmptyLog(chk, h);
    RunKeepsLog(chk, h, [], before);
    ReachableIsWritten(chk, h, rs);
    StateFile(chk, h, rs);
    ReopenCut(chk, h, rs, n, stop, true);
    PrefixReachable(chk, h, rs, |Kept(rs, stop)|);
    Rewritten(chk, h, Kept(rs, stop));
  }

  lemma ReachableIsWritten(chk: Checks, h: StoreHeader, rs: seq<Rec>)
    requires Reachable(chk, h, rs)
    ensures Written(chk, h, rs)
  {
  }

  lemma StateFile(chk: Checks, h: StoreHeader, rs: seq<Rec>)
    ensures StateOf(chk, h, rs).file == Image(chk, h, rs)
  {
  }
}
