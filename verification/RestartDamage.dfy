/** Restarting from a damaged store, and the order in which a restart takes things back
    (src/engine.cpp, src/persistence.cpp). */
module RestartDamage {
  import opened Errors
  import opened CanonicalBytes
  import opened Lists
  import opened RecordForms
  import opened Samples
  import opened Restart
  import Crc32c
  import C = StoreChain
  import D = StoreDamage
  import Q = StoreReport

  // ---------------------------------------------------------------------------
  // Damage
  // ---------------------------------------------------------------------------

  /** The records end, before any trailer, at one that is not as it was written, and more follows it. */
  ghost predicate BrokenInside(file: Bytes, l: L.LoadedStore) {
    var end := l.recovery.validBytes;
    !Q.ClosedBy(l.records) && end < |file| && !Q.RunsOut(file, end) && Q.StatedEnd(file, end) < |file|
  }

  /** The records end with a trailer that states their number and chain, or without one where the file
      ends. */
  ghost predicate EndsWhole(chk: S.Checks, file: Bytes, l: L.LoadedStore)
    requires |file| >= S.HEADER_BYTES
  {
    var n := |l.records|;
    if Q.ClosedBy(l.records) then
      Q.States(l.records[n - 1].payload, n - 1, C.ChainBefore(chk.digest(file[..S.HEADER_BYTES]), l.records, n - 1))
    else l.recovery.validBytes == |file|
  }

  /** What restore makes of any file that loads, in terms of its bytes: broken inside, it is refused as corrupt
      with or without repair; not ending whole, it is refused without repair; and with repair one thing
      more is refused, a trailer that states another number of records than precede it. */
  lemma RestoreRefusals(chk: S.Checks, sch: Scheme, file: Bytes, repair: bool)
    requires L.Loaded(chk, file).Ok?
    ensures |file| >= S.HEADER_BYTES
    ensures var l := L.Loaded(chk, file).value;
      Recovered(chk, sch, file, repair) ==
        if BrokenInside(file, l) then Err(Corrupt)
        else if !EndsWhole(chk, file, l) && !repair then Err(IntegrityFailure)
        else if Q.ClosedBy(l.records) && l.trailerRecordCount != |l.records| - 1 then Err(IntegrityFailure)
        else TakenAll(sch, NOTHING, RecordsOf(l.records))
  {
    hide L.Walk, S.DecodeHeader, C.Linked, Q.RunsOut, Q.StatedEnd, Q.States, Q.NothingAt, TakenAll;
    Q.ReportExact(chk, file);
    LongEnough(chk, file);
  }

  lemma LongEnough(chk: S.Checks, file: Bytes)
    requires L.Loaded(chk, file).Ok?
    ensures |file| >= S.HEADER_BYTES
  {
  }

  /** Four damaged bytes in the payload of a stored record never reach the restored engine: with records
      behind it the store is refused as corrupt whatever is allowed, and damage to the last record is
      refused unless repair is. */
  lemma DamagedStoreRefused(
    chk: S.Checks, sch: Scheme, h: S.StoreHeader, rs: seq<S.Rec>, k: nat, payload: Bytes, start: nat, repair: bool)
    requires forall b: Bytes :: chk.crc(b) == Crc32c.Crc(b)
    requires R.Written(chk, h, rs) && k < |rs| && R.NoTrailer(rs, k)
    requires |payload| == |rs[k].payload| && payload != rs[k].payload
    requires forall i :: 0 <= i < |payload| && !(start <= i < start + 4) ==> payload[i] == rs[k].payload[i]
    ensures S.Offset(chk, h, rs, k) + S.PREFIX_BYTES + |payload| <= |S.Image(chk, h, rs)|
    ensures k + 1 < |rs| ==> Recovered(chk, sch, D.Altered(chk, h, rs, k, payload), repair) == Err(Corrupt)
    ensures k + 1 == |rs| && !repair ==>
      Recovered(chk, sch, D.Altered(chk, h, rs, k, payload), repair) == Err(IntegrityFailure)
  {
    hide S.Image, S.Offset, L.Loaded, D.Altered, R.Stored, TakenAll;
    D.PayloadBurstFound(chk, h, rs, k, payload, start);
    R.WholeOffset(chk, h, rs);
    R.OffsetsGrow(chk, h, rs, k + 1, |rs|);
  }

  /** Nor do four damaged bytes of the header. */
  lemma DamagedHeaderRefused(
    chk: S.Checks, sch: Scheme, h: S.StoreHeader, file: Bytes, start: nat, repair: bool)
    requires forall b: Bytes :: chk.crc(b) == Crc32c.Crc(b)
    requires |file| >= S.HEADER_BYTES && D.HeaderBurst(chk, h, file[..S.HEADER_BYTES], start)
    ensures Recovered(chk, sch, file, repair).Err?
  {
    hide D.HeaderBurst, L.Loaded, TakenAll;
    D.HeaderBurstFound(chk, h, file, start, repair);
  }

  // ---------------------------------------------------------------------------
  // Order
  // ---------------------------------------------------------------------------

  /** Oldest observation first, identities in byte order where instants agree. */
  predicate ObservedInOrder(s: seq<Sample>) {
    forall i, j :: 0 <= i < j < |s| ==>
      s[i].observedAt.ticks < s[j].observedAt.ticks
      || (s[i].observedAt.ticks == s[j].observedAt.ticks && LexLess(s[i].id, s[j].id))
  }

  predicate NoneObservedLater(gone: seq<Sample>, s: seq<Sample>) {
    forall i, j :: 0 <= i < |gone| && 0 <= j < |s| ==> gone[i].observedAt.ticks <= s[j].observedAt.ticks
  }

  lemma RestoreOrderStrict()
    ensures StrictOrder(RestoreLess)
  {
    forall a: Sample, b: Sample | RestoreLess(a, b)
      ensures !RestoreLess(b, a)
    {
      LexTotal(a.id, b.id);
    }
    forall a: Sample, b: Sample, c: Sample | RestoreLess(a, b) && !RestoreLess(c, b)
      ensures RestoreLess(a, c)
    {
      LexTotal(b.id, c.id);
      if LexLess(a.id, b.id) && LexLess(b.id, c.id) {
        LexTransitive(a.id, b.id, c.id);
      }
    }
  }

  /** What a restored window holds of the saved samples of its key: the latest observed ones, as many as it
      has room for, in the order of their observation, so that it goes on evicting the oldest
      first. */
  lemma RestoredKeepsLatest(policy: V.WindowPolicy, samples: seq<Sample>, k: WindowKey) returns (gone: seq<Sample>)
    requires DistinctIds(GroupOf(samples, k))
    ensures var w := RestoredWindow(policy, samples, k).samples; var group := GroupOf(samples, k);
      && multiset(gone + w) == multiset(group)
      && |w| == (if |group| <= policy.capacity then |group| else policy.capacity)
      && ObservedInOrder(w) && NoneObservedLater(gone, w)
  {
    hide V.AddedAll, SortBy, RestoreLess, StrictOrder, GroupOf, ObservedInOrder, NoneObservedLater, DistinctIds,
      Samples.Ascending, V.OneOwner, V.IsNewest;
    var group := GroupOf(samples, k);
    var sorted := SortBy(RestoreLess, group);
    RestoreOrderStrict();
    SortSorted(RestoreLess, group);
    SortMembers(RestoreLess, group);
    DistinctOfSame(group, sorted);
    SortedGroupKeyed(samples, k);
    OneKeyOneOwner(k, sorted);
    V.RetainsLastArrivals(policy, sorted);
    var w := RestoredWindow(policy, samples, k).samples;
    gone := sorted[..|sorted| - |w|];
    assert gone + w == sorted;
    SortedInOrder(sorted, |gone|);
  }

  lemma OneKeyOneOwner(k: WindowKey, s: seq<Sample>)
    requires forall i :: 0 <= i < |s| ==> V.KeyOf(s[i]) == k
    ensures V.OneOwner(s)
  {
  }

  lemma SortedInOrder(sorted: seq<Sample>, n: nat)
    requires Sorted(RestoreLess, sorted) && DistinctIds(sorted) && n <= |sorted|
    ensures ObservedInOrder(sorted[n..]) && NoneObservedLater(sorted[..n], sorted[n..])
  {
    hide LexLess;
    forall i, j | 0 <= i < j < |sorted|
      ensures RestoreLess(sorted[i], sorted[j])
    {
      assert !RestoreLess(sorted[j], sorted[i]) && sorted[i].id != sorted[j].id;
      LexTotal(sorted[i].id, sorted[j].id);
    }
    var gone, w := sorted[..n], sorted[n..];
    forall i, j | 0 <= i < j < |w|
      ensures RestoreLess(w[i], w[j])
    {
      assert w[i] == sorted[n + i] && w[j] == sorted[n + j];
    }
    forall i, j | 0 <= i < |gone| && 0 <= j < |w|
      ensures gone[i].observedAt.ticks <= w[j].observedAt.ticks
    {
      assert RestoreLess(sorted[i], sorted[n + j]);
    }
  }

  /** Where there are more windows to restore than room, those of the smallest series come back, and within
      one series those of the smallest generation, by the bytes of their identities. */
  lemma SmallestKeysRestored(samples: seq<Sample>, maxWindows: nat, k: WindowKey, other: WindowKey)
    requires k in KeptKeys(samples, maxWindows)
    requires other in KeysOf(samples) && other !in KeptKeys(samples, maxWindows)
    ensures |KeptKeys(samples, maxWindows)| == maxWindows
    ensures LexLess(k.series, other.series) || (k.series == other.series && LexLess(k.generation, other.generation))
  {
    hide KeysOf, LexLess;
    KeysOrdered(samples);
    var keys := KeysOf(samples);
    assert forall n :: 0 <= n < maxWindows ==> keys[n] in keys[..maxWindows];
    var i :| 0 <= i < |keys| && i < maxWindows && keys[i] == k;
    var j :| 0 <= j < |keys| && keys[j] == other;
    assert KeyLess(keys[i], keys[j]);
  }
}
